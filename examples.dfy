/** Two complete games played on the rules, from a freshly loaded page. */
module Examples {
  import opened Wrappers
  import opened Levels
  import opened Rules
  import opened Sessions

  /** Beginner (1..50, 10 attempts), secret 27: 10 is too low with 9 attempts
      left, 40 too high with 8 left, 27 wins in 3, which becomes the best score. */
  lemma BeginnerGame()
    ensures var s0 := Start(Loaded(), Beginner, 27);
      var t1 := Step(s0, Some(10));
      var t2 := Step(t1.after, Some(40));
      var t3 := Step(t2.after, Some(27));
      && t1.outcome == TooLow(9)
      && t2.outcome == TooHigh(8)
      && t3.outcome == Win(3)
      && t3.after.history == [10, 40, 27]
      && t3.after.best[Beginner] == Some(3)
      && t3.after.finished
  {
  }

  /** Hard (1..200, 5 attempts), secret 5: 1, 2, 3 and 4 are too low with 4, 3,
      2 and 1 attempts left; 6 uses the last attempt and loses, revealing 5.
      A repeated or out-of-range guess on the way costs nothing. */
  lemma HardGame()
    ensures var s0 := Start(Loaded(), Hard, 5);
      var t1 := Step(s0, Some(1));
      var d := Step(t1.after, Some(1));
      var n := Step(d.after, None);
      var t2 := Step(n.after, Some(2));
      var t3 := Step(t2.after, Some(3));
      var t4 := Step(t3.after, Some(4));
      var t5 := Step(t4.after, Some(6));
      && t1.outcome == TooLow(4)
      && d == Turn(t1.after, Duplicate)
      && n == Turn(t1.after, OutOfRange)
      && t2.outcome == TooLow(3)
      && t3.outcome == TooLow(2)
      && t4.outcome == TooLow(1)
      && t5.outcome == Lose(5)
      && t5.after.remaining == 0 && t5.after.finished
      && t5.after.best == Loaded().best
  {
  }

  /** The beginner game on a session object: the draw 0.52 picks secret 27,
      and the method contracts alone determine every outcome. */
  method BeginnerSession()
  {
    var session := new Session();
    session.StartGame(Beginner, 0.52);
    assert session.secretNumber == 27;
    var o := session.MakeGuess(Some(10));
    assert o == TooLow(9);
    o := session.MakeGuess(Some(0));
    assert o == OutOfRange;
    o := session.MakeGuess(Some(40));
    assert o == TooHigh(8);
    o := session.MakeGuess(Some(27));
    assert o == Win(3) && session.finished;
    assert session.bestScores[Beginner] == Some(3);
    session.ResetGame(0.0);
    assert session.secretNumber == 1 && session.guessHistory == [];
    assert session.bestScores[Beginner] == Some(3);
  }
}
