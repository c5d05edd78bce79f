/** The optional value used for the player's parsed input and for a level's best score. */
module Wrappers {

  datatype Option<+T> = None | Some(value: T)
}
