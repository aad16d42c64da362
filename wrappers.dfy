/** The usual optional value: `None` stands for an absent attribute or a parse that gave NaN. */
module Wrappers {
  datatype Option<+T> = None | Some(value: T)
}
