/** The optional value used throughout the model: a PHP value that may be
    absent (an unset array key, an unset field, a `false` returned in place of
    a string). */
module Wrappers {

  datatype Option<+T> = None | Some(value: T)
}
