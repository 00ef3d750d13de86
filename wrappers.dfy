/** The Option datatype used for values that may be absent: a null or
    undefined React state cell, a missing storage slot, a rejected promise. */
module Wrappers {

  datatype Option<+T> = None | Some(value: T)

}
