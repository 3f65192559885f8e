/** The Some/None datatype used wherever the original program either produces a
    value or gives up (a failed parse, an element that is not found). */
module Wrappers {

  datatype Option<+T> = None | Some(value: T)
}
