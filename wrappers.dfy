/** The optional value used wherever the source has `T | undefined`, `T | null`
    or a Go zero value that stands for "absent". */
module Wrappers {

  datatype Option<+T> = None | Some(value: T)
}
