/** Small failure-compatible wrapper used across the model: a missing value
    (a null pointer, an invalid index, a failed lookup) is `None`. */
module Wrappers {

  datatype Option<+T> = None | Some(value: T)
}
