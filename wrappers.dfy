/** The optional value used wherever the dashboard reads a key that may be absent
    (`record[key]` giving `undefined`) or a parse that may fail. */
module Wrappers {

  datatype Option<+T> = None | Some(value: T)
}
