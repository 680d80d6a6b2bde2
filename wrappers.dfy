/** The optional value used wherever the exporter's Python code returns `None`. */
module Wrappers {

  datatype Option<+T> = None | Some(value: T)
}
