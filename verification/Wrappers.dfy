/** Results that may be absent, as the source's boolean-returning calls with out-parameters. */
module Wrappers {
  datatype Option<+T> = None | Some(value: T)
}
