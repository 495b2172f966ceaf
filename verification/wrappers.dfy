/** The optional value used wherever the resolver may have nothing to report
    (JavaScript's `null` result, or a path through the catalog that is absent). */
module Wrappers {

  datatype Option<+T> = None | Some(value: T)
}
