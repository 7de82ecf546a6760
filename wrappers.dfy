/** The optional value that the modelled code uses for "no value": `util::optional`
    in the value type, a missing field or a failed parse elsewhere. */
module Wrappers {

  datatype Option<+T> = None | Some(value: T)
}
