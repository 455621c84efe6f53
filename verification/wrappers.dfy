/** The Some/None datatype used for values that may be absent: a file that
    could not be read, a go directive that is missing, a version string that
    does not parse. */
module Wrappers {

  datatype Option<+T> = None | Some(value: T)
}
