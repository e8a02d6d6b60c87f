/** A value that may be absent. */
module Options {

  datatype Option<+T> = None | Some(value: T)
}

/** Which way a measure is better. */
module Directions {

  datatype Direction = Minimize | Maximize
}
