/** The optional value the solvers return: a path, or `None` when no path was found. */
module Wrappers {

  datatype Option<+T> = None | Some(value: T)

}
