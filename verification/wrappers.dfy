/** The nullable values of the editor (a path that may be `null`, an optional
    dialog path) are modelled with this Option type. */
module Wrappers {

  datatype Option<+T> = None | Some(value: T)
}
