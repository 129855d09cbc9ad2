/** The usual optional value, for the places where the source gets `undefined`,
    `null` or a caught exception instead of a value. */
module Options {

  datatype Option<+T> = None | Some(value: T)
}
