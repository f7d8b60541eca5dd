/** An optional value: Go's nil pointer or zero time, TypeScript's null, an empty shell variable. */
module Options {

  datatype Option<+T> = None | Some(value: T)
}
