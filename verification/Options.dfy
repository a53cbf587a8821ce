/** The optional value used throughout, where the service uses a nil pointer or a null. */
module Options {

  datatype Option<+T> = None | Some(value: T)
}
