/** The optional value used wherever the chat platform may leave a field empty. */
module Options {

  /** A value that may be absent, like a C# reference that may be null. */
  datatype Option<+T> = None | Some(value: T)
}
