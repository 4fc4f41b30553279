/** A value that may be absent: the source's null, undefined, or the absence of a result after a thrown error. */
module Options {
  datatype Option<+T> = None | Some(value: T)

  function Or<T>(choice: Option<T>, otherwise: T): T {
    if choice.Some? then choice.value else otherwise
  }
}
