/** The optional value used throughout: a JSON field that may be absent, a lookup that may miss. */
module Options {

  datatype Option<+T> = None | Some(value: T)
}
