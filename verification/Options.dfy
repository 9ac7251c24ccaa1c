/** The one optional value every other module uses, for an answer that may be missing. */
module Options {

  datatype Option<+T> = None | Some(value: T)
}
