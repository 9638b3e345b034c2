/** A value that may be absent: the source's nil references and comma-ok results. */
module Options {
  datatype Option<+T> = None | Some(value: T)
}
