/** A value that may be absent: a JavaScript `undefined` or `null` where the JavaScript code allows one. */
module Options {
  datatype Option<+T> = None | Some(value: T)
}
