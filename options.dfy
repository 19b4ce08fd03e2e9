/** An optional value: a JavaScript property that may be absent (undefined or null). */
module Options {

  datatype Option<+T> = None | Some(value: T)
}
