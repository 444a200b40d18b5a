/** A value that may be absent: a JavaScript property that is `undefined`
    or `null`. */
module Optional {

  datatype Option<+T> = None | Some(value: T)

}
