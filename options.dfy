/** A value that may be absent: JavaScript's `undefined`, as read from a
    missing object key or a property a record does not carry yet. */
module Options {

  datatype Option<+T> = None | Some(value: T)
}
