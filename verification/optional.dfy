/** A value that may be absent: the result of a lookup that can miss, a
    parse that can fail, or a flag evaluation that can go wrong. */
module Optional {

  datatype Option<T> = None | Some(value: T)
}
