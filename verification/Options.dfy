/** The optional values that stand for the null pointers and empty iterators of the engine. */
module Options {

  datatype Option<+T> = None | Some(value: T)
}
