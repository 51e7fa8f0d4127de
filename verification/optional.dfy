/** An optional value: Ruby's `nil` and Python's `None` against a present value. */
module Optional {

  datatype Option<+T> = None | Some(value: T)
}
