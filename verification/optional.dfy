/** The optional value used for nullable handles and for parsers that may reject their input. */
module Optional {

  /** `None` stands for JavaScript's `null`; `Some(v)` for a present value. */
  datatype Option<+T> = None | Some(value: T)
}
