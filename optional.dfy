/** Swift's `Optional`: a value or `nil`. */
module Optional {
  datatype Option<+T> = None | Some(value: T)
}
