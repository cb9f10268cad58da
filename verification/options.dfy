/** Python's "value or None", for lookups and conversions that may find nothing. */
module Options {

  datatype Option<+T> = None | Some(value: T)
}
