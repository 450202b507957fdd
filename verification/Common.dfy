/** Notions shared by all parts of the model. */
module Common {

  const U64_MAX := 0xFFFF_FFFF_FFFF_FFFF

  datatype Option<+T> = None | Some(value: T)
}
