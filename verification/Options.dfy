/** An optional value, as `tl::optional`. */
module Options {
  datatype Option<+T> = None | Some(value: T)
}
