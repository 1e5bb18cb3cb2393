/** The Some/None datatype that stands for the sentinels (-1, NULL) of the C++ code. */
module Options {
  datatype Option<+T> = None | Some(value: T)
}
