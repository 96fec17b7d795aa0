/** The optional value used wherever the program either produces a value or
    gives up (a failed parse, a command that does nothing). */
module Options {
  datatype Option<+T> = None | Some(value: T)
}
