/** Small result types shared by the script models. */
module Wrappers {
  datatype Option<T> = None | Some(value: T)

  /** How a script run over a list of input files ended: every file was read, or
      opening the named one raised and the run stopped there. */
  datatype RunStatus = Completed | MissingInput(path: string)
}
