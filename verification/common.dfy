/** Small shared vocabulary of the NetNuke model. */
module Common {

  /** A value that may be missing. */
  datatype Option<+T> = None | Some(value: T)

  /** Which reading of netnuke.c a model function follows: the code as it is
      written, or the code with the defects listed under "Findings" in the
      README repaired. */
  datatype Build = AsWritten | Corrected
}
