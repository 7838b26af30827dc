/** The nullable results the host services hand back. */
module Wrappers {

  /** `None` stands for a null reference (an `FSoftObjectPath` that `IsNull()`,
      or the `NAME_None` collection name). */
  datatype Option<+T> = None | Some(value: T)
}
