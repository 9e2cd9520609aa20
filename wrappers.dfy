/** Failure-compatible helper datatypes shared by every module of the model. */
module Wrappers {

  /** A value that may be absent.  Used for Swift optionals and for the
      results of operations that stop the process on some inputs. */
  datatype Option<+T> = None | Some(value: T)

  /** How a throwing closure supplied by the caller ends: it either returns
      its value or throws. */
  datatype Completion<+R> = Returned(value: R) | Threw
}
