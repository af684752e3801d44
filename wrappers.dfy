/** The optional value used for the source's `OptValue` / `llvm::None` results. */
module Wrappers {

  datatype Option<+T> = None | Some(value: T)
}
