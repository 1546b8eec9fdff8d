/** Results shared by the modules. */
module Wrappers {
  datatype Option<T> = None | Some(value: T)

  /** E_OK, E_EOF and E_ERR of base.c. */
  datatype Status = OK | EOF | ERR
}
