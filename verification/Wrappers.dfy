/** The option and result types, and the tenant ids, that the modules share. */
module Wrappers {

  type TenantId = nat

  datatype Option<+T> = None | Some(value: T)

  datatype Result<+T, +E> = Success(value: T) | Failure(error: E)
}
