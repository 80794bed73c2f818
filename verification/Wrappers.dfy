/** Optional values, and the outcome of a call that may fail with a gRPC status. */
module Wrappers {

  datatype Option<+T> = None | Some(value: T)

  datatype Result<+T, +E> = Ok(value: T) | Err(error: E)

  /** The gRPC status codes the proxy itself produces. */
  datatype Status = InvalidArgument | DataLoss | FailedPrecondition | Unavailable
}
