/** Failure-compatible results and the exceptions the core throws. */
module Wrappers {

  datatype Option<+T> = None | Some(value: T)

  /** The outcome of an operation that either completes or throws. */
  datatype Outcome<+E> = Pass | Fail(error: E)

  datatype Result<+T, +E> = Ok(value: T) | Err(error: E)

  /** One constructor per `std::exception` the core throws, named after its message. */
  datatype Error =
    | ImageTypeError                 // "Image type error"
    | AlreadyBoundAsRenderTarget     // "Image already bind as render target"
    | AlreadyBoundAsShaderResource   // "Image already bind as shader resource"
    | DataSizeMismatch               // "Data size does not match"
    | NullData                       // "pData is nullptr"
    | DepthBufferTypeError           // "Depth buffer type error"
    | MissingBuffer                  // "vertex buffer or index buffer is nullptr"
}
