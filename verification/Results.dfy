/** Results, the errors a DSM call can answer with, and the gRPC codes the RPCs return. */
module Results {

  datatype Result<+T, +E> = Ok(value: T) | Err(error: E)

  datatype Option<+T> = None | Some(value: T)

  datatype ApiError =
    | AlreadyExist
    | NoSuchLun
    | NoSuchNamespace
    | FailedToGetSubsystem
    | NoSuchShare
    | ApiFailure  // every other reply, and every call that got no reply

  datatype Code =
    | InvalidArgument
    | NotFound
    | AlreadyExists
    | OutOfRange
    | Internal
    | Unavailable
}
