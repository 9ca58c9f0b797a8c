/** Values that may be absent, and operations that may raise. */
module Results {

  datatype Option<+T> = None | Some(value: T)

  /** The exceptions the modelled code raises, one constructor per Python class. */
  datatype Error =
    | ValueError
    | InfeasibleConfiguration
    | UnknownArchitecture
    | ModelMetadata
    | ZeroDivision
    | ReconcileFailure

  datatype Result<+T> = Ok(value: T) | Err(error: Error)
}
