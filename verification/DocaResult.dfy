/** The part of `doca_error_t` that the modelled calls return. */
module DocaResult {

  datatype Error =
    | InvalidValue
    | NoMemory
    | NotPermitted
    | BadState
    | InUse
    | InProgress
    | TooBig
    | Empty
    | Initialization

  datatype Result<+T> = Success(value: T) | Failure(error: Error)

  datatype Status = Done | Refused(error: Error)
}
