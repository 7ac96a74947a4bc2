// Result types shared by every component of the model.
module Wrappers {

  datatype Option<+T> = None | Some(value: T)

  // The error values of the stores (server/internal/httpx and the packages beside them).
  datatype Error = InvalidInput | NotFound | Conflict | Unauthorized
                 | TokenNotFound | TokenConsumed | TokenExpired | TokenRevoked | DeviceConflict

  datatype Outcome<+T> = Ok(value: T) | Err(error: Error)
}
