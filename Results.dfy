/** Outcome types shared by the model: an optional value, and the reply of a controller action. */
module Results {

  datatype Option<+T> = None | Some(value: T)

  /** The reply of a controller action. `Ok` carries the response body; `NotFound`, `Forbid` and
      `BadRequest` are the error statuses the controller returns on purpose; `Failed` stands for an
      exception that escapes the action (the framework answers it with a server error). */
  datatype Reply<+T> = Ok(value: T) | NotFound | Forbid | BadRequest(message: string) | Failed
}
