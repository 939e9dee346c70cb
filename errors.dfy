/** Error kinds raised by the controllers, and the result wrappers used by every operation.
    The HttpError subclasses of the source each become one constructor; a JavaScript exception
    that is not one of them (a TypeError, a rejected storage promise nobody catches) becomes
    UncaughtError, which the error-handling middleware answers with a generic failure. */
module Errors {

  datatype Error =
    | BadRequestError       // 400: invalid or missing input, duplicate email
    | NotFoundError         // 404: the referenced place or user does not exist
    | UnauthenticatedError  // 401: bad credentials, and also "not the owner of this place"
    | CustomError           // 500: a storage operation failed and the controller caught it
    | UncaughtError         // 500: an exception the controller does not catch

  datatype Result<T> = Ok(value: T) | Err(error: Error)

  datatype Option<T> = None | Some(value: T)
}
