/** Values shared by every layer: optional values and the request errors. */
module Base {

  datatype Option<T> = None | Some(value: T)

  /** Why a request was refused with a field-level validation error (HTTP 400). */
  datatype Reason =
    | Blank(field: string)          // required value missing or empty
    | TooLong(field: string)        // longer than the field's max_length
    | Invalid(field: string)        // fails the field's format, pattern, range or choices
    | NotUnique(field: string)      // another row already holds this value
    | ReservedUsername              // signup with the name "me"
    | UsernameTaken                 // signup: username exists, email does not
    | EmailTaken                    // signup: email exists, username does not
    | InvalidCode                   // confirmation code rejected
    | FutureYear                    // title year after the current year
    | DuplicateReview               // second review of one title by one author

  /** The ways a request can end other than with success. */
  datatype Error =
    | ValidationError(reason: Reason) // 400
    | NotAuthenticated                // 401
    | PermissionDenied                // 403
    | NotFound                        // 404
    | IntegrityError                  // a database constraint raised and nothing caught it

  datatype Result<T> = Ok(value: T) | Err(error: Error)

  /** A check that either passes or raises. */
  datatype Outcome = Pass | Fail(error: Error)
}
