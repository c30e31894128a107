/** Shared result types: the optional values and thrown errors of the API layer. */
module Support {

  datatype Option<+T> = None | Some(value: T)

  /** The errors the API functions throw. */
  datatype ApiError =
    | NotAuthenticated            // 'Not authenticated': no session user
    | StorageError(message: string) // an error object returned by the store
    | NoChallengeReturned         // the insert reported no row
    | InvalidDate                 // an unparseable start date reached toISOString

  datatype Result<+T> = Ok(value: T) | Err(error: ApiError)

  /** The user id of the current session, if any. */
  type UserId = nat
  type Session = Option<UserId>
}
