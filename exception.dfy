/**
 * The sentinel errors of entity/exception/exception.go and the wrapping
 * discipline of github.com/pkg/errors: a wrapped error keeps the cause of the
 * error it wraps and prefixes its message.
 */
module Exception {

  /** The sentinel an error is caused by; `Foreign` is any error that is not
      one of the sentinels (a database driver error, a parser error, an error
      built with fmt.Errorf). */
  datatype Cause =
    | DataCorrupted
    | Database
    | InvalidInput
    | VersionInvalid
    | Unauthorized
    | NotFound
    | InvalidResourceState
    | FullShelf
    | ServiceUnavailable
    | Unhandled
    | Foreign

  /** An error value: what errors.Cause returns, and what Error() prints. */
  datatype Error = Error(cause: Cause, message: string)

  /** The text of each sentinel. */
  function Text(c: Cause): string
  {
    match c
    case DataCorrupted => "Data Corrupted Exception"
    case Database => "Database Exception"
    case InvalidInput => "Invalid Input Exception"
    case VersionInvalid => "Invalid Version Exception"
    case Unauthorized => "Unauthorized Exception"
    case NotFound => "Not Found Exception"
    case InvalidResourceState => "Invalid Resource State"
    case FullShelf => "Shelf Space Is Full"
    case ServiceUnavailable => "Service Unavailable Exception"
    case Unhandled => "Unhandled Exception"
    case Foreign => "error"
  }

  /** The sentinel itself, returned unwrapped. */
  function Sentinel(c: Cause): Error
  {
    Error(c, Text(c))
  }

  /** errors.Wrap / errors.Wrapf: same cause, message "msg: inner". */
  function Wrap(e: Error, msg: string): Error
  {
    Error(e.cause, msg + ": " + e.message)
  }
}
