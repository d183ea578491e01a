/** The three exception classes of the tool, folded into one closed error type,
    and the result of an operation that either returns a value or raises one of them.
    Each error keeps the message prefix the tool writes; the text of the
    underlying library exception that the tool appends after ": " is not modelled. */
module Exceptions {

  datatype GitError =
    | RepositoryError(message: string)   // the path is not inside a git repository
    | OperationError(message: string)    // a git operation failed
    | NoBranchesFound(message: string)   // a listing collected no branch at all

  datatype Result<+T> = Ok(value: T) | Err(error: GitError)

}
