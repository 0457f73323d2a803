/** The exceptions the server code throws, as values: an operation that can throw
    returns `Result<T, Exception>` (or `Option<Exception>` when it returns nothing). */
module Exceptions {

  datatype Exception =
    | ArgumentException(message: string, paramName: string)
    | InvalidOperationException(message: string)
    | DomainException(message: string)
    | UnauthorizedAccessException(message: string)
      /** A database constraint rejected the staged changes at `SaveChangesAsync`. */
    | DbUpdateException
      /** The object store reported a failure. */
    | BlobStoreException
}
