/** The error enum every backend operation returns (backend/vdb/error.rs). */
module VdbError {

  datatype Error =
    | UniqueViolation
    | NotFound
    | DimensionMismatch
    | Unauthorized
    | MemoryError
    | InvalidInput
    | FileTypeNotSupported
    | DBError

  /** The `Display` text of each error, which `From<Error> for String` uses. */
  function Message(e: Error): string
  {
    match e
    case UniqueViolation => "Collection already exists"
    case NotFound => "Collection not found"
    case DimensionMismatch => "The dimension of the vector doesn't match the dimension of the collection"
    case Unauthorized => "User not authorized"
    case MemoryError => "Memory error"
    case InvalidInput => "invalid input"
    case FileTypeNotSupported => "file type not supported"
    case DBError => "vector db error"
  }

  /** The variant's label in the Candid reply, which the web client sees as
      the key of a one-field object. */
  function VariantName(e: Error): string
  {
    match e
    case UniqueViolation => "UniqueViolation"
    case NotFound => "NotFound"
    case DimensionMismatch => "DimensionMismatch"
    case Unauthorized => "Unauthorized"
    case MemoryError => "MemoryError"
    case InvalidInput => "InvalidInput"
    case FileTypeNotSupported => "FileTypeNotSupported"
    case DBError => "DBError"
  }
}
