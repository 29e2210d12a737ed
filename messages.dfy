/**
 * The flash messages the handlers queue (app.py:31, 46, 73, 82, 88, 103, 105,
 * 131, 133, 135), each with its category and its exact text.  A `reason` is
 * `str(e)` of the exception the filesystem raised.
 */
module Messages {

  datatype Category = Success | Error

  datatype Message =
    | SessionExpired
    | InvalidPassword
    | ListingFailed(reason: string)
    | NoFileSelected
    | Uploaded(name: string)
    | UploadFailed(reason: string)
    | Deleted(name: string)
    | NotFound(name: string)
    | DeleteFailed(reason: string)

  function CategoryOf(m: Message): Category
  {
    match m
    case Uploaded(_) => Success
    case Deleted(_) => Success
    case _ => Error
  }

  function Text(m: Message): string
  {
    match m
    case SessionExpired => "Your session has expired. Please login again."
    case InvalidPassword => "Invalid password"
    case ListingFailed(reason) => "Error listing files: " + reason
    case NoFileSelected => "No file selected"
    case Uploaded(name) => "File \"" + name + "\" uploaded successfully"
    case UploadFailed(reason) => "Error uploading file: " + reason
    case Deleted(name) => "File \"" + name + "\" deleted successfully"
    case NotFound(name) => "File \"" + name + "\" not found"
    case DeleteFailed(reason) => "Error deleting file: " + reason
  }

  /** `str(e)` of the IsADirectoryError CPython raises on Linux when `open` or `os.remove` meets a directory. */
  function IsADirectoryError(path: string): string
  {
    "[Errno 21] Is a directory: '" + path + "'"
  }
}
