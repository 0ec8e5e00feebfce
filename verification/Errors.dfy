/** Error codes of the Upload Function and the HTTP status each one is raised with. */
module Errors {
  datatype ErrorCode =
    | AuctionHouseMismatch
    | AuctionHouseRequired
    | ContentTypeMismatch
    | FileTooLarge
    | InternalError
    | InvalidRequest
    | ProductMismatch
    | ProductRequired
    | R2Unavailable
    | SessionStoreUnavailable
    | SizeMismatch
    | SourceUnavailable
    | StorageUnavailable
    | TombstoneWriteFailed
    | TooManySessions
    | UnsupportedContentType
    | UploadNotReceived
    | UploadSessionNotFound

  function Status(code: ErrorCode): nat {
    match code
    case AuctionHouseMismatch | AuctionHouseRequired | ProductMismatch | ProductRequired => 403
    case ContentTypeMismatch | FileTooLarge | InvalidRequest | SizeMismatch | UnsupportedContentType => 400
    case UploadSessionNotFound => 404
    case UploadNotReceived => 409
    case InternalError => 500
    case SourceUnavailable => 502
    case R2Unavailable | SessionStoreUnavailable | StorageUnavailable | TombstoneWriteFailed | TooManySessions => 503
  }
}
