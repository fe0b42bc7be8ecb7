/** The client's error type (src/opensrs/error.rs). The library errors it wraps
    (from the HTTP client and the XML writer) are carried as their messages. */
module Errors {
  datatype OpenSrsError =
    | HttpError(detail: string)
    | XmlSerialize(detail: string)
    | XmlDeserialize(message: string)
    | ApiError(code: string, message: string)
    | AuthError(message: string)
    | ConfigError(message: string)
    | DateFormatError(message: string)
}
