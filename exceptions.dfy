/** The exceptions the services raise, as values; `message` is the exception
    message, which Java allows to be null. */
module Exceptions {
  import opened Wrappers

  datatype Failure =
    | ResourceNotFound(message: Option<string>)
    | FhirValidation(message: Option<string>)
    /** Any other exception, such as a stored payload the codec cannot parse. */
    | Unexpected(message: Option<string>)
}
