/** The exceptions the client raises, each with the arguments it is raised with. */
module Errors {

  datatype Error =
    /** `ValueError(message)`: a bad argument or a value that does not parse. */
    | ValueError(message: string)
    /** `KeyError(key)`: a field that a reply does not carry. */
    | KeyError(key: string)
    /** `TypeError(message)`: an operation applied to a value of the wrong type. */
    | TypeError(message: string)
    /** `RequestFailure(status_code, content)`: a reply whose HTTP status is not accepted. */
    | RequestFailure(status: int, content: string)
}
