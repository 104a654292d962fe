/** The error type of the client (`src/error.rs`). */
module Errors {
  import Http

  datatype Error =
    | PixivError(message: string)    // the reply was 200 but its envelope flagged an error
    | HttpError(cause: Http.HttpFailure)
    | Other(text: string)
}
