/** What a request handler sends back. */
module Replies {
  import RedisStore

  datatype Reply =
    | Reply(status: int, message: string)       // a JSON body `{"message": ...}` with its HTTP status
    | ServerError(failure: RedisStore.Failure)  // an exception escaping the handler: HTTP 500
}
