/** Optional values and the reply of an HTTP handler, shared by every module. */
module Outcomes {

  datatype Option<T> = None | Some(value: T)

  /** What a handler sends back: a value with a success status, or an error status and message. */
  datatype Reply<T> = Ok(status: int, value: T) | Err(status: int, message: string)

  /** The HTTP method of a request to a serverless endpoint; `OPTIONS` is answered before
      any endpoint runs. */
  datatype Verb = HttpGet | HttpPost | HttpPut | HttpPatch | HttpDelete

  const MethodNotAllowedMessage := "Method not allowed"
}
