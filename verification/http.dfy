/**
 * What an Express handler produces: a status and a JSON body, and the
 * errors a handler's `try` block can throw.
 */
module Http {
  import opened Js

  /** `res.status(status).json(body)` */
  datatype Response = Response(status: int, body: Value)

  /** A thrown value: an `Error` with its message, or anything else. */
  datatype Thrown = Error(message: string) | NonError

  /** How an awaited call ends: it returns a value or throws. */
  datatype Outcome = Returned(value: Value) | Threw(thrown: Thrown)

  /** `{ message }` */
  function MessageBody(message: string): Value {
    Obj(map["message" := Str(message)])
  }

  function MessageReply(status: int, message: string): Response {
    Response(status, MessageBody(message))
  }

  /** How a middleware ends: it answers and stops the chain, or calls `next()` with what it hands on. */
  datatype Gate<+T> = Reject(response: Response) | Next(passed: T)
}
