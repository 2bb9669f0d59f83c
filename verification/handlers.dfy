/**
 * The pieces the cart and favorites controllers share: reading the
 * authenticated user's id, and the `catch` block that turns a thrown value
 * into a response.
 */
module Handlers {
  import opened Js
  import opened Http

  const NotAuthenticated := "Usuario no autenticado"

  /** `getUserId(req)`: `userId`, falling back to `id`, of a truthy `req.user`; throws otherwise. */
  function GetUserId(user: Value): (r: Result)
    ensures !Truthy(user) <==> r.Failed?
    ensures r.Failed? ==> r.thrown == Error(NotAuthenticated)
    ensures r.UserId? && !Nullish(Get(user, "userId")) ==> r.id == Get(user, "userId")
    ensures r.UserId? && Nullish(Get(user, "userId")) ==> r.id == Get(user, "id")
  {
    if !Truthy(user) then Failed(Error(NotAuthenticated))
    else UserId(Coalesce(Get(user, "userId"), Get(user, "id")))
  }

  datatype Result = UserId(id: Value) | Failed(thrown: Thrown)

  /**
   * The `catch` block: an Error saying the user is not authenticated gives
   * 401, any other Error 500 with its message, anything else 500
   * "Internal server error".
   */
  function Catch(thrown: Thrown): (r: Response)
    ensures r.status == 401 <==> thrown == Error(NotAuthenticated)
    ensures r.status == 401 || r.status == 500
    ensures thrown.Error? ==> r == MessageReply(r.status, thrown.message)
    ensures thrown.NonError? ==> r == MessageReply(500, "Internal server error")
  {
    match thrown
    case Error(m) => if m == NotAuthenticated then MessageReply(401, m) else MessageReply(500, m)
    case NonError => MessageReply(500, "Internal server error")
  }

  /** A service call's outcome as a response: its value under `status`, or what `catch` makes of it. */
  function Finish(status: int, outcome: Outcome): (r: Response)
    ensures outcome.Returned? ==> r == Response(status, outcome.value)
    ensures outcome.Threw? ==> r == Catch(outcome.thrown)
  {
    match outcome
    case Returned(v) => Response(status, v)
    case Threw(t) => Catch(t)
  }
}
