/**
 * `FavoritesController` (backend/src/controllers/favorites.controller.ts):
 * the user and `productId` checks before each favorites service call, and
 * the status each handler answers with.
 */
module FavoritesController {
  import opened Js
  import opened Http
  import opened Handlers

  const InvalidProductId := "productId inválido"

  datatype Call =
    | GetFavorites(userId: Value)
    | AddFavorite(userId: Value, productId: Number)
    | RemoveFavorite(userId: Value, productId: Number)

  datatype Step = Respond(response: Response) | Invoke(call: Call, status: int)

  function Handle(step: Step, outcome: Outcome): Response {
    match step
    case Respond(r) => r
    case Invoke(_, status) => Finish(status, outcome)
  }

  /** `GET /favorites` */
  function PlanGetFavorites(user: Value): Step {
    match GetUserId(user)
    case Failed(t) => Respond(Catch(t))
    case UserId(u) => Invoke(GetFavorites(u), 200)
  }

  /** `POST /favorites/:productId` */
  function PlanAddFavorite(user: Value, productIdText: string, parse: string -> Number, fraction: real -> string): Step {
    match GetUserId(user)
    case Failed(t) => Respond(Catch(t))
    case UserId(u) =>
      var productId := ToNumber(Str(productIdText), parse, fraction);
      if !NumTruthy(productId) then Respond(MessageReply(400, InvalidProductId))
      else Invoke(AddFavorite(u, productId), 201)
  }

  /** `DELETE /favorites/:productId` */
  function PlanRemoveFavorite(user: Value, productIdText: string, parse: string -> Number, fraction: real -> string): Step {
    match GetUserId(user)
    case Failed(t) => Respond(Catch(t))
    case UserId(u) =>
      var productId := ToNumber(Str(productIdText), parse, fraction);
      if !NumTruthy(productId) then Respond(MessageReply(400, InvalidProductId))
      else Invoke(RemoveFavorite(u, productId), 200)
  }

  /** Without a user every handler answers 401 "Usuario no autenticado" and calls nothing. */
  lemma UnauthenticatedIs401(user: Value, productIdText: string, parse: string -> Number, fraction: real -> string)
    requires !Truthy(user)
    ensures PlanGetFavorites(user) == Respond(MessageReply(401, NotAuthenticated))
    ensures PlanAddFavorite(user, productIdText, parse, fraction) == Respond(MessageReply(401, NotAuthenticated))
    ensures PlanRemoveFavorite(user, productIdText, parse, fraction) == Respond(MessageReply(401, NotAuthenticated))
  {
  }

  /**
   * With a user, add and remove answer 400 exactly when the product id
   * converts to 0 or NaN; otherwise they call the service with the user's
   * id (`userId`, else `id`) and answer 201 and 200 on success.
   */
  lemma ProductIdDecides(user: Value, productIdText: string, parse: string -> Number, fraction: real -> string, v: Value)
    requires Truthy(user)
    ensures !NumTruthy(parse(productIdText)) <==>
      PlanAddFavorite(user, productIdText, parse, fraction) == Respond(MessageReply(400, InvalidProductId))
    ensures !NumTruthy(parse(productIdText)) <==>
      PlanRemoveFavorite(user, productIdText, parse, fraction) == Respond(MessageReply(400, InvalidProductId))
    ensures NumTruthy(parse(productIdText)) ==>
      PlanAddFavorite(user, productIdText, parse, fraction)
        == Invoke(AddFavorite(Coalesce(Get(user, "userId"), Get(user, "id")), parse(productIdText)), 201)
      && Handle(PlanAddFavorite(user, productIdText, parse, fraction), Returned(v)) == Response(201, v)
      && Handle(PlanRemoveFavorite(user, productIdText, parse, fraction), Returned(v)) == Response(200, v)
  {
  }

  /** A service call that throws is answered 500: with the Error's message, or "Internal server error". */
  lemma ServiceErrorIs500(step: Step, m: string)
    requires step.Invoke? && m != NotAuthenticated
    ensures Handle(step, Threw(Error(m))) == MessageReply(500, m)
    ensures Handle(step, Threw(NonError)) == MessageReply(500, "Internal server error")
  {
  }
}
