/**
 * `CartController` (backend/src/controllers/cart.controller.ts): what each
 * handler does with `req.user`, the `productId` route parameter and the body
 * before it calls the cart service, and the status it answers with.
 * A handler either answers at once or calls the service; the service's
 * outcome then goes through `Handlers.Finish`.
 */
module CartController {
  import opened Js
  import opened Http
  import opened Handlers

  const InvalidProductId := "productId inválido"
  const InvalidQuantity := "quantity debe ser un número >= 0"

  /** The service call a handler makes, with the values it passes. */
  datatype Call =
    | GetCart(userId: Value)
    | AddToCart(userId: Value, productId: Number, quantity: Number)
    | UpdateQuantity(userId: Value, productId: Number, quantity: Number)
    | RemoveFromCart(userId: Value, productId: Number)

  /** A handler answers at once, or calls the service and answers `status` on success. */
  datatype Step = Respond(response: Response) | Invoke(call: Call, status: int)

  /** The response once the step has run, given how the service call ended. */
  function Handle(step: Step, outcome: Outcome): Response {
    match step
    case Respond(r) => r
    case Invoke(_, status) => Finish(status, outcome)
  }

  /** `Math.max(1, Number(q) || 1)`: 0, NaN and anything below 1 become 1. */
  function AddQuantity(q: Number): (r: Number)
    ensures r.Fin? && r.r >= 1.0
    ensures q.Fin? && q.r >= 1.0 ==> r == q
    ensures !(q.Fin? && q.r >= 1.0) ==> r == Fin(1.0)
  {
    var x := if NumTruthy(q) then q.r else 1.0;
    Fin(if x > 1.0 then x else 1.0)
  }

  /** `GET /cart` */
  function PlanGetCart(user: Value): Step {
    match GetUserId(user)
    case Failed(t) => Respond(Catch(t))
    case UserId(u) => Invoke(GetCart(u), 200)
  }

  /** `POST /cart/:productId` */
  function PlanAddToCart(user: Value, productIdText: string, body: Value,
                         parse: string -> Number, fraction: real -> string): Step {
    match GetUserId(user)
    case Failed(t) => Respond(Catch(t))
    case UserId(u) =>
      var productId := ToNumber(Str(productIdText), parse, fraction);
      var quantity := AddQuantity(ToNumber(Get(body, "quantity"), parse, fraction));
      if !NumTruthy(productId) then Respond(MessageReply(400, InvalidProductId))
      else Invoke(AddToCart(u, productId, quantity), 201)
  }

  /** `PATCH /cart/:productId`; `typeof quantity !== "number"` never holds after `Number`. */
  function PlanUpdateQuantity(user: Value, productIdText: string, body: Value,
                              parse: string -> Number, fraction: real -> string): Step {
    match GetUserId(user)
    case Failed(t) => Respond(Catch(t))
    case UserId(u) =>
      var productId := ToNumber(Str(productIdText), parse, fraction);
      var quantity := ToNumber(Get(body, "quantity"), parse, fraction);
      if !NumTruthy(productId) then Respond(MessageReply(400, InvalidProductId))
      else if quantity.Fin? && quantity.r < 0.0 then Respond(MessageReply(400, InvalidQuantity))
      else Invoke(UpdateQuantity(u, productId, quantity), 200)
  }

  /** `DELETE /cart/:productId` */
  function PlanRemoveFromCart(user: Value, productIdText: string, parse: string -> Number, fraction: real -> string): Step {
    match GetUserId(user)
    case Failed(t) => Respond(Catch(t))
    case UserId(u) =>
      var productId := ToNumber(Str(productIdText), parse, fraction);
      if !NumTruthy(productId) then Respond(MessageReply(400, InvalidProductId))
      else Invoke(RemoveFromCart(u, productId), 200)
  }

  /** Without a user every handler answers 401 "Usuario no autenticado" and calls nothing. */
  lemma UnauthenticatedIs401(user: Value, productIdText: string, body: Value, parse: string -> Number, fraction: real -> string)
    requires !Truthy(user)
    ensures PlanGetCart(user) == Respond(MessageReply(401, NotAuthenticated))
    ensures PlanAddToCart(user, productIdText, body, parse, fraction) == Respond(MessageReply(401, NotAuthenticated))
    ensures PlanUpdateQuantity(user, productIdText, body, parse, fraction) == Respond(MessageReply(401, NotAuthenticated))
    ensures PlanRemoveFromCart(user, productIdText, parse, fraction) == Respond(MessageReply(401, NotAuthenticated))
  {
  }

  /** A product id that converts to 0 or NaN is answered 400 before any service call. */
  lemma InvalidProductIdIs400(user: Value, productIdText: string, body: Value, parse: string -> Number, fraction: real -> string)
    requires Truthy(user) && !NumTruthy(parse(productIdText))
    ensures PlanAddToCart(user, productIdText, body, parse, fraction) == Respond(MessageReply(400, InvalidProductId))
    ensures PlanUpdateQuantity(user, productIdText, body, parse, fraction) == Respond(MessageReply(400, InvalidProductId))
    ensures PlanRemoveFromCart(user, productIdText, parse, fraction) == Respond(MessageReply(400, InvalidProductId))
  {
  }

  /**
   * With a user and a valid product id, add calls the service with the
   * user's id and a quantity of at least 1, answering 201 on success: a
   * missing quantity is 1, and so are 0, NaN and negative amounts.
   */
  lemma AddCallsService(user: Value, productIdText: string, body: Value, parse: string -> Number, fraction: real -> string)
    requires Truthy(user) && NumTruthy(parse(productIdText))
    ensures var step := PlanAddToCart(user, productIdText, body, parse, fraction);
      step.Invoke? && step.status == 201 && step.call.AddToCart?
      && step.call.userId == Coalesce(Get(user, "userId"), Get(user, "id"))
      && step.call.productId == parse(productIdText)
      && step.call.quantity.Fin? && step.call.quantity.r >= 1.0
    ensures Get(body, "quantity") == Undefined ==>
      PlanAddToCart(user, productIdText, body, parse, fraction).call.quantity == Fin(1.0)
  {
  }

  /**
   * With a user and a valid product id, update answers 400 exactly when the
   * quantity is a number below 0; 0 and NaN reach the service, which answers 200.
   */
  lemma UpdateRejectsOnlyNegative(user: Value, productIdText: string, body: Value, parse: string -> Number, fraction: real -> string)
    requires Truthy(user) && NumTruthy(parse(productIdText))
    ensures var q := ToNumber(Get(body, "quantity"), parse, fraction);
      var step := PlanUpdateQuantity(user, productIdText, body, parse, fraction);
      (step == Respond(MessageReply(400, InvalidQuantity)) <==> q.Fin? && q.r < 0.0)
      && (!(q.Fin? && q.r < 0.0) ==> step.Invoke? && step.status == 200 && step.call.quantity == q)
  {
  }

  /** The statuses on success: 200 for get, 201 for add, 200 for update and remove. */
  lemma SuccessStatuses(user: Value, productIdText: string, body: Value, parse: string -> Number, fraction: real -> string, v: Value)
    requires Truthy(user) && NumTruthy(parse(productIdText))
    ensures Handle(PlanGetCart(user), Returned(v)) == Response(200, v)
    ensures Handle(PlanAddToCart(user, productIdText, body, parse, fraction), Returned(v)) == Response(201, v)
    ensures Handle(PlanRemoveFromCart(user, productIdText, parse, fraction), Returned(v)) == Response(200, v)
    ensures !(ToNumber(Get(body, "quantity"), parse, fraction).Fin? && ToNumber(Get(body, "quantity"), parse, fraction).r < 0.0) ==>
      Handle(PlanUpdateQuantity(user, productIdText, body, parse, fraction), Returned(v)) == Response(200, v)
  {
  }

  /** A service call that throws is answered 500: with the Error's message, or "Internal server error". */
  lemma ServiceErrorIs500(step: Step, m: string)
    requires step.Invoke? && m != NotAuthenticated
    ensures Handle(step, Threw(Error(m))) == MessageReply(500, m)
    ensures Handle(step, Threw(NonError)) == MessageReply(500, "Internal server error")
  {
  }
}
