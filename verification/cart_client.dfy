/**
 * The browser's cart client (frontend/src/lib/cart.ts): the headers every
 * request carries, the mapping of the server's cart rows to the page's cart
 * items, and the count of items in the cart. The `fetch` calls and the
 * `cartUpdated` event are not part of this model.
 */
module CartClient {
  import opened Wrappers
  import opened Js
  import Image
  import Cart
  import Products
  import AuthMiddleware

  const NotAuthenticated := "User is not authenticated"

  /** The request headers: `Authorization` and `Content-Type`. */
  datatype Headers = Headers(authorization: string, contentType: string)

  /** `getAuthHeaders()`, given what `getToken()` returned: it throws without a non-empty token. */
  function GetAuthHeaders(token: Option<string>): (r: Result<Headers, string>)
    ensures r.Err? <==> token.None? || token.value == ""
    ensures r.Err? ==> r.error == NotAuthenticated
    ensures r.Ok? ==> r.value.authorization == "Bearer " + token.value
    ensures r.Ok? ==> r.value.contentType == "application/json"
  {
    if token.None? || token.value == "" then Err(NotAuthenticated)
    else Ok(Headers("Bearer " + token.value, "application/json"))
  }

  /**
   * The server takes back exactly the token the client sent: the second
   * space-separated word of `Bearer <token>` is the token, for any token
   * without a space.
   */
  lemma HeaderCarriesToken(token: string)
    requires token != "" && ' ' !in token
    ensures GetAuthHeaders(Some(token)).Ok?
    ensures AuthMiddleware.TokenOf(GetAuthHeaders(Some(token)).value.authorization) == Some(token)
  {
    AuthMiddleware.SchemeUnchecked("Bearer", token, _ => None);
    assert "Bearer " == "Bearer" + " ";
  }

  /** The keys of a normalised cart item. */
  const ItemKeys: set<string> :=
    {"id", "cartItemId", "productId", "quantity", "name", "price", "currency", "image_url", "stock", "category"}

  /** The fields copied unchanged from the server's row. */
  const CopiedKeys: set<string> := {"quantity", "name", "price", "currency", "image_url", "stock", "category"}

  /**
   * `normalize(item)`: `id` is the product id as a string (the row id when
   * the product id is null or undefined), `cartItemId` the row id,
   * `productId` the product id; the other fields are copied, an absent one as undefined.
   */
  function Normalize(item: Value, fraction: real -> string): (r: Row)
    ensures r.Keys == ItemKeys
    ensures r["id"] == Str(ToString(Coalesce(Get(item, "product_id"), Get(item, "id")), fraction))
    ensures r["cartItemId"] == Get(item, "id") && r["productId"] == Get(item, "product_id")
    ensures forall k :: k in CopiedKeys ==> r[k] == Get(item, k)
  {
    map["id" := Str(ToString(Coalesce(Get(item, "product_id"), Get(item, "id")), fraction)),
        "cartItemId" := Get(item, "id"), "productId" := Get(item, "product_id"),
        "quantity" := Get(item, "quantity"), "name" := Get(item, "name"), "price" := Get(item, "price"),
        "currency" := Get(item, "currency"), "image_url" := Get(item, "image_url"),
        "stock" := Get(item, "stock"), "category" := Get(item, "category")]
  }

  /** `getCart()`: the server's rows, each normalised, in the same order. */
  function GetCart(data: seq<Value>, fraction: real -> string): (r: seq<Row>)
    ensures |r| == |data|
    ensures forall i :: 0 <= i < |data| ==> r[i] == Normalize(data[i], fraction)
  {
    seq(|data|, i requires 0 <= i < |data| => Normalize(data[i], fraction))
  }

  /** `sum + item.quantity` on two numbers: NaN absorbs. */
  function Plus(a: Number, b: Number): (r: Number)
    ensures r.NaN? <==> a.NaN? || b.NaN?
  {
    if a.Fin? && b.Fin? then Fin(a.r + b.r) else NaN
  }

  /** Every quantity is a number, as the `CartItem` type declares. */
  predicate NumericQuantities(items: seq<Row>) {
    forall i :: 0 <= i < |items| ==> Field(items[i], "quantity").Num?
  }

  function QuantityOf(item: Row): Number
    requires Field(item, "quantity").Num?
  {
    Field(item, "quantity").n
  }

  /**
   * `getCartCount()`: `reduce((sum, item) => sum + item.quantity, 0)`, a
   * left fold; NaN as soon as one quantity is NaN.
   */
  function CartCount(items: seq<Row>): (r: Number)
    requires NumericQuantities(items)
    ensures items == [] ==> r == Fin(0.0)
    ensures r.NaN? <==> exists i :: 0 <= i < |items| && QuantityOf(items[i]).NaN?
  {
    if items == [] then Fin(0.0)
    else
      var init := items[..|items| - 1];
      var r := Plus(CartCount(init), QuantityOf(items[|items| - 1]));
      assert forall i :: 0 <= i < |init| ==> init[i] == items[i];
      r
  }

  /** Every quantity is a number other than NaN. */
  predicate FiniteQuantities(items: seq<Row>) {
    forall i :: 0 <= i < |items| ==> Field(items[i], "quantity").Num? && Field(items[i], "quantity").n.Fin?
  }

  /** The total of the quantities, summed from the front. */
  function TotalQuantity(items: seq<Row>): real
    requires FiniteQuantities(items)
  {
    if items == [] then 0.0 else QuantityOf(items[0]).r + TotalQuantity(items[1..])
  }

  lemma {:induction false} TotalQuantityAppend(items: seq<Row>, x: Row)
    requires FiniteQuantities(items)
    requires Field(x, "quantity").Num? && Field(x, "quantity").n.Fin?
    ensures FiniteQuantities(items + [x])
    ensures TotalQuantity(items + [x]) == TotalQuantity(items) + QuantityOf(x).r
  {
    assert forall i :: 0 <= i < |items| ==> (items + [x])[i] == items[i];
    assert (items + [x])[|items|] == x;
    if items != [] {
      assert (items + [x])[1..] == items[1..] + [x];
      TotalQuantityAppend(items[1..], x);
    }
  }

  /** With no NaN quantity the count is the plain total of the quantities. */
  lemma {:induction false} CartCountIsTotal(items: seq<Row>)
    requires FiniteQuantities(items)
    ensures NumericQuantities(items)
    ensures CartCount(items) == Fin(TotalQuantity(items))
  {
    if items != [] {
      var init := items[..|items| - 1];
      var last := items[|items| - 1];
      assert forall i :: 0 <= i < |init| ==> init[i] == items[i];
      assert [last][0] == items[|items| - 1];
      CartCountIsTotal(init);
      assert init + [last] == items;
      TotalQuantityAppend(init, last);
    }
  }

  /**
   * A cart row the server sends, once normalised: its `id` is the product id
   * as a string, `cartItemId` the cart line's id, `productId` and `quantity`
   * the line's, and `category` undefined, because the server's cart query
   * does not select it.
   */
  lemma ServerRowNormalized(c: Cart.CartItem, p: Products.Product, fraction: real -> string)
    ensures var r := Normalize(Image.WithNormalizedImage(Obj(Cart.LineRow(c, p))), fraction);
      r["id"] == Str(ToString(IntValue(c.product_id), fraction))
      && r["cartItemId"] == IntValue(c.id) && r["productId"] == IntValue(c.product_id)
      && r["quantity"] == IntValue(c.quantity) && r["category"] == Undefined
  {
    var row := Cart.LineRow(c, p);
    var w := Image.WithNormalizedImage(Obj(row));
    assert "product_id" in row && "id" in row && "quantity" in row && "category" !in row;
    assert w.Obj? && "category" !in w.fields;
    assert Get(w, "product_id") == IntValue(c.product_id) && Get(w, "id") == IntValue(c.id);
    assert Get(w, "quantity") == IntValue(c.quantity);
    assert Coalesce(Get(w, "product_id"), Get(w, "id")) == IntValue(c.product_id);
  }

  /**
   * The count of the cart the server sends is never NaN: it is the total of
   * the quantities of the user's lines.
   */
  lemma ServerCartCountable(items: seq<Cart.CartItem>, u: int, products: seq<Products.Product>,
                            served: seq<Value>, fraction: real -> string)
    requires |served| == |Cart.CartRows(items, u, products)|
    requires forall i :: 0 <= i < |served| ==> served[i] == Image.WithNormalizedImage(Obj(Cart.CartRows(items, u, products)[i]))
    ensures NumericQuantities(GetCart(served, fraction))
    ensures CartCount(GetCart(served, fraction)).Fin?
  {
    var rows := Cart.CartRows(items, u, products);
    var page := GetCart(served, fraction);
    forall i | 0 <= i < |page|
      ensures Field(page[i], "quantity").Num? && QuantityOf(page[i]).Fin?
    {
      assert rows[i] in rows;
      Cart.CartRowsMembers(items, u, products, rows[i]);
      var c, p :| c in items && c.user_id == u && p in products && p.id == c.product_id && rows[i] == Cart.LineRow(c, p);
      ServerRowNormalized(c, p, fraction);
    }
  }
}
