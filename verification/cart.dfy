/**
 * The cart_items table and `CartService` (backend/src/services/cart.service.ts).
 * A line is a (user, product) pair with a quantity; `addToCart` merges into an
 * existing line or inserts one, `updateQuantity` overwrites or deletes,
 * `removeFromCart` deletes, and `getCart` joins the user's lines with products.
 */
module Cart {
  import opened Wrappers
  import opened Js
  import Tables
  import Image
  import Products

  datatype CartItem = CartItem(id: int, user_id: int, product_id: int, quantity: int)

  /** The (user_id, product_id) pair every statement of the service selects on. */
  function LineKey(c: CartItem): (int, int) { (c.user_id, c.product_id) }

  /** `SET quantity = ?` on one row. */
  function SetQuantity(c: CartItem, q: int): CartItem { c.(quantity := q) }

  /** The table's contents and its AUTO_INCREMENT counter. */
  datatype CartTable = CartTable(items: seq<CartItem>, nextId: int)

  /** What `addToCart` returns; `id` is present only when a line was inserted. */
  datatype AddResult = AddResult(id: Option<int>, user_id: int, product_id: int, quantity: int, updated: bool)

  /** What `updateQuantity` returns: `{ removed: true }` or `{ updated, quantity }`. */
  datatype UpdateResult = Removed | Updated(updated: bool, quantity: int)

  /** `SELECT ... FROM cart_items WHERE user_id = ? AND product_id = ?` */
  function Line(items: seq<CartItem>, u: int, p: int): seq<CartItem> {
    Tables.Select(items, LineKey, (u, p))
  }

  /** The quantity the first matching line holds, if there is one. */
  function Quantity(items: seq<CartItem>, u: int, p: int): Option<int> {
    var line := Line(items, u, p);
    if line == [] then None else Some(line[0].quantity)
  }

  /** At most one line per (user, product). */
  predicate OneLinePerPair(items: seq<CartItem>) {
    Tables.UniqueKeys(items, LineKey)
  }

  /** Every stored quantity is at least 1. */
  predicate Positive(items: seq<CartItem>) {
    forall i :: 0 <= i < |items| ==> items[i].quantity >= 1
  }

  /** Lines of every other (user, product) pair are exactly as they were. */
  ghost predicate OthersUntouched(after: seq<CartItem>, before: seq<CartItem>, u: int, p: int) {
    Tables.SameElsewhere(after, before, LineKey, (u, p))
  }

  /**
   * The table after `addToCart(u, p, q)`: an existing line gets the first
   * matching line's quantity plus `q`; otherwise a line is inserted under the next id.
   */
  function Added(t: CartTable, u: int, p: int, q: int): CartTable {
    var line := Line(t.items, u, p);
    if line != [] then CartTable(Tables.Update(t.items, LineKey, (u, p), SetQuantity, line[0].quantity + q), t.nextId)
    else CartTable(t.items + [CartItem(t.nextId, u, p, q)], t.nextId + 1)
  }

  /** What `addToCart(u, p, q)` returns. */
  function AddReply(t: CartTable, u: int, p: int, q: int): AddResult {
    var line := Line(t.items, u, p);
    if line != [] then AddResult(None, u, p, line[0].quantity + q, true)
    else AddResult(Some(t.nextId), u, p, q, false)
  }

  /** The table after `updateQuantity(u, p, q)`: delete below 1, overwrite otherwise. */
  function QuantityUpdated(t: CartTable, u: int, p: int, q: int): CartTable {
    if q < 1 then CartTable(Tables.Delete(t.items, LineKey, (u, p)), t.nextId)
    else CartTable(Tables.Update(t.items, LineKey, (u, p), SetQuantity, q), t.nextId)
  }

  /** What `updateQuantity(u, p, q)` returns; `updated` is `affectedRows > 0`. */
  function UpdateReply(t: CartTable, u: int, p: int, q: int): UpdateResult {
    if q < 1 then Removed else Updated(|Line(t.items, u, p)| > 0, q)
  }

  /** The table after `removeFromCart(u, p)`. */
  function RemovedLine(t: CartTable, u: int, p: int): CartTable {
    CartTable(Tables.Delete(t.items, LineKey, (u, p)), t.nextId)
  }

  /** What `removeFromCart(u, p)` returns as `removed`: `affectedRows > 0`. */
  function RemoveReply(t: CartTable, u: int, p: int): bool {
    |Line(t.items, u, p)| > 0
  }

  /** The row the join yields for one line and its product. */
  function LineRow(c: CartItem, p: Products.Product): Row {
    map["id" := IntValue(c.id), "user_id" := IntValue(c.user_id), "product_id" := IntValue(c.product_id),
        "quantity" := IntValue(c.quantity), "name" := Str(p.name), "price" := Num(Fin(p.price)),
        "image_url" := Str(p.image_url), "currency" := Str(p.currency), "stock" := IntValue(p.stock)]
  }

  /** `INNER JOIN products p ON p.id = c.product_id` for one line: a row per matching product. */
  function JoinLine(c: CartItem, products: seq<Products.Product>): seq<Row> {
    if products == [] then []
    else
      var last := products[|products| - 1];
      JoinLine(c, products[..|products| - 1]) + (if last.id == c.product_id then [LineRow(c, last)] else [])
  }

  /** `WHERE c.user_id = ? ORDER BY c.created_at DESC`: the user's lines, newest first. */
  function CartRows(items: seq<CartItem>, u: int, products: seq<Products.Product>): seq<Row> {
    if items == [] then []
    else
      var last := items[|items| - 1];
      (if last.user_id == u then JoinLine(last, products) else []) + CartRows(items[..|items| - 1], u, products)
  }

  predicate IdsBelow(items: seq<CartItem>, nextId: int) {
    forall i :: 0 <= i < |items| ==> 1 <= items[i].id < nextId
  }

  class CartService {
    var items: seq<CartItem>
    var nextId: int

    function Table(): CartTable
      reads this
    {
      CartTable(items, nextId)
    }

    predicate Valid()
      reads this
    {
      nextId >= 1 && IdsBelow(items, nextId)
    }

    /** The service over a cart_items table in the given state. */
    constructor (initial: seq<CartItem>, next: int)
      requires next >= 1 && IdsBelow(initial, next)
      ensures items == initial && nextId == next && Valid()
    {
      items := initial;
      nextId := next;
    }

    /** `getCart(u)`: the user's lines joined with their products, newest first, images normalised. */
    function GetCart(u: int, products: seq<Products.Product>): (r: seq<Value>)
      reads this
      ensures |r| == |CartRows(items, u, products)|
      ensures forall i :: 0 <= i < |r| ==> r[i] == Image.WithNormalizedImage(Obj(CartRows(items, u, products)[i]))
    {
      var rows := CartRows(items, u, products);
      Image.WithNormalizedImages(Arr(seq(|rows|, i requires 0 <= i < |rows| => Obj(rows[i]))))
    }

    /** `addToCart(u, p, q)`: SELECT the line, then UPDATE it or INSERT one. */
    method AddToCart(u: int, p: int, q: int) returns (r: AddResult)
      requires Valid()
      modifies this
      ensures Table() == Added(old(Table()), u, p, q)
      ensures r == AddReply(old(Table()), u, p, q)
      ensures Valid()
      ensures OneLinePerPair(old(items)) ==> OneLinePerPair(items)
      ensures Positive(old(items)) && q >= 1 ==> Positive(items)
    {
      if OneLinePerPair(items) { AddKeepsOneLinePerPair(Table(), u, p, q); }
      if Positive(items) && q >= 1 { AddKeepsPositive(Table(), u, p, q); }
      var existing := Tables.Select(items, LineKey, (u, p));
      if |existing| > 0 {
        var newQty := existing[0].quantity + q;
        items := Tables.Update(items, LineKey, (u, p), SetQuantity, newQty);
        r := AddResult(None, u, p, newQty, true);
      } else {
        var insertId := nextId;
        items := items + [CartItem(insertId, u, p, q)];
        nextId := nextId + 1;
        r := AddResult(Some(insertId), u, p, q, false);
      }
    }

    /** `updateQuantity(u, p, q)`: DELETE when `q < 1`, UPDATE otherwise. */
    method UpdateQuantity(u: int, p: int, q: int) returns (r: UpdateResult)
      requires Valid()
      modifies this
      ensures Table() == QuantityUpdated(old(Table()), u, p, q)
      ensures r == UpdateReply(old(Table()), u, p, q)
      ensures Valid()
      ensures OneLinePerPair(old(items)) ==> OneLinePerPair(items)
      ensures Positive(old(items)) ==> Positive(items)
    {
      UpdateKeepsInvariants(Table(), u, p, q);
      if q < 1 {
        DeleteKeepsIds(items, nextId, (u, p));
        items := Tables.Delete(items, LineKey, (u, p));
        return Removed;
      }
      var affected := |Tables.Select(items, LineKey, (u, p))|;
      items := Tables.Update(items, LineKey, (u, p), SetQuantity, q);
      r := Updated(affected > 0, q);
    }

    /** `removeFromCart(u, p)`: DELETE the line; `removed` is `affectedRows > 0`. */
    method RemoveFromCart(u: int, p: int) returns (removed: bool)
      requires Valid()
      modifies this
      ensures Table() == RemovedLine(old(Table()), u, p)
      ensures removed == RemoveReply(old(Table()), u, p)
      ensures Valid()
      ensures OneLinePerPair(old(items)) ==> OneLinePerPair(items)
      ensures Positive(old(items)) ==> Positive(items)
    {
      RemoveKeepsInvariants(Table(), u, p);
      var affected := |Tables.Select(items, LineKey, (u, p))|;
      DeleteKeepsIds(items, nextId, (u, p));
      items := Tables.Delete(items, LineKey, (u, p));
      removed := affected > 0;
    }
  }

  lemma DeleteKeepsIds(items: seq<CartItem>, nextId: int, k: (int, int))
    requires IdsBelow(items, nextId)
    ensures IdsBelow(Tables.Delete(items, LineKey, k), nextId)
  {
    var d := Tables.Delete(items, LineKey, k);
    forall i | 0 <= i < |d|
      ensures 1 <= d[i].id < nextId
    {
      assert d[i] in items;
    }
  }

  /** A line is inserted only when the SELECT finds none, so `addToCart` keeps one line per pair. */
  lemma AddKeepsOneLinePerPair(t: CartTable, u: int, p: int, q: int)
    requires OneLinePerPair(t.items)
    ensures OneLinePerPair(Added(t, u, p, q).items)
  {
    var line := Line(t.items, u, p);
    if line != [] {
      Tables.UpdateKeepsUnique(t.items, LineKey, (u, p), SetQuantity, line[0].quantity + q);
    } else {
      Tables.AppendKeepsUnique(t.items, LineKey, CartItem(t.nextId, u, p, q));
    }
  }

  /**
   * After `addToCart(u, p, q)` there is exactly one line for the pair, holding
   * the old quantity (0 when there was no line) plus `q`; the reply says
   * `updated` exactly when a line existed, carries an id exactly when one was
   * inserted, and reports the new quantity.
   */
  lemma AddMerges(t: CartTable, u: int, p: int, q: int)
    requires OneLinePerPair(t.items)
    ensures |Line(Added(t, u, p, q).items, u, p)| == 1
    ensures Quantity(Added(t, u, p, q).items, u, p) == Some(Quantity(t.items, u, p).GetOr(0) + q)
    ensures AddReply(t, u, p, q).updated <==> Line(t.items, u, p) != []
    ensures AddReply(t, u, p, q).id.Some? <==> Line(t.items, u, p) == []
    ensures AddReply(t, u, p, q).quantity == Quantity(t.items, u, p).GetOr(0) + q
  {
    if Line(t.items, u, p) != [] {
      AddToExisting(t, u, p, q);
    } else {
      Tables.SelectAfterAppend(t.items, LineKey, CartItem(t.nextId, u, p, q));
    }
  }

  lemma AddToExisting(t: CartTable, u: int, p: int, q: int)
    requires OneLinePerPair(t.items) && Line(t.items, u, p) != []
    ensures Line(Added(t, u, p, q).items, u, p) == [SetQuantity(Line(t.items, u, p)[0], Line(t.items, u, p)[0].quantity + q)]
  {
    var line := Line(t.items, u, p);
    var n := line[0].quantity + q;
    assert Added(t, u, p, q).items == Tables.Update(t.items, LineKey, (u, p), SetQuantity, n);
    Tables.UniqueSelectsOne(t.items, LineKey, (u, p));
    assert line == [line[0]];
    assert Tables.KeepsKey(LineKey, SetQuantity, n);
    Tables.SelectAfterUpdate(t.items, LineKey, (u, p), SetQuantity, n);
    var all := Tables.AssignAll(line, SetQuantity, n);
    assert |all| == 1 && all[0] == SetQuantity(line[0], n);
    assert all == [SetQuantity(line[0], n)];
  }

  /** `addToCart` on a pair with a line updates every line of the pair. */
  lemma AddedExisting(t: CartTable, u: int, p: int, q: int)
    requires Line(t.items, u, p) != []
    ensures Added(t, u, p, q).items == Tables.Update(t.items, LineKey, (u, p), SetQuantity, Line(t.items, u, p)[0].quantity + q)
  {
  }

  /** `addToCart` on a pair without a line appends one under the next id. */
  lemma AddedFresh(t: CartTable, u: int, p: int, q: int)
    requires Line(t.items, u, p) == []
    ensures Added(t, u, p, q).items == t.items + [CartItem(t.nextId, u, p, q)]
  {
  }

  /** `add(u, p, a)` then `add(u, p, b)` on a pair without a line leaves one line of `a + b`. */
  lemma AddTwice(t: CartTable, u: int, p: int, a: int, b: int)
    requires Line(t.items, u, p) == []
    ensures |Line(Added(Added(t, u, p, a), u, p, b).items, u, p)| == 1
    ensures Quantity(Added(Added(t, u, p, a), u, p, b).items, u, p) == Some(a + b)
  {
    var x := CartItem(t.nextId, u, p, a);
    var once := Added(t, u, p, a);
    AddedFresh(t, u, p, a);
    Tables.SelectAfterAppend(t.items, LineKey, x);
    assert Line(once.items, u, p) == [x];
    var n := a + b;
    AddedExisting(once, u, p, b);
    assert Tables.KeepsKey(LineKey, SetQuantity, n);
    Tables.SelectAfterUpdate(once.items, LineKey, (u, p), SetQuantity, n);
    var all := Tables.AssignAll([x], SetQuantity, n);
    assert |all| == 1 && all[0] == SetQuantity(x, n);
    assert Line(Added(once, u, p, b).items, u, p) == [SetQuantity(x, n)];
  }

  /** `addToCart` touches no line of another pair. */
  lemma AddFrame(t: CartTable, u: int, p: int, q: int)
    ensures OthersUntouched(Added(t, u, p, q).items, t.items, u, p)
  {
    var line := Line(t.items, u, p);
    if line != [] {
      var n := line[0].quantity + q;
      assert Added(t, u, p, q).items == Tables.Update(t.items, LineKey, (u, p), SetQuantity, n);
      assert Tables.KeepsKey(LineKey, SetQuantity, n);
      Tables.UpdateElsewhere(t.items, LineKey, (u, p), SetQuantity, n);
    } else {
      assert Added(t, u, p, q).items == t.items + [CartItem(t.nextId, u, p, q)];
      Tables.SelectAfterAppend(t.items, LineKey, CartItem(t.nextId, u, p, q));
    }
  }

  /** Quantities of at least 1, with amounts of at least 1 added, stay at least 1. */
  lemma AddKeepsPositive(t: CartTable, u: int, p: int, q: int)
    requires Positive(t.items) && q >= 1
    ensures Positive(Added(t, u, p, q).items)
  {
    var line := Line(t.items, u, p);
    if line != [] {
      Tables.SelectMembers(t.items, LineKey, (u, p));
      assert line[0] in t.items;
    }
  }

  /**
   * `updateQuantity` below 1 deletes the pair's line, whether or not there was one,
   * and reports `removed`.
   */
  lemma UpdateBelowOneDeletes(t: CartTable, u: int, p: int, q: int)
    requires q < 1
    ensures Line(QuantityUpdated(t, u, p, q).items, u, p) == []
    ensures Line(t.items, u, p) == [] ==> QuantityUpdated(t, u, p, q) == t
    ensures UpdateReply(t, u, p, q) == Removed
  {
    Tables.SelectAfterDeleteSame(t.items, LineKey, (u, p));
    if Line(t.items, u, p) == [] {
      Tables.DeleteAbsent(t.items, LineKey, (u, p));
    }
  }

  /**
   * `updateQuantity` at 1 or more never inserts: the table keeps its size and
   * counter, an absent line stays absent with the table unchanged, a present
   * one holds `q`, and `updated` says whether a line existed.
   */
  lemma UpdateOverwritesInPlace(t: CartTable, u: int, p: int, q: int)
    requires q >= 1
    ensures |QuantityUpdated(t, u, p, q).items| == |t.items|
    ensures QuantityUpdated(t, u, p, q).nextId == t.nextId
    ensures UpdateReply(t, u, p, q) == Updated(Line(t.items, u, p) != [], q)
    ensures Line(t.items, u, p) == [] ==> QuantityUpdated(t, u, p, q) == t
    ensures Line(t.items, u, p) != [] ==> Quantity(QuantityUpdated(t, u, p, q).items, u, p) == Some(q)
  {
    if Line(t.items, u, p) == [] {
      Tables.UpdateAbsent(t.items, LineKey, (u, p), SetQuantity, q);
    } else {
      Tables.SelectAfterUpdate(t.items, LineKey, (u, p), SetQuantity, q);
    }
  }

  /** `updateQuantity` keeps one line per pair, positive quantities, and every other pair's line. */
  lemma UpdateKeepsInvariants(t: CartTable, u: int, p: int, q: int)
    ensures OneLinePerPair(t.items) ==> OneLinePerPair(QuantityUpdated(t, u, p, q).items)
    ensures Positive(t.items) ==> Positive(QuantityUpdated(t, u, p, q).items)
    ensures OthersUntouched(QuantityUpdated(t, u, p, q).items, t.items, u, p)
  {
    if q < 1 {
      Tables.DeleteElsewhere(t.items, LineKey, (u, p));
      if OneLinePerPair(t.items) {
        Tables.DeleteKeepsUnique(t.items, LineKey, (u, p));
      }
      var d := Tables.Delete(t.items, LineKey, (u, p));
      forall i | 0 <= i < |d|
        ensures Positive(t.items) ==> d[i].quantity >= 1
      {
        assert d[i] in t.items;
      }
    } else {
      Tables.UpdateElsewhere(t.items, LineKey, (u, p), SetQuantity, q);
      if OneLinePerPair(t.items) {
        Tables.UpdateKeepsUnique(t.items, LineKey, (u, p), SetQuantity, q);
      }
    }
  }

  /**
   * `removeFromCart` reports `removed` exactly when a line existed, leaves no
   * line for the pair, leaves the table as it was when there was none, and
   * touches no other pair; removing twice is removing once.
   */
  lemma RemoveEffect(t: CartTable, u: int, p: int)
    ensures RemoveReply(t, u, p) <==> Line(t.items, u, p) != []
    ensures Line(RemovedLine(t, u, p).items, u, p) == []
    ensures Line(t.items, u, p) == [] ==> RemovedLine(t, u, p) == t
    ensures OthersUntouched(RemovedLine(t, u, p).items, t.items, u, p)
    ensures RemovedLine(RemovedLine(t, u, p), u, p) == RemovedLine(t, u, p)
    ensures !RemoveReply(RemovedLine(t, u, p), u, p)
  {
    Tables.SelectAfterDeleteSame(t.items, LineKey, (u, p));
    if Line(t.items, u, p) == [] {
      Tables.DeleteAbsent(t.items, LineKey, (u, p));
    }
    Tables.DeleteAbsent(RemovedLine(t, u, p).items, LineKey, (u, p));
    Tables.DeleteElsewhere(t.items, LineKey, (u, p));
  }

  /** `removeFromCart` keeps one line per pair and positive quantities. */
  lemma RemoveKeepsInvariants(t: CartTable, u: int, p: int)
    ensures OneLinePerPair(t.items) ==> OneLinePerPair(RemovedLine(t, u, p).items)
    ensures Positive(t.items) ==> Positive(RemovedLine(t, u, p).items)
  {
    UpdateKeepsInvariants(t, u, p, 0);
  }

  /** A joined row exists for each product whose id is the line's product id. */
  lemma {:induction false} JoinLineMembers(c: CartItem, products: seq<Products.Product>, r: Row)
    ensures r in JoinLine(c, products) <==> exists p :: p in products && p.id == c.product_id && r == LineRow(c, p)
  {
    if products != [] {
      var init := products[..|products| - 1];
      var last := products[|products| - 1];
      JoinLineMembers(c, init, r);
      assert products == init + [last];
      if exists p :: p in products && p.id == c.product_id && r == LineRow(c, p) {
        var p :| p in products && p.id == c.product_id && r == LineRow(c, p);
        if p != last {
          assert p in init;
        }
      }
    }
  }

  /**
   * `getCart(u)` yields a row exactly for each line of `u` whose product
   * still exists (inner join); lines of other users never appear.
   */
  lemma {:induction false} CartRowsMembers(items: seq<CartItem>, u: int, products: seq<Products.Product>, r: Row)
    ensures r in CartRows(items, u, products) <==>
      exists c, p :: c in items && c.user_id == u && p in products && p.id == c.product_id && r == LineRow(c, p)
  {
    if items != [] {
      var init := items[..|items| - 1];
      var last := items[|items| - 1];
      var head := if last.user_id == u then JoinLine(last, products) else [];
      assert items == init + [last];
      assert CartRows(items, u, products) == head + CartRows(init, u, products);
      CartRowsMembers(init, u, products, r);
      JoinLineMembers(last, products, r);
      if r in head {
        var p :| p in products && p.id == last.product_id && r == LineRow(last, p);
        assert last in items && last.user_id == u;
      } else if r in CartRows(init, u, products) {
        var c, p :| c in init && c.user_id == u && p in products && p.id == c.product_id && r == LineRow(c, p);
        assert c in items;
      }
      if exists c, p :: c in items && c.user_id == u && p in products && p.id == c.product_id && r == LineRow(c, p) {
        var c, p :| c in items && c.user_id == u && p in products && p.id == c.product_id && r == LineRow(c, p);
        if c == last {
          assert r in head;
        } else {
          assert c in init;
        }
      }
    }
  }

  /** Newest first: a line added last is listed before every older line. */
  lemma NewestFirst(items: seq<CartItem>, c: CartItem, products: seq<Products.Product>)
    ensures CartRows(items + [c], c.user_id, products) == JoinLine(c, products) + CartRows(items, c.user_id, products)
  {
    assert (items + [c])[..|items|] == items;
  }

  /** After `updateQuantity(u, p, q)` with `q < 1`, `getCart(u)` lists no row for product `p`. */
  lemma UpdateToZeroLeavesCart(t: CartTable, u: int, p: int, q: int, products: seq<Products.Product>, r: Row)
    requires q < 1
    requires r in CartRows(QuantityUpdated(t, u, p, q).items, u, products)
    ensures "product_id" in r && r["product_id"] != IntValue(p)
  {
    var items := QuantityUpdated(t, u, p, q).items;
    CartRowsMembers(items, u, products, r);
    var c, prod :| c in items && c.user_id == u && prod in products && prod.id == c.product_id && r == LineRow(c, prod);
    UpdateBelowOneDeletes(t, u, p, q);
    assert c !in Line(items, u, p);
    assert c.product_id != p;
    assert r["product_id"] == IntValue(c.product_id);
  }
}
