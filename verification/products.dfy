/**
 * The products table and `ProductService` (backend/src/services/product.service.ts):
 * insert, read all, read by id, overwrite by id and delete by id.
 */
module Products {
  import opened Wrappers
  import opened Js
  import Tables

  /**
   * A row of the products table. `category` is free text stored as given
   * (None is SQL NULL); `category_id` is a column the service never writes.
   */
  datatype Product = Product(
    id: int, name: string, price: real, description: string, image_url: string,
    category: Option<string>, stock: int, currency: string, category_id: Option<int>)

  /**
   * The service's input: the request body itself, read through the
   * `Product` type. The seven columns and an optional `id` are typed; `extra`
   * holds the body's other keys (such as `category_id`, or an explicit
   * `category: null`), which the INSERT and UPDATE ignore but the reply's
   * spread echoes.
   */
  datatype ProductData = ProductData(
    id: Option<int>, name: string, price: real, description: string, image_url: string,
    category: Option<string>, stock: int, currency: string, extra: Row)

  function IdOf(p: Product): int { p.id }

  function CategoryIdOf(p: Product): Option<int> { p.category_id }

  /** The seven columns the service writes, as an input record without an id. */
  function Columns(p: Product): ProductData {
    ProductData(None, p.name, p.price, p.description, p.image_url, p.category, p.stock, p.currency, map[])
  }

  /** The row `INSERT INTO products (...seven columns...)` creates under the id `id`. */
  function Stored(id: int, data: ProductData): (p: Product)
    ensures p.id == id && p.category_id == None
    ensures Columns(p) == data.(id := None, extra := map[])
  {
    Product(id, data.name, data.price, data.description, data.image_url, data.category, data.stock, data.currency, None)
  }

  /** `UPDATE products SET ...seven columns... WHERE id = ?`, applied to one matching row. */
  function Overwrite(p: Product, data: ProductData): (r: Product)
    ensures r.id == p.id && r.category_id == p.category_id
    ensures Columns(r) == data.(id := None, extra := map[])
  {
    p.(name := data.name, price := data.price, description := data.description, image_url := data.image_url,
       category := data.category, stock := data.stock, currency := data.currency)
  }

  function OptionalString(o: Option<string>): Value {
    if o.Some? then Str(o.value) else Null
  }

  function OptionalInt(o: Option<int>): Value {
    if o.Some? then IntValue(o.value) else Null
  }

  /** A product as the row object `SELECT *` yields. */
  function ProductRow(p: Product): (r: Row)
    ensures r.Keys == {"id", "name", "price", "description", "image_url", "category", "stock", "currency", "category_id"}
    ensures r["id"] == IntValue(p.id) && r["image_url"] == Str(p.image_url)
  {
    map["id" := IntValue(p.id), "name" := Str(p.name), "price" := Num(Fin(p.price)),
        "description" := Str(p.description), "image_url" := Str(p.image_url),
        "category" := OptionalString(p.category), "stock" := IntValue(p.stock),
        "currency" := Str(p.currency), "category_id" := OptionalInt(p.category_id)]
  }

  /** The body keys `ProductData` reads through its typed fields. */
  const TypedKeys: set<string> := {"id", "name", "price", "description", "image_url", "category", "stock", "currency"}

  /** The body as a plain object: its other keys, under the typed ones; an absent `category` or `id` leaves `extra`'s. */
  function DataRow(d: ProductData): Row {
    var base := d.extra + map["name" := Str(d.name), "price" := Num(Fin(d.price)), "description" := Str(d.description),
                    "image_url" := Str(d.image_url), "stock" := IntValue(d.stock), "currency" := Str(d.currency)];
    var withCategory := if d.category.Some? then base["category" := Str(d.category.value)] else base;
    if d.id.Some? then withCategory["id" := IntValue(d.id.value)] else withCategory
  }

  /**
   * `{ id: insertId, ...data }`: the fresh id, unless the body carries an
   * `id` of its own, which the spread writes over it; every key of the body
   * is echoed, the untyped ones included.
   */
  function CreatedResponse(insertId: int, data: ProductData): (r: Row)
    ensures r.Keys == DataRow(data).Keys + {"id"}
    ensures r["id"] == (if "id" in DataRow(data) then DataRow(data)["id"] else IntValue(insertId))
    ensures data.id.Some? ==> r["id"] == IntValue(data.id.value)
    ensures data.id.None? && "id" !in data.extra ==> r["id"] == IntValue(insertId)
    ensures forall k :: k in DataRow(data) ==> r[k] == DataRow(data)[k]
    ensures forall k :: k in data.extra && k !in TypedKeys ==> k in r && r[k] == data.extra[k]
  {
    map["id" := IntValue(insertId)] + DataRow(data)
  }

  /**
   * The reply and the stored row can disagree: a body `category_id` is echoed
   * while the row's `category_id` is NULL, and an explicit `category: null`
   * is echoed as null while a missing `category` is not echoed at all.
   */
  lemma CreatedEchoesUnstored(insertId: int, data: ProductData)
    ensures "category_id" in data.extra ==>
      CreatedResponse(insertId, data)["category_id"] == data.extra["category_id"]
      && Stored(insertId, data).category_id == None
    ensures data.category.None? ==>
      Stored(insertId, data).category == None
      && ("category" in CreatedResponse(insertId, data) <==> "category" in data.extra)
    ensures data.category.None? && "category" in data.extra ==>
      CreatedResponse(insertId, data)["category"] == data.extra["category"]
  {
  }

  /** AUTO_INCREMENT ids: every id is positive, below the next one, and unique. */
  predicate IdsBelow(rows: seq<Product>, nextId: int) {
    forall i :: 0 <= i < |rows| ==> 1 <= rows[i].id < nextId
  }

  class ProductService {
    var rows: seq<Product>
    var nextId: int

    predicate Valid()
      reads this
    {
      nextId >= 1 && IdsBelow(rows, nextId) && Tables.UniqueKeys(rows, IdOf)
    }

    /** The service over a products table in the given state. */
    constructor (initial: seq<Product>, next: int)
      requires next >= 1 && IdsBelow(initial, next) && Tables.UniqueKeys(initial, IdOf)
      ensures rows == initial && nextId == next && Valid()
    {
      rows := initial;
      nextId := next;
    }

    /** `createProduct`: one row is appended under the next id; `category_id` is left NULL. */
    method CreateProduct(data: ProductData) returns (r: Row)
      requires Valid()
      modifies this
      ensures rows == old(rows) + [Stored(old(nextId), data)]
      ensures nextId == old(nextId) + 1
      ensures r == CreatedResponse(old(nextId), data)
      ensures Valid()
    {
      var insertId := nextId;
      InsertFresh(rows, insertId, data);
      rows := rows + [Stored(insertId, data)];
      nextId := nextId + 1;
      r := CreatedResponse(insertId, data);
    }

    /** `getProducts`: every row; the row array is truthy, so the `|| null` never applies. */
    function GetProducts(): (r: Option<seq<Product>>)
      reads this
      ensures r.Some? && |r.value| == |rows|
      ensures forall i :: 0 <= i < |rows| ==> r.value[i] == rows[i]
    {
      Some(rows)
    }

    /** `getProductById`: the rows with that id, an empty list (never null) when there is none. */
    function GetProductById(id: int): (r: Option<seq<Product>>)
      reads this
      ensures r.Some?
      ensures forall p :: p in r.value <==> p in rows && p.id == id
      ensures Valid() ==> |r.value| <= 1
    {
      var found := Tables.Select(rows, IdOf, id);
      Tables.SelectMembers(rows, IdOf, id);
      assert Valid() ==> |found| <= 1 by {
        if Valid() { Tables.UniqueSelectsOne(rows, IdOf, id); }
      }
      Some(found)
    }

    /** `updateProduct`: every row with that id gets the seven columns. The service returns the whole query result; the model keeps its `affectedRows`, the matched-row count. */
    method UpdateProduct(id: int, data: ProductData) returns (affected: nat)
      requires Valid()
      modifies this
      ensures rows == Tables.Update(old(rows), IdOf, id, Overwrite, data)
      ensures nextId == old(nextId)
      ensures affected == |Tables.Select(old(rows), IdOf, id)|
      ensures Valid()
    {
      affected := |Tables.Select(rows, IdOf, id)|;
      Tables.UpdateKeepsUnique(rows, IdOf, id, Overwrite, data);
      rows := Tables.Update(rows, IdOf, id, Overwrite, data);
    }

    /** `deleteProduct`: every row with that id goes. The service returns the whole query result; the model keeps its `affectedRows`. */
    method DeleteProduct(id: int) returns (affected: nat)
      requires Valid()
      modifies this
      ensures rows == Tables.Delete(old(rows), IdOf, id)
      ensures nextId == old(nextId)
      ensures affected == |Tables.Select(old(rows), IdOf, id)|
      ensures |rows| == |old(rows)| - affected
      ensures Valid()
    {
      affected := |Tables.Select(rows, IdOf, id)|;
      Tables.DeleteSize(rows, IdOf, id);
      Tables.DeleteKeepsUnique(rows, IdOf, id);
      DeleteKeepsIds(rows, nextId, id);
      rows := Tables.Delete(rows, IdOf, id);
    }
  }

  /** A fresh AUTO_INCREMENT id is not in the table yet, and the insert keeps the table valid. */
  lemma InsertFresh(rows: seq<Product>, nextId: int, data: ProductData)
    requires nextId >= 1 && IdsBelow(rows, nextId) && Tables.UniqueKeys(rows, IdOf)
    ensures Tables.Select(rows, IdOf, nextId) == []
    ensures IdsBelow(rows + [Stored(nextId, data)], nextId + 1)
    ensures Tables.UniqueKeys(rows + [Stored(nextId, data)], IdOf)
  {
    Tables.SelectNone(rows, IdOf, nextId);
    Tables.AppendKeepsUnique(rows, IdOf, Stored(nextId, data));
  }

  lemma DeleteKeepsIds(rows: seq<Product>, nextId: int, id: int)
    requires IdsBelow(rows, nextId)
    ensures IdsBelow(Tables.Delete(rows, IdOf, id), nextId)
  {
    var d := Tables.Delete(rows, IdOf, id);
    forall i | 0 <= i < |d|
      ensures 1 <= d[i].id < nextId
    {
      assert d[i] in rows;
    }
  }

  /** Reading a created product back by its fresh id gives exactly the stored row. */
  lemma {:induction false} ReadAfterCreate(rows: seq<Product>, nextId: int, data: ProductData)
    requires nextId >= 1 && IdsBelow(rows, nextId) && Tables.UniqueKeys(rows, IdOf)
    ensures Tables.Select(rows + [Stored(nextId, data)], IdOf, nextId) == [Stored(nextId, data)]
  {
    InsertFresh(rows, nextId, data);
    assert (rows + [Stored(nextId, data)])[..|rows|] == rows;
  }

  /**
   * After `updateProduct(id, data)` the row with that id carries the seven
   * new columns and keeps its id and `category_id`; every other row is as it was.
   */
  lemma UpdateProductEffect(rows: seq<Product>, id: int, data: ProductData)
    ensures |Tables.Update(rows, IdOf, id, Overwrite, data)| == |rows|
    ensures forall i :: 0 <= i < |rows| && rows[i].id == id ==>
      var u := Tables.Update(rows, IdOf, id, Overwrite, data)[i];
      Columns(u) == data.(id := None, extra := map[]) && u.id == id && u.category_id == rows[i].category_id
    ensures forall i :: 0 <= i < |rows| && rows[i].id != id ==> Tables.Update(rows, IdOf, id, Overwrite, data)[i] == rows[i]
  {
  }

  /** Updating an id no row has changes nothing. */
  lemma UpdateProductAbsent(rows: seq<Product>, id: int, data: ProductData)
    requires Tables.Select(rows, IdOf, id) == []
    ensures Tables.Update(rows, IdOf, id, Overwrite, data) == rows
  {
    Tables.UpdateAbsent(rows, IdOf, id, Overwrite, data);
  }

  /** Deleting an id no row has changes nothing; otherwise nothing with that id is left. */
  lemma DeleteProductEffect(rows: seq<Product>, id: int)
    ensures Tables.Select(rows, IdOf, id) == [] ==> Tables.Delete(rows, IdOf, id) == rows
    ensures Tables.Select(Tables.Delete(rows, IdOf, id), IdOf, id) == []
    ensures forall other :: other != id ==> Tables.Select(Tables.Delete(rows, IdOf, id), IdOf, other) == Tables.Select(rows, IdOf, other)
  {
    if Tables.Select(rows, IdOf, id) == [] {
      Tables.DeleteAbsent(rows, IdOf, id);
    }
    var d := Tables.Delete(rows, IdOf, id);
    forall i | 0 <= i < |d|
      ensures d[i].id != id
    {
      assert d[i] in d;
    }
    Tables.SelectNone(d, IdOf, id);
    forall other | other != id
      ensures Tables.Select(d, IdOf, other) == Tables.Select(rows, IdOf, other)
    {
      Tables.SelectAfterDelete(rows, IdOf, id, other);
    }
  }
}
