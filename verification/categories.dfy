/**
 * The categories table and `CategoryService` (backend/src/services/category.service.ts):
 * insert, list with a product count, read by id, rename by id, delete by id,
 * and the products of one category.
 */
module Categories {
  import opened Wrappers
  import opened Js
  import Tables
  import Image
  import Products

  datatype Category = Category(id: int, name: string)

  function CatId(c: Category): int { c.id }

  function Rename(c: Category, name: string): Category { c.(name := name) }

  /** The number of products whose `category_id` is `id`: `COUNT(p.id)` of the LEFT JOIN. */
  function ProductCount(products: seq<Products.Product>, id: int): nat {
    |Tables.Select(products, Products.CategoryIdOf, Some(id))|
  }

  /** A category with its count, as `SELECT c.*, COUNT(p.id) AS product_count` yields it. */
  function CountRow(c: Category, products: seq<Products.Product>): Row {
    map["id" := IntValue(c.id), "name" := Str(c.name), "product_count" := IntValue(ProductCount(products, c.id))]
  }

  /** `GROUP BY c.id` over unique ids: each category once, in table order, with its count. */
  function CountRows(categories: seq<Category>, products: seq<Products.Product>): (r: seq<Row>)
    ensures |r| == |categories|
    ensures forall i :: 0 <= i < |r| ==> r[i] == CountRow(categories[i], products)
  {
    seq(|categories|, i requires 0 <= i < |categories| => CountRow(categories[i], products))
  }

  /** The products with `category_id = id`, as the rows `SELECT *` yields. */
  function CategoryProductRows(products: seq<Products.Product>, id: int): (r: seq<Value>)
    ensures |r| == ProductCount(products, id)
    ensures forall i :: 0 <= i < |r| ==> r[i] == Obj(Products.ProductRow(Tables.Select(products, Products.CategoryIdOf, Some(id))[i]))
  {
    var found := Tables.Select(products, Products.CategoryIdOf, Some(id));
    seq(|found|, i requires 0 <= i < |found| => Obj(Products.ProductRow(found[i])))
  }

  /** The sum of `product_count` over a list of categories. */
  function TotalCount(categories: seq<Category>, products: seq<Products.Product>): nat {
    if categories == [] then 0
    else
      TotalCount(categories[..|categories| - 1], products) + ProductCount(products, categories[|categories| - 1].id)
  }

  /** The categories the product `p` is counted under: those whose id is its `category_id`. */
  function Matches(categories: seq<Category>, p: Products.Product): nat {
    if p.category_id.Some? then |Tables.Select(categories, CatId, p.category_id.value)| else 0
  }

  predicate IdsBelow(categories: seq<Category>, nextId: int) {
    forall i :: 0 <= i < |categories| ==> 1 <= categories[i].id < nextId
  }

  class CategoryService {
    var categories: seq<Category>
    var nextId: int

    predicate Valid()
      reads this
    {
      nextId >= 1 && IdsBelow(categories, nextId) && Tables.UniqueKeys(categories, CatId)
    }

    /** The service over a categories table in the given state. */
    constructor (initial: seq<Category>, next: int)
      requires next >= 1 && IdsBelow(initial, next) && Tables.UniqueKeys(initial, CatId)
      ensures categories == initial && nextId == next && Valid()
    {
      categories := initial;
      nextId := next;
    }

    /**
     * `createCategory(data)`: one row named `data.name` under the next id;
     * the reply is `{ id: insertId, ...data }`, every field of `data` echoed.
     */
    method CreateCategory(data: Row) returns (r: Row)
      requires Valid()
      requires "name" in data && data["name"].Str?
      modifies this
      ensures categories == old(categories) + [Category(old(nextId), data["name"].s)]
      ensures nextId == old(nextId) + 1
      ensures r.Keys == data.Keys + {"id"}
      ensures r["id"] == (if "id" in data then data["id"] else IntValue(old(nextId)))
      ensures forall k :: k in data ==> r[k] == data[k]
      ensures Valid()
    {
      var insertId := nextId;
      var row := Category(insertId, data["name"].s);
      Tables.SelectNone(categories, CatId, insertId);
      Tables.AppendKeepsUnique(categories, CatId, row);
      categories := categories + [row];
      nextId := nextId + 1;
      r := map["id" := IntValue(insertId)] + data;
    }

    /** `getCategories`: one row per category, in table order, with its product count. */
    function GetCategories(products: seq<Products.Product>): (r: seq<Row>)
      reads this
      ensures |r| == |categories|
      ensures forall i :: 0 <= i < |r| ==> r[i] == CountRow(categories[i], products)
    {
      CountRows(categories, products)
    }

    /** `getCategoryById`: the rows with that id, an empty list (never null) when there is none. */
    function GetCategoryById(id: int): (r: Option<seq<Category>>)
      reads this
      ensures r.Some?
      ensures forall c :: c in r.value <==> c in categories && c.id == id
      ensures Valid() ==> |r.value| <= 1
    {
      var found := Tables.Select(categories, CatId, id);
      Tables.SelectMembers(categories, CatId, id);
      assert Valid() ==> |found| <= 1 by {
        if Valid() { Tables.UniqueSelectsOne(categories, CatId, id); }
      }
      Some(found)
    }

    /** `updateCategory(id, data)`: renames the category with that id. The service returns the whole query result; the model keeps its `affectedRows`, the matched-row count. */
    method UpdateCategory(id: int, name: string) returns (affected: nat)
      requires Valid()
      modifies this
      ensures categories == Tables.Update(old(categories), CatId, id, Rename, name)
      ensures nextId == old(nextId)
      ensures affected == |Tables.Select(old(categories), CatId, id)|
      ensures Valid()
    {
      affected := |Tables.Select(categories, CatId, id)|;
      Tables.UpdateKeepsUnique(categories, CatId, id, Rename, name);
      categories := Tables.Update(categories, CatId, id, Rename, name);
    }

    /**
     * `deleteCategory(id)`: removes the category with that id; the products
     * table is not touched, so products keep their `category_id`.
     */
    method DeleteCategory(id: int) returns (affected: nat)
      requires Valid()
      modifies this
      ensures categories == Tables.Delete(old(categories), CatId, id)
      ensures nextId == old(nextId)
      ensures affected == |Tables.Select(old(categories), CatId, id)|
      ensures Valid()
    {
      affected := |Tables.Select(categories, CatId, id)|;
      Tables.DeleteKeepsUnique(categories, CatId, id);
      DeleteKeepsIds(categories, nextId, id);
      categories := Tables.Delete(categories, CatId, id);
    }

    /** `getProductsByCategoryId(id)`: the products of that category, images normalised. */
    function GetProductsByCategoryId(id: int, products: seq<Products.Product>): (r: seq<Value>)
      ensures |r| == ProductCount(products, id)
      ensures forall i :: 0 <= i < |r| ==> r[i] == Image.WithNormalizedImage(CategoryProductRows(products, id)[i])
    {
      Image.WithNormalizedImages(Arr(CategoryProductRows(products, id)))
    }
  }

  lemma DeleteKeepsIds(categories: seq<Category>, nextId: int, id: int)
    requires IdsBelow(categories, nextId)
    ensures IdsBelow(Tables.Delete(categories, CatId, id), nextId)
  {
    var d := Tables.Delete(categories, CatId, id);
    forall i | 0 <= i < |d|
      ensures 1 <= d[i].id < nextId
    {
      assert d[i] in categories;
    }
  }

  /** `getProductsByCategoryId(id)` lists a product exactly when its `category_id` is `id`. */
  lemma ProductsByCategoryMembers(products: seq<Products.Product>, id: int, p: Products.Product)
    ensures Obj(Products.ProductRow(p)) in CategoryProductRows(products, id) <==> p in products && p.category_id == Some(id)
  {
    var found := Tables.Select(products, Products.CategoryIdOf, Some(id));
    Tables.SelectMembers(products, Products.CategoryIdOf, Some(id));
    var rows := CategoryProductRows(products, id);
    if Obj(Products.ProductRow(p)) in rows {
      var i :| 0 <= i < |rows| && rows[i] == Obj(Products.ProductRow(p));
      ProductRowInjective(found[i], p);
      assert found[i] in found;
    }
    if p in products && p.category_id == Some(id) {
      assert p in found;
      var i :| 0 <= i < |found| && found[i] == p;
      assert rows[i] == Obj(Products.ProductRow(p));
    }
  }

  /** Distinct products give distinct rows. */
  lemma ProductRowInjective(a: Products.Product, b: Products.Product)
    requires Products.ProductRow(a) == Products.ProductRow(b)
    ensures a == b
  {
    var ra := Products.ProductRow(a);
    var rb := Products.ProductRow(b);
    assert ra["id"] == rb["id"] && ra["name"] == rb["name"] && ra["price"] == rb["price"];
    assert ra["description"] == rb["description"] && ra["image_url"] == rb["image_url"];
    assert ra["category"] == rb["category"] && ra["stock"] == rb["stock"];
    assert ra["currency"] == rb["currency"] && ra["category_id"] == rb["category_id"];
    assert a.category == b.category by {
      if a.category.Some? || b.category.Some? {
        assert ra["category"] == Products.OptionalString(a.category);
      }
    }
    assert a.category_id == b.category_id by {
      if a.category_id.Some? || b.category_id.Some? {
        assert ra["category_id"] == Products.OptionalInt(a.category_id);
      }
    }
  }

  /** `product_count` is 0 exactly when no product has that `category_id`. */
  lemma CountZero(products: seq<Products.Product>, id: int)
    ensures ProductCount(products, id) == 0 <==> forall p :: p in products ==> p.category_id != Some(id)
  {
    var found := Tables.Select(products, Products.CategoryIdOf, Some(id));
    Tables.SelectMembers(products, Products.CategoryIdOf, Some(id));
    if found != [] {
      assert found[0] in found;
    }
  }

  /** Appending a product adds one to the count of its own category only. */
  lemma CountAppend(products: seq<Products.Product>, p: Products.Product, id: int)
    ensures ProductCount(products + [p], id) == ProductCount(products, id) + (if p.category_id == Some(id) then 1 else 0)
  {
    assert (products + [p])[..|products|] == products;
  }

  /** The last category matches a product exactly when its id is the product's `category_id`. */
  lemma MatchesLast(categories: seq<Category>, p: Products.Product)
    requires categories != []
    ensures Matches(categories, p) == Matches(categories[..|categories| - 1], p)
      + (if p.category_id == Some(categories[|categories| - 1].id) then 1 else 0)
  {
  }

  /** Appending a product adds one to the count of each category it belongs to. */
  lemma {:induction false} TotalCountAppend(categories: seq<Category>, products: seq<Products.Product>, p: Products.Product)
    ensures TotalCount(categories, products + [p]) == TotalCount(categories, products) + Matches(categories, p)
  {
    if categories != [] {
      var init := categories[..|categories| - 1];
      var last := categories[|categories| - 1];
      TotalCountAppend(init, products, p);
      CountAppend(products, p, last.id);
      MatchesLast(categories, p);
    }
  }

  /**
   * With unique category ids every product is counted at most once, so the
   * counts of `getCategories` add up to at most the number of products.
   */
  lemma {:induction false} TotalCountBound(categories: seq<Category>, products: seq<Products.Product>)
    requires Tables.UniqueKeys(categories, CatId)
    ensures TotalCount(categories, products) <= |products|
    decreases |products|
  {
    if products == [] {
      TotalCountEmpty(categories);
    } else {
      var init := products[..|products| - 1];
      var p := products[|products| - 1];
      TotalCountBound(categories, init);
      TotalCountAppend(categories, init, p);
      assert products == init + [p];
      if p.category_id.Some? {
        Tables.UniqueSelectsOne(categories, CatId, p.category_id.value);
      }
    }
  }

  lemma {:induction false} TotalCountEmpty(categories: seq<Category>)
    ensures TotalCount(categories, []) == 0
  {
    if categories != [] {
      TotalCountEmpty(categories[..|categories| - 1]);
    }
  }

  /** Renaming touches only the category with that id, and keeps its id. */
  lemma UpdateCategoryEffect(categories: seq<Category>, id: int, name: string)
    ensures forall i :: 0 <= i < |categories| && categories[i].id == id ==>
      Tables.Update(categories, CatId, id, Rename, name)[i] == Category(id, name)
    ensures forall i :: 0 <= i < |categories| && categories[i].id != id ==>
      Tables.Update(categories, CatId, id, Rename, name)[i] == categories[i]
    ensures Tables.Select(categories, CatId, id) == [] ==> Tables.Update(categories, CatId, id, Rename, name) == categories
  {
    if Tables.Select(categories, CatId, id) == [] {
      Tables.UpdateAbsent(categories, CatId, id, Rename, name);
    }
  }

  /**
   * Deleting a category removes only rows with that id; the product counts
   * listed for the remaining categories are unchanged, since products are
   * not touched.
   */
  lemma DeleteCategoryEffect(categories: seq<Category>, id: int, products: seq<Products.Product>)
    ensures Tables.Select(Tables.Delete(categories, CatId, id), CatId, id) == []
    ensures forall c :: c in Tables.Delete(categories, CatId, id) <==> c in categories && c.id != id
    ensures forall c :: c in Tables.Delete(categories, CatId, id) ==> CountRow(c, products) in CountRows(categories, products)
  {
    Tables.SelectAfterDeleteSame(categories, CatId, id);
    var rows := CountRows(categories, products);
    forall c | c in Tables.Delete(categories, CatId, id)
      ensures CountRow(c, products) in rows
    {
      var i :| 0 <= i < |categories| && categories[i] == c;
      assert rows[i] == CountRow(c, products);
    }
  }
}
