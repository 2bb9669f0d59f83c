/**
 * The favorites table and `FavoritesService` (backend/src/services/favorites.service.ts).
 * Favorites are (user, product) rows with no uniqueness: `addFavorite` always
 * inserts and `removeFavorite` deletes every matching row.
 */
module Favorites {
  import opened Wrappers
  import opened Js
  import Tables
  import Image
  import Products
  import Categories

  datatype Favorite = Favorite(id: int, user_id: int, product_id: int)

  function PairKey(f: Favorite): (int, int) { (f.user_id, f.product_id) }

  function UserOf(f: Favorite): int { f.user_id }

  datatype FavoritesTable = FavoritesTable(rows: seq<Favorite>, nextId: int)

  /** What `addFavorite` returns: `{ id: insertId, user_id, product_id }`. */
  datatype AddedFavorite = AddedFavorite(id: int, user_id: int, product_id: int)

  /** The table after `addFavorite(u, p)`: one more row under the next id, whatever is already there. */
  function FavoriteAdded(t: FavoritesTable, u: int, p: int): FavoritesTable {
    FavoritesTable(t.rows + [Favorite(t.nextId, u, p)], t.nextId + 1)
  }

  /** The table after `removeFavorite(u, p)`: every row of the pair deleted. */
  function FavoriteRemoved(t: FavoritesTable, u: int, p: int): FavoritesTable {
    FavoritesTable(Tables.Delete(t.rows, PairKey, (u, p)), t.nextId)
  }

  /** `c.name` of the LEFT JOIN on `c.id = p.category_id`: null when there is no such category. */
  function CategoryName(categories: seq<Categories.Category>, categoryId: Option<int>): (v: Value)
    ensures v.Null? || v.Str?
    ensures v.Str? ==> exists c :: c in categories && Some(c.id) == categoryId && v == Str(c.name)
  {
    if categoryId.None? then Null
    else
      var found := Tables.Select(categories, Categories.CatId, categoryId.value);
      if found == [] then Null
      else
        Tables.SelectMembers(categories, Categories.CatId, categoryId.value);
        assert found[0] in found;
        Str(found[0].name)
  }

  /** `SELECT p.*, c.name AS category`: the product row with `category` replaced by the category's name. */
  function FavoriteRow(p: Products.Product, categories: seq<Categories.Category>): Row {
    Products.ProductRow(p)["category" := CategoryName(categories, p.category_id)]
  }

  /** `INNER JOIN favorites f ON f.product_id = p.id` for one favorite: a row per matching product. */
  function JoinFavorite(f: Favorite, products: seq<Products.Product>, categories: seq<Categories.Category>): (r: seq<Row>)
    ensures |r| == |Tables.Select(products, Products.IdOf, f.product_id)|
  {
    Tables.Project(Tables.Select(products, Products.IdOf, f.product_id), p => FavoriteRow(p, categories))
  }

  /** `WHERE f.user_id = ? ORDER BY f.created_at DESC`: the user's favorites, newest first. */
  function FavoriteRows(rows: seq<Favorite>, u: int, products: seq<Products.Product>, categories: seq<Categories.Category>): seq<Row> {
    if rows == [] then []
    else
      var last := rows[|rows| - 1];
      (if last.user_id == u then JoinFavorite(last, products, categories) else [])
        + FavoriteRows(rows[..|rows| - 1], u, products, categories)
  }

  predicate IdsBelow(rows: seq<Favorite>, nextId: int) {
    forall i :: 0 <= i < |rows| ==> 1 <= rows[i].id < nextId
  }

  class FavoritesService {
    var rows: seq<Favorite>
    var nextId: int

    function Table(): FavoritesTable
      reads this
    {
      FavoritesTable(rows, nextId)
    }

    predicate Valid()
      reads this
    {
      nextId >= 1 && IdsBelow(rows, nextId)
    }

    /** The service over a favorites table in the given state. */
    constructor (initial: seq<Favorite>, next: int)
      requires next >= 1 && IdsBelow(initial, next)
      ensures rows == initial && nextId == next && Valid()
    {
      rows := initial;
      nextId := next;
    }

    /** `getFavorites(u)`: the user's favorite products, newest first, images normalised. */
    function GetFavorites(u: int, products: seq<Products.Product>, categories: seq<Categories.Category>): (r: seq<Value>)
      reads this
      ensures |r| == |FavoriteRows(rows, u, products, categories)|
      ensures forall i :: 0 <= i < |r| ==> r[i] == Image.WithNormalizedImage(Obj(FavoriteRows(rows, u, products, categories)[i]))
    {
      var joined := FavoriteRows(rows, u, products, categories);
      Image.WithNormalizedImages(Arr(seq(|joined|, i requires 0 <= i < |joined| => Obj(joined[i]))))
    }

    /** `addFavorite(u, p)`: INSERT without looking for an existing row. */
    method AddFavorite(u: int, p: int) returns (r: AddedFavorite)
      requires Valid()
      modifies this
      ensures Table() == FavoriteAdded(old(Table()), u, p)
      ensures r == AddedFavorite(old(nextId), u, p)
      ensures Valid()
    {
      var insertId := nextId;
      rows := rows + [Favorite(insertId, u, p)];
      nextId := nextId + 1;
      r := AddedFavorite(insertId, u, p);
    }

    /** `removeFavorite(u, p)`: DELETE every row of the pair; `removed` is `affectedRows > 0`. */
    method RemoveFavorite(u: int, p: int) returns (removed: bool)
      requires Valid()
      modifies this
      ensures Table() == FavoriteRemoved(old(Table()), u, p)
      ensures removed <==> Tables.Select(old(rows), PairKey, (u, p)) != []
      ensures Valid()
    {
      var affected := |Tables.Select(rows, PairKey, (u, p))|;
      DeleteKeepsIds(rows, nextId, (u, p));
      rows := Tables.Delete(rows, PairKey, (u, p));
      removed := affected > 0;
    }
  }

  lemma DeleteKeepsIds(rows: seq<Favorite>, nextId: int, k: (int, int))
    requires IdsBelow(rows, nextId)
    ensures IdsBelow(Tables.Delete(rows, PairKey, k), nextId)
  {
    var d := Tables.Delete(rows, PairKey, k);
    forall i | 0 <= i < |d|
      ensures 1 <= d[i].id < nextId
    {
      assert d[i] in rows;
    }
  }

  /**
   * `addFavorite` has no duplicate guard: the pair gains exactly one row, the
   * fresh one, even when it already had some, and no other pair changes.
   */
  lemma AddAlwaysInserts(t: FavoritesTable, u: int, p: int)
    ensures Tables.Select(FavoriteAdded(t, u, p).rows, PairKey, (u, p)) == Tables.Select(t.rows, PairKey, (u, p)) + [Favorite(t.nextId, u, p)]
    ensures |FavoriteAdded(t, u, p).rows| == |t.rows| + 1
    ensures Tables.SameElsewhere(FavoriteAdded(t, u, p).rows, t.rows, PairKey, (u, p))
  {
    Tables.SelectAfterAppend(t.rows, PairKey, Favorite(t.nextId, u, p));
  }

  /**
   * `removeFavorite` deletes every row of the pair, as many as there were,
   * leaves the table as it was when there were none, and no other pair changes.
   */
  lemma RemoveDeletesAll(t: FavoritesTable, u: int, p: int)
    ensures Tables.Select(FavoriteRemoved(t, u, p).rows, PairKey, (u, p)) == []
    ensures |FavoriteRemoved(t, u, p).rows| == |t.rows| - |Tables.Select(t.rows, PairKey, (u, p))|
    ensures Tables.Select(t.rows, PairKey, (u, p)) == [] ==> FavoriteRemoved(t, u, p) == t
    ensures Tables.SameElsewhere(FavoriteRemoved(t, u, p).rows, t.rows, PairKey, (u, p))
  {
    Tables.SelectAfterDeleteSame(t.rows, PairKey, (u, p));
    Tables.DeleteSize(t.rows, PairKey, (u, p));
    if Tables.Select(t.rows, PairKey, (u, p)) == [] {
      Tables.DeleteAbsent(t.rows, PairKey, (u, p));
    }
    Tables.DeleteElsewhere(t.rows, PairKey, (u, p));
  }

  /** Adding a pair twice and removing it once leaves no row of the pair. */
  lemma AddTwiceRemoveOnce(t: FavoritesTable, u: int, p: int)
    ensures |Tables.Select(FavoriteAdded(FavoriteAdded(t, u, p), u, p).rows, PairKey, (u, p))| >= 2
    ensures Tables.Select(FavoriteRemoved(FavoriteAdded(FavoriteAdded(t, u, p), u, p), u, p).rows, PairKey, (u, p)) == []
  {
    AddAlwaysInserts(t, u, p);
    AddAlwaysInserts(FavoriteAdded(t, u, p), u, p);
    RemoveDeletesAll(FavoriteAdded(FavoriteAdded(t, u, p), u, p), u, p);
  }

  /** The joined rows of one favorite are the rows of the products with its product id. */
  lemma JoinFavoriteMembers(f: Favorite, products: seq<Products.Product>, categories: seq<Categories.Category>, r: Row)
    ensures r in JoinFavorite(f, products, categories) <==>
      exists p :: p in products && p.id == f.product_id && r == FavoriteRow(p, categories)
  {
    var found := Tables.Select(products, Products.IdOf, f.product_id);
    Tables.SelectMembers(products, Products.IdOf, f.product_id);
    Tables.ProjectMembers(found, p => FavoriteRow(p, categories), r);
  }

  /**
   * `getFavorites(u)` yields a row exactly when it is a joined row of one of
   * the favorites of `u`; favorites of other users never appear.
   */
  lemma {:induction false} FavoriteRowsMembers(rows: seq<Favorite>, u: int, products: seq<Products.Product>,
                                               categories: seq<Categories.Category>, r: Row)
    ensures r in FavoriteRows(rows, u, products, categories) <==>
      exists f :: f in rows && f.user_id == u && r in JoinFavorite(f, products, categories)
  {
    if rows != [] {
      var init := rows[..|rows| - 1];
      var last := rows[|rows| - 1];
      var head := if last.user_id == u then JoinFavorite(last, products, categories) else [];
      assert rows == init + [last];
      assert FavoriteRows(rows, u, products, categories) == head + FavoriteRows(init, u, products, categories);
      FavoriteRowsMembers(init, u, products, categories, r);
      if r in head {
        assert last in rows;
      } else if r in FavoriteRows(init, u, products, categories) {
        var f :| f in init && f.user_id == u && r in JoinFavorite(f, products, categories);
        assert f in rows;
      }
      if exists f :: f in rows && f.user_id == u && r in JoinFavorite(f, products, categories) {
        var f :| f in rows && f.user_id == u && r in JoinFavorite(f, products, categories);
        if f != last {
          assert f in init;
        }
      }
    }
  }

  /**
   * Newest first, and duplicates repeat: a favorite added last is listed
   * before all older ones, adding one row per product with its id.
   */
  lemma NewestFirst(rows: seq<Favorite>, f: Favorite, products: seq<Products.Product>, categories: seq<Categories.Category>)
    ensures FavoriteRows(rows + [f], f.user_id, products, categories)
      == JoinFavorite(f, products, categories) + FavoriteRows(rows, f.user_id, products, categories)
    ensures |FavoriteRows(rows + [f], f.user_id, products, categories)|
      == |FavoriteRows(rows, f.user_id, products, categories)| + |Tables.Select(products, Products.IdOf, f.product_id)|
  {
    assert (rows + [f])[..|rows|] == rows;
  }

  /** The `category` of a row is the name of the product's category, or null when it has none or it is gone. */
  lemma CategoryNameCases(categories: seq<Categories.Category>, id: int)
    ensures CategoryName(categories, None) == Null
    ensures Tables.Select(categories, Categories.CatId, id) == [] <==> CategoryName(categories, Some(id)) == Null
    ensures CategoryName(Tables.Delete(categories, Categories.CatId, id), Some(id)) == Null
  {
    Tables.SelectAfterDeleteSame(categories, Categories.CatId, id);
  }
}
