/**
 * A database table as a sequence of rows in insertion order, and the three
 * single-statement queries the services issue against it:
 * `SELECT ... WHERE key = k`, `UPDATE ... WHERE key = k` and
 * `DELETE ... WHERE key = k`. The key is a column (or a pair of columns)
 * given by a function on rows. Every statement acts on ALL matching rows;
 * the number of matching rows is the `affectedRows` mysql2 reports, whose
 * connections count matched rather than changed rows by default.
 */
module Tables {

  /** `SELECT * WHERE key = k`, in table order. */
  function Select<T(!new), K(==)>(rows: seq<T>, key: T -> K, k: K): (r: seq<T>)
    ensures |r| <= |rows|
  {
    if rows == [] then []
    else
      var last := rows[|rows| - 1];
      Select(rows[..|rows| - 1], key, k) + (if key(last) == k then [last] else [])
  }

  /** The select list: `f` applied to each row, in table order. */
  function Project<T, U>(rows: seq<T>, f: T -> U): (r: seq<U>)
    ensures |r| == |rows|
    ensures forall i :: 0 <= i < |rows| ==> r[i] == f(rows[i])
  {
    seq(|rows|, i requires 0 <= i < |rows| => f(rows[i]))
  }

  /** A projected row is the image of some row. */
  lemma ProjectMembers<T, U>(rows: seq<T>, f: T -> U, y: U)
    ensures y in Project(rows, f) <==> exists x :: x in rows && y == f(x)
  {
    var r := Project(rows, f);
    if exists x :: x in rows && y == f(x) {
      var x :| x in rows && y == f(x);
      var i :| 0 <= i < |rows| && rows[i] == x;
      assert r[i] == y;
    }
    if y in r {
      var i :| 0 <= i < |r| && r[i] == y;
      assert rows[i] in rows;
    }
  }

  /** A row is selected exactly when it is in the table and has the key. */
  lemma {:induction false} SelectMembers<T(!new), K>(rows: seq<T>, key: T -> K, k: K)
    ensures forall x :: x in Select(rows, key, k) <==> x in rows && key(x) == k
  {
    if rows != [] {
      var init := rows[..|rows| - 1];
      var last := rows[|rows| - 1];
      SelectMembers(init, key, k);
      assert rows == init + [last];
    }
  }

  /** `DELETE WHERE key = k`: the rows left, in table order. */
  function Delete<T(!new), K(==)>(rows: seq<T>, key: T -> K, k: K): (r: seq<T>)
    ensures |r| <= |rows|
    ensures forall x :: x in r <==> x in rows && key(x) != k
  {
    if rows == [] then []
    else
      var last := rows[|rows| - 1];
      Delete(rows[..|rows| - 1], key, k) + (if key(last) != k then [last] else [])
  }

  /** `UPDATE SET ... WHERE key = k`: each matching row goes through `assign` with argument `a`. */
  function Update<T(!new), K(==), A>(rows: seq<T>, key: T -> K, k: K, assign: (T, A) -> T, a: A): (r: seq<T>)
    ensures |r| == |rows|
    ensures forall i :: 0 <= i < |rows| && key(rows[i]) != k ==> r[i] == rows[i]
    ensures forall i :: 0 <= i < |rows| && key(rows[i]) == k ==> r[i] == assign(rows[i], a)
  {
    seq(|rows|, i requires 0 <= i < |rows| => if key(rows[i]) == k then assign(rows[i], a) else rows[i])
  }

  /** `assign` never changes the key column. */
  ghost predicate KeepsKey<T(!new), K, A>(key: T -> K, assign: (T, A) -> T, a: A) {
    forall x :: key(assign(x, a)) == key(x)
  }

  /** No two rows share a key: the table's uniqueness invariant. */
  predicate UniqueKeys<T(!new), K(==)>(rows: seq<T>, key: T -> K) {
    forall i, j :: 0 <= i < j < |rows| ==> key(rows[i]) != key(rows[j])
  }

  /** Each row in the result of `assign` over a whole selection. */
  function AssignAll<T(!new), A>(rows: seq<T>, assign: (T, A) -> T, a: A): (r: seq<T>)
    ensures |r| == |rows|
    ensures forall i :: 0 <= i < |rows| ==> r[i] == assign(rows[i], a)
  {
    seq(|rows|, i requires 0 <= i < |rows| => assign(rows[i], a))
  }

  lemma UpdatePrefix<T(!new), K, A>(rows: seq<T>, key: T -> K, k: K, assign: (T, A) -> T, a: A)
    requires rows != []
    ensures Update(rows, key, k, assign, a)[..|rows| - 1] == Update(rows[..|rows| - 1], key, k, assign, a)
  {
  }

  /** Deleting a key that no row has leaves the table as it was. */
  lemma {:induction false} DeleteAbsent<T(!new), K>(rows: seq<T>, key: T -> K, k: K)
    requires Select(rows, key, k) == []
    ensures Delete(rows, key, k) == rows
  {
    if rows != [] {
      var init := rows[..|rows| - 1];
      var last := rows[|rows| - 1];
      assert Select(rows, key, k) == Select(init, key, k) + (if key(last) == k then [last] else []);
      assert key(last) != k && Select(init, key, k) == [];
      DeleteAbsent(init, key, k);
      assert Delete(rows, key, k) == Delete(init, key, k) + [last];
      assert rows == init + [last];
    }
  }

  /** A delete removes exactly the selected rows: `affectedRows` is the selection's size. */
  lemma {:induction false} DeleteSize<T(!new), K>(rows: seq<T>, key: T -> K, k: K)
    ensures |Delete(rows, key, k)| == |rows| - |Select(rows, key, k)|
  {
    if rows != [] {
      DeleteSize(rows[..|rows| - 1], key, k);
    }
  }

  /** Rows with another key keep their selection, in order, after a delete. */
  lemma {:induction false} SelectAfterDelete<T(!new), K>(rows: seq<T>, key: T -> K, k: K, other: K)
    requires other != k
    ensures Select(Delete(rows, key, k), key, other) == Select(rows, key, other)
  {
    if rows != [] {
      var init := rows[..|rows| - 1];
      var last := rows[|rows| - 1];
      SelectAfterDelete(init, key, k, other);
      var d := Delete(init, key, k);
      if key(last) != k {
        assert Delete(rows, key, k) == d + [last];
        assert (d + [last])[..|d + [last]| - 1] == d;
      } else {
        assert Delete(rows, key, k) == d;
      }
    }
  }

  /** Updating a key that no row has leaves the table as it was. */
  lemma UpdateAbsent<T(!new), K, A>(rows: seq<T>, key: T -> K, k: K, assign: (T, A) -> T, a: A)
    requires Select(rows, key, k) == []
    ensures Update(rows, key, k, assign, a) == rows
  {
    SelectMembers(rows, key, k);
    forall i | 0 <= i < |rows|
      ensures key(rows[i]) != k
    {
      assert rows[i] in rows;
    }
  }

  /** An update leaves every row of another key where it was: the rest of the table is unchanged. */
  lemma {:induction false} DeleteAfterUpdate<T(!new), K, A>(rows: seq<T>, key: T -> K, k: K, assign: (T, A) -> T, a: A)
    requires KeepsKey(key, assign, a)
    ensures Delete(Update(rows, key, k, assign, a), key, k) == Delete(rows, key, k)
  {
    if rows != [] {
      var init := rows[..|rows| - 1];
      var u := Update(rows, key, k, assign, a);
      UpdatePrefix(rows, key, k, assign, a);
      DeleteAfterUpdate(init, key, k, assign, a);
      assert u[..|u| - 1] == Update(init, key, k, assign, a);
    }
  }

  /** The rows an update selects are the old selection, each put through `assign`. */
  lemma {:induction false} SelectAfterUpdate<T(!new), K, A>(rows: seq<T>, key: T -> K, k: K, assign: (T, A) -> T, a: A)
    requires KeepsKey(key, assign, a)
    ensures Select(Update(rows, key, k, assign, a), key, k) == AssignAll(Select(rows, key, k), assign, a)
  {
    if rows != [] {
      var init := rows[..|rows| - 1];
      var last := rows[|rows| - 1];
      var u := Update(rows, key, k, assign, a);
      UpdatePrefix(rows, key, k, assign, a);
      SelectAfterUpdate(init, key, k, assign, a);
      assert u[..|u| - 1] == Update(init, key, k, assign, a);
      var s := Select(init, key, k);
      if key(last) == k {
        assert AssignAll(s + [last], assign, a) == AssignAll(s, assign, a) + [assign(last, a)];
      }
    }
  }

  /** Under unique keys a selection has at most one row. */
  lemma {:induction false} UniqueSelectsOne<T(!new), K>(rows: seq<T>, key: T -> K, k: K)
    requires UniqueKeys(rows, key)
    ensures |Select(rows, key, k)| <= 1
  {
    if rows != [] {
      var init := rows[..|rows| - 1];
      var last := rows[|rows| - 1];
      UniqueSelectsOne(init, key, k);
      if key(last) == k {
        forall i | 0 <= i < |init|
          ensures key(init[i]) != k
        {
          assert init[i] == rows[i];
        }
        SelectNone(init, key, k);
      }
    }
  }

  /** No row has the key: the selection is empty. */
  lemma {:induction false} SelectNone<T(!new), K>(rows: seq<T>, key: T -> K, k: K)
    requires forall i :: 0 <= i < |rows| ==> key(rows[i]) != k
    ensures Select(rows, key, k) == []
  {
    if rows != [] {
      var init := rows[..|rows| - 1];
      forall i | 0 <= i < |init|
        ensures key(init[i]) != k
      {
        assert init[i] == rows[i];
      }
      SelectNone(init, key, k);
    }
  }

  /** Appending a row whose key is absent keeps the keys unique. */
  lemma AppendKeepsUnique<T(!new), K>(rows: seq<T>, key: T -> K, x: T)
    requires UniqueKeys(rows, key) && Select(rows, key, key(x)) == []
    ensures UniqueKeys(rows + [x], key)
  {
    SelectMembers(rows, key, key(x));
    forall i | 0 <= i < |rows|
      ensures key(rows[i]) != key(x)
    {
      assert rows[i] in rows;
    }
  }

  /** A delete keeps the keys unique. */
  lemma {:induction false} DeleteKeepsUnique<T(!new), K>(rows: seq<T>, key: T -> K, k: K)
    requires UniqueKeys(rows, key)
    ensures UniqueKeys(Delete(rows, key, k), key)
  {
    if rows != [] {
      var init := rows[..|rows| - 1];
      var last := rows[|rows| - 1];
      DeleteKeepsUnique(init, key, k);
      var d := Delete(init, key, k);
      if key(last) != k {
        forall i | 0 <= i < |d|
          ensures key(d[i]) != key(last)
        {
          assert d[i] in init;
          var j :| 0 <= j < |init| && init[j] == d[i];
          assert rows[j] == d[i];
        }
      }
    }
  }

  /** An update that keeps keys keeps them unique. */
  lemma UpdateKeepsUnique<T(!new), K, A>(rows: seq<T>, key: T -> K, k: K, assign: (T, A) -> T, a: A)
    requires UniqueKeys(rows, key) && KeepsKey(key, assign, a)
    ensures UniqueKeys(Update(rows, key, k, assign, a), key)
  {
  }

  /** Every other key selects the same rows in `a` as in `b`: the rest of the table is untouched. */
  ghost predicate SameElsewhere<T(!new), K(!new)>(a: seq<T>, b: seq<T>, key: T -> K, k: K) {
    forall other :: other != k ==> Select(a, key, other) == Select(b, key, other)
  }

  /** An update leaves the selection of every other key as it was. */
  lemma {:induction false} SelectOtherAfterUpdate<T(!new), K, A>(rows: seq<T>, key: T -> K, k: K, assign: (T, A) -> T, a: A, other: K)
    requires KeepsKey(key, assign, a) && other != k
    ensures Select(Update(rows, key, k, assign, a), key, other) == Select(rows, key, other)
  {
    if rows != [] {
      var init := rows[..|rows| - 1];
      var u := Update(rows, key, k, assign, a);
      UpdatePrefix(rows, key, k, assign, a);
      SelectOtherAfterUpdate(init, key, k, assign, a, other);
      assert u[..|u| - 1] == Update(init, key, k, assign, a);
    }
  }

  lemma UpdateElsewhere<T(!new), K(!new), A>(rows: seq<T>, key: T -> K, k: K, assign: (T, A) -> T, a: A)
    requires KeepsKey(key, assign, a)
    ensures SameElsewhere(Update(rows, key, k, assign, a), rows, key, k)
  {
    forall other | other != k
      ensures Select(Update(rows, key, k, assign, a), key, other) == Select(rows, key, other)
    {
      SelectOtherAfterUpdate(rows, key, k, assign, a, other);
    }
  }

  lemma DeleteElsewhere<T(!new), K(!new)>(rows: seq<T>, key: T -> K, k: K)
    ensures SameElsewhere(Delete(rows, key, k), rows, key, k)
  {
    forall other | other != k
      ensures Select(Delete(rows, key, k), key, other) == Select(rows, key, other)
    {
      SelectAfterDelete(rows, key, k, other);
    }
  }

  /** Appending a row adds it at the end of its own key's selection and nowhere else. */
  lemma SelectAfterAppend<T(!new), K(!new)>(rows: seq<T>, key: T -> K, x: T)
    ensures Select(rows + [x], key, key(x)) == Select(rows, key, key(x)) + [x]
    ensures SameElsewhere(rows + [x], rows, key, key(x))
  {
    assert (rows + [x])[..|rows|] == rows;
  }

  /** After a delete nothing with the deleted key is left. */
  lemma SelectAfterDeleteSame<T(!new), K>(rows: seq<T>, key: T -> K, k: K)
    ensures Select(Delete(rows, key, k), key, k) == []
  {
    var d := Delete(rows, key, k);
    forall i | 0 <= i < |d|
      ensures key(d[i]) != k
    {
      assert d[i] in d;
    }
    SelectNone(d, key, k);
  }
}
