/** The two SQLite tables of the application as in-memory sequences of rows,
    and the one query shape the handlers run on them:
    SELECT * FROM table WHERE column = value, which yields the matching rows in
    table order. */
module Tables {

  /** The rows of `rows` that satisfy `where`, in table order. */
  function Select<T(!new)>(rows: seq<T>, where: T -> bool): (r: seq<T>)
    ensures |r| <= |rows|
    ensures forall x :: x in r <==> x in rows && where(x)
  {
    if rows == [] then []
    else
      var last := rows[|rows| - 1];
      Select(rows[..|rows| - 1], where) + (if where(last) then [last] else [])
  }

  /** Appending a row to a table appends it to every query it matches and to
      no other. */
  lemma SelectAppend<T(!new)>(rows: seq<T>, x: T, where: T -> bool)
    ensures Select(rows + [x], where) == Select(rows, where) + (if where(x) then [x] else [])
  {
    assert (rows + [x])[..|rows|] == rows;
  }

  /** A query that no row matches returns nothing. */
  lemma {:induction false} SelectNone<T(!new)>(rows: seq<T>, where: T -> bool)
    requires forall j :: 0 <= j < |rows| ==> !where(rows[j])
    ensures Select(rows, where) == []
  {
    if rows != [] {
      SelectNone(rows[..|rows| - 1], where);
    }
  }

  /** `i` is the first row of `rows` that `where` selects. */
  ghost predicate IsFirst<T>(rows: seq<T>, where: T -> bool, i: nat) {
    i < |rows| && where(rows[i]) && forall j :: 0 <= j < i ==> !where(rows[j])
  }

  /** A query returns something exactly when some row matches. */
  lemma SelectNonEmptyIff<T(!new)>(rows: seq<T>, where: T -> bool)
    ensures Select(rows, where) != [] <==> exists x :: x in rows && where(x)
  {
    if Select(rows, where) != [] {
      assert Select(rows, where)[0] in Select(rows, where);
    }
  }

  /** The first row of a query's result is the first matching row of the
      table: `result[0]` in the handlers. */
  lemma {:induction false} SelectHeadIsFirst<T(!new)>(rows: seq<T>, where: T -> bool, i: nat)
    requires IsFirst(rows, where, i)
    ensures Select(rows, where) != [] && Select(rows, where)[0] == rows[i]
  {
    var init := rows[..|rows| - 1];
    if i == |rows| - 1 {
      SelectNone(init, where);
    } else {
      SelectHeadIsFirst(init, where, i);
    }
  }
}
