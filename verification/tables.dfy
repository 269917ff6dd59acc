/** Generic queries over a table held as a sequence of rows in insertion order. */
module Tables {
  import opened Wrappers

  /** The ids of a table: positive, strictly ascending in insertion order,
      and never above `last`, the largest id the table has handed out. */
  predicate IdsAscending<T>(rows: seq<T>, id: T -> int, last: int) {
    && (forall i, j :: 0 <= i < j < |rows| ==> id(rows[i]) < id(rows[j]))
    && (forall i :: 0 <= i < |rows| ==> 1 <= id(rows[i]) <= last)
  }

  /** The first row satisfying `p`, as a single-row SELECT returns it. */
  function Find<T(==)>(rows: seq<T>, p: T -> bool): (r: Option<T>)
    ensures r.Some? <==> exists i :: 0 <= i < |rows| && p(rows[i])
    ensures r.Some? ==> exists i :: 0 <= i < |rows| && rows[i] == r.value && p(rows[i])
                                    && forall j :: 0 <= j < i ==> !p(rows[j])
  {
    if rows == [] then None
    else if p(rows[0]) then Some(rows[0])
    else
      Find(rows[1..], p)
  }

  /** The rows whose owner is `uid`, in insertion order: the `WHERE user_id = ?` filter. */
  function Owned<T(==,!new)>(rows: seq<T>, owner: T -> int, uid: int): (r: seq<T>)
    ensures |r| <= |rows|
    ensures forall x :: x in r <==> x in rows && owner(x) == uid
  {
    if rows == [] then []
    else
      var front := rows[..|rows| - 1];
      var last := rows[|rows| - 1];
      assert rows == front + [last];
      Owned(front, owner, uid) + (if owner(last) == uid then [last] else [])
  }

  /** Appending a row extends the filtered view of its owner by exactly that
      row and leaves every other owner's view as it was. */
  lemma OwnedAppend<T(!new)>(rows: seq<T>, x: T, owner: T -> int, uid: int)
    ensures Owned(rows + [x], owner, uid) == Owned(rows, owner, uid) + (if owner(x) == uid then [x] else [])
  {
  }

  /** Filtering keeps the ids ascending, so the view lists rows in insertion order. */
  lemma {:induction false} OwnedAscending<T(!new)>(rows: seq<T>, id: T -> int, last: int, owner: T -> int, uid: int)
    requires IdsAscending(rows, id, last)
    ensures IdsAscending(Owned(rows, owner, uid), id, last)
  {
    if rows != [] {
      var front := rows[..|rows| - 1];
      var x := rows[|rows| - 1];
      OwnedAscending(front, id, last, owner, uid);
      var r := Owned(front, owner, uid);
      forall k | 0 <= k < |r|
        ensures id(r[k]) < id(x)
      {
        assert r[k] in front;
        var i :| 0 <= i < |front| && front[i] == r[k];
        assert rows[i] == r[k];
      }
    }
  }
}
