/** The WHERE clause of a listing: the rows that satisfy a condition, in
    their original order. */
module Filtering {

  function Where<T(!new)>(rows: seq<T>, p: T -> bool): (r: seq<T>)
    ensures |r| <= |rows|
    ensures forall i :: 0 <= i < |r| ==> p(r[i])
    ensures forall x :: x in r <==> x in rows && p(x)
  {
    if rows == [] then []
    else
      var rest := Where(rows[1..], p);
      assert forall x :: x in rows <==> x == rows[0] || x in rows[1..];
      if p(rows[0]) then [rows[0]] + rest else rest
  }

  /** A condition every row satisfies keeps the whole table. */
  lemma {:induction false} WhereAll<T(!new)>(rows: seq<T>, p: T -> bool)
    requires forall i :: 0 <= i < |rows| ==> p(rows[i])
    ensures Where(rows, p) == rows
  {
    if rows != [] {
      WhereAll(rows[1..], p);
    }
  }

  /** Two conditions that agree on every row select the same rows. */
  lemma {:induction false} WhereAgree<T(!new)>(rows: seq<T>, p: T -> bool, q: T -> bool)
    requires forall i :: 0 <= i < |rows| ==> p(rows[i]) == q(rows[i])
    ensures Where(rows, p) == Where(rows, q)
  {
    if rows != [] {
      WhereAgree(rows[1..], p, q);
    }
  }

  /** Narrowing by `p` and then by `q` selects what one condition `r`
      equal to their conjunction selects. */
  lemma {:induction false} WhereWhere<T(!new)>(rows: seq<T>, p: T -> bool, q: T -> bool, r: T -> bool)
    requires forall x :: r(x) == (p(x) && q(x))
    ensures Where(Where(rows, p), q) == Where(rows, r)
  {
    if rows != [] {
      WhereWhere(rows[1..], p, q, r);
    }
  }

  /** No row is selected exactly when no row satisfies the condition. */
  lemma WhereEmpty<T(!new)>(rows: seq<T>, p: T -> bool)
    ensures Where(rows, p) == [] <==> forall x :: x in rows ==> !p(x)
  {
    var r := Where(rows, p);
    if r != [] {
      assert r[0] in r;
    }
  }

  /** A relation that holds between every row and each later row still
      holds after narrowing: the kept rows are in their original order. */
  lemma {:induction false} WherePairwise<T(!new)>(rows: seq<T>, p: T -> bool, rel: (T, T) -> bool)
    requires forall i, j :: 0 <= i < j < |rows| ==> rel(rows[i], rows[j])
    ensures forall i, j :: 0 <= i < j < |Where(rows, p)| ==> rel(Where(rows, p)[i], Where(rows, p)[j])
  {
    if rows != [] {
      WherePairwise(rows[1..], p, rel);
      var rest := Where(rows[1..], p);
      forall x | x in rest ensures rel(rows[0], x) {
        var j :| 0 <= j < |rows[1..]| && rows[1..][j] == x;
        assert rows[j + 1] == x;
      }
      if p(rows[0]) {
        var out := [rows[0]] + rest;
        forall a, b | 0 <= a < b < |out| ensures rel(out[a], out[b]) {
          if a == 0 {
            assert out[b] == rest[b - 1] && rest[b - 1] in rest;
          } else {
            assert out[a] == rest[a - 1] && out[b] == rest[b - 1];
            assert rel(rest[a - 1], rest[b - 1]);
          }
        }
      }
    }
  }
}
