/** The ORDER BY of the listings: one key, ascending or descending.
    Numbers compare numerically and texts character by character, by
    code and case-sensitively (a binary collation; a database with a
    case-insensitive collation orders texts differently). NULL comes
    before every value (the SQLite and MySQL convention).
    Rows with equal keys keep their relative input order here; the database
    leaves that order unspecified. */
module Sorting {

  /** The value of the sort column in one row. */
  datatype SortKey = Null | Num(n: int) | Str(s: string)

  /** Lexicographic order on character codes. */
  predicate StrLe(a: string, b: string) {
    a == [] || (b != [] && (a[0] < b[0] || (a[0] == b[0] && StrLe(a[1..], b[1..]))))
  }

  lemma {:induction false} StrLeTotal(a: string, b: string)
    ensures StrLe(a, b) || StrLe(b, a)
  {
    if a != [] && b != [] && a[0] == b[0] {
      StrLeTotal(a[1..], b[1..]);
    }
  }

  lemma {:induction false} StrLeTrans(a: string, b: string, c: string)
    requires StrLe(a, b) && StrLe(b, c)
    ensures StrLe(a, c)
  {
    if a != [] && b != [] && c != [] && a[0] == b[0] == c[0] {
      StrLeTrans(a[1..], b[1..], c[1..]);
    }
  }

  /** The ascending order of ORDER BY on one column. */
  predicate KeyLe(a: SortKey, b: SortKey) {
    match (a, b)
    case (Null, _) => true
    case (_, Null) => false
    case (Num(x), Num(y)) => x <= y
    case (Num(_), Str(_)) => true
    case (Str(_), Num(_)) => false
    case (Str(x), Str(y)) => StrLe(x, y)
  }

  /** `a` may come before `b` in the requested direction. */
  predicate Ordered(a: SortKey, b: SortKey, desc: bool) {
    if desc then KeyLe(b, a) else KeyLe(a, b)
  }

  lemma OrderedTotal(a: SortKey, b: SortKey, desc: bool)
    ensures Ordered(a, b, desc) || Ordered(b, a, desc)
  {
    if a.Str? && b.Str? {
      StrLeTotal(a.s, b.s);
    }
  }

  lemma OrderedTrans(a: SortKey, b: SortKey, c: SortKey, desc: bool)
    requires Ordered(a, b, desc) && Ordered(b, c, desc)
    ensures Ordered(a, c, desc)
  {
    if a.Str? && b.Str? && c.Str? {
      if desc {
        StrLeTrans(c.s, b.s, a.s);
      } else {
        StrLeTrans(a.s, b.s, c.s);
      }
    }
  }

  /** Every earlier row may come before every later one. */
  predicate SortedBy<T>(s: seq<T>, key: T -> SortKey, desc: bool) {
    forall i, j :: 0 <= i < j < |s| ==> Ordered(key(s[i]), key(s[j]), desc)
  }

  /** Places `x` in front of the first row it may come before. */
  function Insert<T(==)>(x: T, s: seq<T>, key: T -> SortKey, desc: bool): (r: seq<T>)
    ensures multiset(r) == multiset(s) + multiset{x}
  {
    if s == [] then [x]
    else if Ordered(key(x), key(s[0]), desc) then [x] + s
    else
      assert s == [s[0]] + s[1..];
      [s[0]] + Insert(x, s[1..], key, desc)
  }

  lemma {:induction false} InsertSorted<T>(x: T, s: seq<T>, key: T -> SortKey, desc: bool)
    requires SortedBy(s, key, desc)
    ensures SortedBy(Insert(x, s, key, desc), key, desc)
  {
    if s == [] {
    } else if Ordered(key(x), key(s[0]), desc) {
      forall y | y in s ensures Ordered(key(x), key(y), desc) {
        var k :| 0 <= k < |s| && s[k] == y;
        if k > 0 {
          OrderedTrans(key(x), key(s[0]), key(y), desc);
        }
      }
      ConsSorted(x, s, key, desc);
    } else {
      OrderedTotal(key(x), key(s[0]), desc);
      InsertSorted(x, s[1..], key, desc);
      var t := Insert(x, s[1..], key, desc);
      forall y | y in t ensures Ordered(key(s[0]), key(y), desc) {
        assert y in multiset(t);
        if y != x {
          assert y in multiset(s[1..]);
          var k :| 0 <= k < |s[1..]| && s[1..][k] == y;
          assert s[k + 1] == y;
        }
      }
      ConsSorted(s[0], t, key, desc);
    }
  }

  /** A row that may come before every row of a sorted list may head it. */
  lemma ConsSorted<T>(h: T, t: seq<T>, key: T -> SortKey, desc: bool)
    requires SortedBy(t, key, desc)
    requires forall y :: y in t ==> Ordered(key(h), key(y), desc)
    ensures SortedBy([h] + t, key, desc)
  {
    var r := [h] + t;
    forall i, j | 0 <= i < j < |r| ensures Ordered(key(r[i]), key(r[j]), desc) {
      if i == 0 {
        assert r[j] == t[j - 1] && r[j] in t;
      } else {
        assert r[i] == t[i - 1] && r[j] == t[j - 1];
      }
    }
  }

  /** ORDER BY `key`: a sorted permutation of the rows. */
  function SortBy<T(==)>(s: seq<T>, key: T -> SortKey, desc: bool): (r: seq<T>)
    ensures multiset(r) == multiset(s)
    ensures SortedBy(r, key, desc)
  {
    if s == [] then []
    else
      var t := SortBy(s[1..], key, desc);
      InsertSorted(s[0], t, key, desc);
      assert s == [s[0]] + s[1..];
      Insert(s[0], t, key, desc)
  }

  /** Sorting keeps the length and the rows. */
  lemma SortByKeeps<T>(s: seq<T>, key: T -> SortKey, desc: bool)
    ensures |SortBy(s, key, desc)| == |s|
    ensures forall x :: x in SortBy(s, key, desc) <==> x in s
  {
    var r := SortBy(s, key, desc);
    assert |multiset(r)| == |r| && |multiset(s)| == |s|;
    forall x ensures x in r <==> x in s {
      assert x in r <==> x in multiset(r);
      assert x in s <==> x in multiset(s);
    }
  }
}
