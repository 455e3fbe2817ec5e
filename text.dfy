/** The string operations the views apply to request values: Python's
    `strip`, `lstrip(c)`, `lower`, `startswith`, `split(sep)`, `isdigit` and
    `int(...)`, and the ORM's `icontains` and `iexact` lookups. Case folding
    and white space are those of ASCII. */
module Text {
  import opened Base

  /** Python's `str.isspace` on the ASCII range: space, \t \n \v \f \r and
      the four separators \x1c to \x1f. */
  predicate IsSpace(c: char) {
    c == ' ' || (9 <= c as int <= 13) || (28 <= c as int <= 31)
  }

  predicate AllSpace(s: string) {
    forall i :: 0 <= i < |s| ==> IsSpace(s[i])
  }

  /** `s.lstrip()`: the longest all-space prefix removed. */
  function LStrip(s: string): string {
    if s != [] && IsSpace(s[0]) then LStrip(s[1..]) else s
  }

  /** `lstrip` removes an all-space prefix, and no more than that. */
  lemma {:induction false} LStripFrame(s: string)
    ensures var r := LStrip(s);
            |r| <= |s| && r == s[|s| - |r|..] && AllSpace(s[..|s| - |r|]) && (r == [] || !IsSpace(r[0]))
  {
    if s != [] && IsSpace(s[0]) {
      LStripFrame(s[1..]);
      var r := LStrip(s);
      assert s[..|s| - |r|] == [s[0]] + s[1..][..|s| - 1 - |r|];
    }
  }

  /** `s.rstrip()`: the longest all-space suffix removed. */
  function RStrip(s: string): string {
    if s != [] && IsSpace(s[|s| - 1]) then RStrip(s[..|s| - 1]) else s
  }

  /** `rstrip` removes an all-space suffix, and no more than that. */
  lemma {:induction false} RStripFrame(s: string)
    ensures var r := RStrip(s);
            |r| <= |s| && r == s[..|r|] && AllSpace(s[|r|..]) && (r == [] || !IsSpace(r[|r| - 1]))
  {
    if s != [] && IsSpace(s[|s| - 1]) {
      var t := s[..|s| - 1];
      RStripFrame(t);
      var r := RStrip(s);
      assert s[|r|..] == t[|r|..] + [s[|s| - 1]];
    }
  }

  /** `s.strip()`: neither end of the result is white space. */
  function Strip(s: string): (r: string)
    ensures r == [] || (!IsSpace(r[0]) && !IsSpace(r[|r| - 1]))
  {
    LStripFrame(s);
    RStripFrame(LStrip(s));
    RStrip(LStrip(s))
  }

  /** Neither end is white space: what `strip` leaves. */
  predicate Trimmed(s: string) {
    s == [] || (!IsSpace(s[0]) && !IsSpace(s[|s| - 1]))
  }

  /** What `strip` removes is white space, and only from the two ends: `s`
      is the result framed by two all-space pieces. */
  lemma StripFrames(s: string)
    ensures exists i, j :: 0 <= i <= j <= |s| && Strip(s) == s[i..j] && AllSpace(s[..i]) && AllSpace(s[j..])
  {
    var l := LStrip(s);
    LStripFrame(s);
    RStripFrame(l);
    var i := |s| - |l|;
    var j := i + |RStrip(l)|;
    assert s[i..j] == RStrip(l);
    assert s[j..] == l[|RStrip(l)|..];
  }

  /** White space in front of a string does not change its `lstrip`. */
  lemma {:induction false} LStripSpace(pre: string, s: string)
    requires AllSpace(pre)
    ensures LStrip(pre + s) == LStrip(s)
    decreases |pre|
  {
    if pre == [] {
      assert pre + s == s;
    } else {
      assert (pre + s)[1..] == pre[1..] + s;
      LStripSpace(pre[1..], s);
    }
  }

  /** White space after a string does not change its `rstrip`. */
  lemma {:induction false} RStripSpace(s: string, suf: string)
    requires AllSpace(suf)
    ensures RStrip(s + suf) == RStrip(s)
    decreases |suf|
  {
    if suf == [] {
      assert s + suf == s;
    } else {
      var t := s + suf;
      assert t[..|t| - 1] == s + suf[..|suf| - 1];
      RStripSpace(s, suf[..|suf| - 1]);
    }
  }

  /** `strip` of a trimmed core framed by white space is the core. */
  lemma StripCore(pre: string, core: string, suf: string)
    requires AllSpace(pre) && AllSpace(suf)
    requires core == [] || (!IsSpace(core[0]) && !IsSpace(core[|core| - 1]))
    ensures Strip(pre + core + suf) == core
  {
    assert pre + core + suf == pre + (core + suf);
    LStripSpace(pre, core + suf);
    if core == [] {
      assert core + suf == suf && suf + [] == suf;
      LStripSpace(suf, []);
    } else {
      assert LStrip(core + suf) == core + suf;
      RStripSpace(core, suf);
      assert RStrip(core) == core;
    }
  }

  lemma AllSpaceConcat(a: string, b: string)
    requires AllSpace(a) && AllSpace(b)
    ensures AllSpace(a + b)
  {
    forall k | 0 <= k < |a + b| ensures IsSpace((a + b)[k]) {
      if k >= |a| {
        assert (a + b)[k] == b[k - |a|];
      }
    }
  }

  lemma Regroup(a: string, b: string, c: string, d: string, e: string)
    ensures a + (b + c + d) + e == (a + b) + c + (d + e)
  {
  }

  /** Extra white space around a string does not change its `strip`. */
  lemma StripPadded(pre: string, s: string, suf: string)
    requires AllSpace(pre) && AllSpace(suf)
    ensures Strip(pre + s + suf) == Strip(s)
  {
    var l := LStrip(s);
    LStripFrame(s);
    RStripFrame(l);
    var i := |s| - |l|;
    var r := RStrip(l);
    var j := i + |r|;
    var front, core, back := s[..i], s[i..j], s[j..];
    assert core == r;
    assert back == l[|r|..];
    assert s == front + core + back;
    AllSpaceConcat(pre, front);
    AllSpaceConcat(back, suf);
    Regroup(pre, front, core, back, suf);
    StripCore(pre + front, core, back + suf);
  }

  /** `s.lstrip(c)`: every leading `c` removed. */
  function LStripChar(s: string, c: char): (r: string)
    ensures |r| <= |s| && r == s[|s| - |r|..]
    ensures forall i :: 0 <= i < |s| - |r| ==> s[i] == c
    ensures r == [] || r[0] != c
  {
    if s != [] && s[0] == c then LStripChar(s[1..], c) else s
  }

  function LowerChar(c: char): char {
    if 'A' <= c <= 'Z' then (c as int + 32) as char else c
  }

  /** `s.lower()` (ASCII letters only). */
  function Lower(s: string): (r: string)
    ensures |r| == |s|
    ensures forall i :: 0 <= i < |s| ==> r[i] == LowerChar(s[i])
  {
    seq(|s|, i requires 0 <= i < |s| => LowerChar(s[i]))
  }

  /** Case-insensitive equality, the ORM's `iexact`. */
  predicate IEquals(a: string, b: string) {
    Lower(a) == Lower(b)
  }

  lemma LowerIdempotent(s: string)
    ensures Lower(Lower(s)) == Lower(s)
  {
  }

  predicate StartsWith(s: string, prefix: string) {
    |prefix| <= |s| && s[..|prefix|] == prefix
  }

  /** Substring test, as Python's `q in s` and SQL `LIKE '%q%'`. */
  predicate Contains(s: string, q: string)
    decreases |s|
  {
    StartsWith(s, q) || (s != [] && Contains(s[1..], q))
  }

  /** `q` occurs in `s` at position `i`. */
  predicate OccursAt(s: string, q: string, i: int) {
    0 <= i <= |s| - |q| && s[i..i + |q|] == q
  }

  /** `Contains` finds exactly the positions at which `q` occurs. */
  lemma {:induction false} ContainsIff(s: string, q: string)
    ensures Contains(s, q) <==> exists i :: OccursAt(s, q, i)
    decreases |s|
  {
    if StartsWith(s, q) {
      assert OccursAt(s, q, 0);
    } else if s == [] {
    } else {
      ContainsIff(s[1..], q);
      if Contains(s[1..], q) {
        var i :| OccursAt(s[1..], q, i);
        assert s[1..][i..i + |q|] == s[i + 1..i + 1 + |q|];
        assert OccursAt(s, q, i + 1);
      }
      if exists i :: OccursAt(s, q, i) {
        var i :| OccursAt(s, q, i);
        assert i != 0;
        assert s[1..][i - 1..i - 1 + |q|] == s[i..i + |q|];
        assert OccursAt(s[1..], q, i - 1);
      }
    }
  }

  /** The ORM's `icontains`: `q` occurs in `s` up to the case of letters. */
  predicate IContains(s: string, q: string) {
    Contains(Lower(s), Lower(q))
  }

  /** Every string contains the empty string, so an empty query filters nothing. */
  lemma {:induction false} ContainsEmpty(s: string)
    ensures Contains(s, "")
  {
  }

  /** Python's `s.split(sep)`: the pieces between occurrences of `sep`;
      there is always at least one piece. */
  function Split(s: string, sep: char): (parts: seq<string>)
    ensures |parts| >= 1
    ensures forall k :: 0 <= k < |parts| ==> sep !in parts[k]
  {
    if s == [] then [""]
    else
      var rest := Split(s[1..], sep);
      if s[0] == sep then [""] + rest
      else [[s[0]] + rest[0]] + rest[1..]
  }

  /** Python's `sep.join(parts)`. */
  function Join(parts: seq<string>, sep: char): string {
    if parts == [] then ""
    else if |parts| == 1 then parts[0]
    else parts[0] + [sep] + Join(parts[1..], sep)
  }

  /** Joining the pieces of a split gives back the string. */
  lemma {:induction false} JoinSplit(s: string, sep: char)
    ensures Join(Split(s, sep), sep) == s
  {
    if s != [] {
      var rest := Split(s[1..], sep);
      JoinSplit(s[1..], sep);
      if s[0] == sep {
        assert Split(s, sep) == [""] + rest;
      } else {
        var parts := [[s[0]] + rest[0]] + rest[1..];
        assert Split(s, sep) == parts;
        if |rest| == 1 {
          assert Join(rest, sep) == rest[0];
        } else {
          assert Join(rest, sep) == rest[0] + [sep] + Join(rest[1..], sep);
          assert parts[1..] == rest[1..];
        }
      }
    }
  }

  /** Splitting a join of separator-free pieces gives back the pieces. */
  lemma {:induction false} SplitJoin(parts: seq<string>, sep: char)
    requires |parts| >= 1
    requires forall k :: 0 <= k < |parts| ==> sep !in parts[k]
    ensures Split(Join(parts, sep), sep) == parts
    decreases |parts|
  {
    if |parts| == 1 {
      SplitPiece(parts[0], [], sep);
      assert parts[0] + [] == parts[0];
      assert Split([], sep) == [""];
      assert [parts[0] + ""] + [""][1..] == parts;
    } else {
      var tail := Join(parts[1..], sep);
      SplitJoin(parts[1..], sep);
      var s := [sep] + tail;
      assert s[1..] == tail;
      assert Split(s, sep) == [""] + parts[1..];
      SplitPiece(parts[0], s, sep);
      assert parts[0] + s == parts[0] + [sep] + tail;
      assert ([""] + parts[1..])[0] == "";
      assert ([""] + parts[1..])[1..] == parts[1..];
      assert parts[0] + "" == parts[0];
      assert [parts[0]] + parts[1..] == parts;
    }
  }

  /** Splitting two strings joined by the separator gives the pieces of
      the first followed by the pieces of the second. */
  lemma {:induction false} SplitAtSep(a: string, b: string, sep: char)
    ensures Split(a + [sep] + b, sep) == Split(a, sep) + Split(b, sep)
    decreases |a|
  {
    var s := a + [sep] + b;
    if a == [] {
      assert s == [sep] + b && s[1..] == b;
      assert Split(s, sep) == [""] + Split(b, sep);
    } else {
      var t := a[1..];
      var p, q := Split(t, sep), Split(b, sep);
      SplitAtSep(t, b, sep);
      assert a == [a[0]] + t && s == [a[0]] + (t + [sep] + b);
      SplitCons(a[0], t, sep, p);
      SplitCons(a[0], t + [sep] + b, sep, p + q);
      PiecesAppend(a[0], sep, p, q);
    }
  }

  /** One character in front of `t` starts a new piece or extends the
      first piece of `t`. */
  lemma SplitCons(c: char, t: string, sep: char, r: seq<string>)
    requires r == Split(t, sep)
    ensures Split([c] + t, sep) == if c == sep then [""] + r else [[c] + r[0]] + r[1..]
  {
    var s := [c] + t;
    assert s[0] == c && s[1..] == t;
  }

  lemma PiecesAppend(c: char, sep: char, p: seq<string>, q: seq<string>)
    requires |p| >= 1
    ensures (if c == sep then [""] + (p + q) else [[c] + (p + q)[0]] + (p + q)[1..])
            == (if c == sep then [""] + p else [[c] + p[0]] + p[1..]) + q
  {
    assert (p + q)[0] == p[0] && (p + q)[1..] == p[1..] + q;
  }

  /** A separator-free piece in front of `rest` extends the first piece of
      `rest`'s split. */
  lemma {:induction false} SplitPiece(piece: string, rest: string, sep: char)
    requires sep !in piece
    ensures var r := Split(rest, sep);
            Split(piece + rest, sep) == [piece + r[0]] + r[1..]
    decreases |piece|
  {
    var r := Split(rest, sep);
    if piece == [] {
      assert piece + rest == rest;
      assert piece + r[0] == r[0];
      assert [r[0]] + r[1..] == r;
    } else {
      var s := piece + rest;
      assert piece[0] in piece;
      assert s != [] && s[0] == piece[0] && s[0] != sep;
      assert s[1..] == piece[1..] + rest;
      SplitPiece(piece[1..], rest, sep);
      var r' := Split(s[1..], sep);
      assert r' == [piece[1..] + r[0]] + r[1..];
      assert Split(s, sep) == [[s[0]] + r'[0]] + r'[1..];
      assert [s[0]] + r'[0] == piece + r[0];
      assert r'[1..] == r[1..];
    }
  }

  /** A separator-free tail after `s` extends the last piece of `s`'s split. */
  lemma {:induction false} SplitSuffix(s: string, suf: string, sep: char)
    requires sep !in suf
    ensures var p := Split(s, sep);
            Split(s + suf, sep) == p[..|p| - 1] + [p[|p| - 1] + suf]
    decreases |s|
  {
    var p := Split(s, sep);
    if s == [] {
      assert s + suf == suf + [];
      SplitPiece(suf, [], sep);
      assert suf + "" == suf;
      assert Split(s + suf, sep) == [suf];
      assert p == [""];
      assert p[..0] + ["" + suf] == [suf];
    } else {
      SplitSuffix(s[1..], suf, sep);
      if s[0] == sep {
        SplitSuffixAtSep(s, suf, sep);
      } else {
        SplitSuffixAtChar(s, suf, sep);
      }
    }
  }

  /** The step of `SplitSuffix` for a string that starts with the separator. */
  lemma SplitSuffixAtSep(s: string, suf: string, sep: char)
    requires s != [] && s[0] == sep
    requires var r := Split(s[1..], sep);
             Split(s[1..] + suf, sep) == r[..|r| - 1] + [r[|r| - 1] + suf]
    ensures var p := Split(s, sep);
            Split(s + suf, sep) == p[..|p| - 1] + [p[|p| - 1] + suf]
  {
    var t := s + suf;
    var p := Split(s, sep);
    assert t[0] == s[0] && t[1..] == s[1..] + suf;
    var r := Split(s[1..], sep);
    var r' := Split(t[1..], sep);
    var init, last := r[..|r| - 1], r[|r| - 1];
    assert p == [""] + r;
    assert Split(t, sep) == [""] + (init + [last + suf]);
    assert p[..|p| - 1] == [""] + init;
    assert p[|p| - 1] == last;
    assert [""] + (init + [last + suf]) == ([""] + init) + [last + suf];
  }

  /** The step of `SplitSuffix` for a string that starts with another
      character. */
  lemma SplitSuffixAtChar(s: string, suf: string, sep: char)
    requires s != [] && s[0] != sep
    requires var r := Split(s[1..], sep);
             Split(s[1..] + suf, sep) == r[..|r| - 1] + [r[|r| - 1] + suf]
    ensures var p := Split(s, sep);
            Split(s + suf, sep) == p[..|p| - 1] + [p[|p| - 1] + suf]
  {
    var t := s + suf;
    assert t[0] == s[0] && t[1..] == s[1..] + suf;
    var r := Split(s[1..], sep);
    if |r| == 1 {
      SplitCharOnePiece(s, suf, sep, r[0]);
    } else {
      SplitCharPieces(s, suf, sep, r);
    }
  }

  /** `SplitSuffixAtChar` when the rest of the string has one piece. */
  lemma SplitCharOnePiece(s: string, suf: string, sep: char, last: string)
    requires s != [] && s[0] != sep
    requires Split(s[1..], sep) == [last]
    requires Split(s[1..] + suf, sep) == [last + suf]
    ensures Split(s, sep) == [[s[0]] + last]
    ensures Split(s + suf, sep) == [[s[0]] + last + suf]
  {
    var t := s + suf;
    assert t[0] == s[0] && t[1..] == s[1..] + suf;
    assert Split(t, sep) == [[s[0]] + (last + suf)];
    assert [s[0]] + (last + suf) == [s[0]] + last + suf;
  }

  /** `SplitSuffixAtChar` when the rest of the string has several pieces. */
  lemma SplitCharPieces(s: string, suf: string, sep: char, r: seq<string>)
    requires s != [] && s[0] != sep
    requires Split(s[1..], sep) == r && |r| >= 2
    requires Split(s[1..] + suf, sep) == r[..|r| - 1] + [r[|r| - 1] + suf]
    ensures var p := Split(s, sep);
            Split(s + suf, sep) == p[..|p| - 1] + [p[|p| - 1] + suf]
  {
    var t := s + suf;
    assert t[0] == s[0] && t[1..] == s[1..] + suf;
    var n := |r|;
    var r' := r[..n - 1] + [r[n - 1] + suf];
    var head := [s[0]] + r[0];
    var p := [head] + r[1..];
    assert Split(s, sep) == p;
    assert r'[0] == r[0];
    assert r'[1..] == r[1..n - 1] + [r[n - 1] + suf];
    assert Split(t, sep) == [head] + r'[1..];
    assert p[..|p| - 1] == [head] + r[1..n - 1];
    assert p[|p| - 1] == r[n - 1];
  }

  predicate IsDigit(c: char) {
    '0' <= c <= '9'
  }

  /** Python's `str.isdigit` (ASCII digits): non-empty and all digits. */
  predicate IsDigits(s: string) {
    |s| > 0 && forall i :: 0 <= i < |s| ==> IsDigit(s[i])
  }

  /** The decimal value of a string of digits. */
  function DigitsValue(s: string): nat
    requires forall i :: 0 <= i < |s| ==> IsDigit(s[i])
  {
    if s == [] then 0
    else
      assert IsDigit(s[|s| - 1]);
      DigitsValue(s[..|s| - 1]) * 10 + (s[|s| - 1] as int - '0' as int)
  }

  function DigitChar(d: nat): (c: char)
    requires d < 10
    ensures IsDigit(c) && c as int - '0' as int == d
  {
    ('0' as int + d) as char
  }

  /** The decimal numeral of `n`, as Python's `str(n)`. */
  function NatToDigits(n: nat): (s: string)
    ensures IsDigits(s)
    decreases n
  {
    if n < 10 then [DigitChar(n)] else NatToDigits(n / 10) + [DigitChar(n % 10)]
  }

  /** Reading back a numeral gives the number it was written from. */
  lemma {:induction false} DigitsRoundTrip(n: nat)
    ensures DigitsValue(NatToDigits(n)) == n
    decreases n
  {
    var s := NatToDigits(n);
    if n >= 10 {
      DigitsRoundTrip(n / 10);
      assert s[..|s| - 1] == NatToDigits(n / 10);
    }
  }

  /** A numeral has no white space, so `strip` leaves it alone. */
  lemma DigitsStrip(s: string)
    requires IsDigits(s)
    ensures Strip(s) == s
  {
    assert !IsSpace(s[0]);
    assert LStrip(s) == s;
    assert !IsSpace(s[|s| - 1]);
  }

  /** Python's `int(s)` on a string: surrounding white space, an optional
      sign and at least one digit; anything else raises, which is `None`. */
  function ParseInt(s: string): (r: Option<int>)
    ensures r.Some? ==> Strip(s) != ""
  {
    var t := Strip(s);
    if IsDigits(t) then Some(DigitsValue(t))
    else if |t| > 1 && t[0] == '+' && IsDigits(t[1..]) then Some(DigitsValue(t[1..]))
    else if |t| > 1 && t[0] == '-' && IsDigits(t[1..]) then Some(0 - DigitsValue(t[1..]))
    else None
  }

  /** `str(i)` for an integer. */
  function IntToString(i: int): string {
    if i >= 0 then NatToDigits(i) else "-" + NatToDigits(-i)
  }

  /** A minus sign before a numeral: no white space to strip, not itself
      a numeral, and the numeral follows the sign. */
  lemma SignedDigits(d: string)
    requires IsDigits(d)
    ensures var t := "-" + d;
            Strip(t) == t && !IsDigits(t) && |t| > 1 && t[0] == '-' && t[1..] == d
  {
    var t := "-" + d;
    assert !IsSpace(t[0]) && LStrip(t) == t;
    assert t[|t| - 1] == d[|d| - 1];
    assert !IsDigit(t[0]);
    assert t[1..] == d;
  }

  /** `int(str(i)) == i`: parsing a formatted integer gives it back. */
  lemma ParseFormatted(i: int)
    ensures ParseInt(IntToString(i)) == Some(i)
  {
    if i >= 0 {
      DigitsStrip(NatToDigits(i));
      DigitsRoundTrip(i);
    } else {
      SignedDigits(NatToDigits(-i));
      DigitsRoundTrip(-i);
    }
  }
}
