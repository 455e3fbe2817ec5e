/** Django's `signing.dumps` and `signing.loads` with a timestamp: a token is
    text that carries a payload, the salt it was signed under and the time
    it was signed at. `loads` under another salt, or of text that is not a
    token, fails with `BadSignature`; a token older than `max_age` fails
    with `SignatureExpired`, which is a kind of `BadSignature`.

    The token is written out as text (fields separated by ':', numbers in
    decimal, strings as the decimal codes of their characters separated by
    '.') so that the views' handling of the token as text, the bearer header
    and the fingerprint, can be stated. No key is modelled. */
module Signing {
  import opened Base
  import opened Text

  /** The dictionaries this project signs: `{"id", "email"}` for the email
      confirmation, `{"id", "iat"}` for the login token and `{"id", "email",
      "ts"}` for the password reset; a missing key (or a JSON null) is None. */
  datatype Payload = Payload(id: Option<nat>, email: Option<string>, iat: Option<nat>, ts: Option<nat>)

  /** What a token carries. */
  datatype Signed = Signed(salt: string, payload: Payload, timestamp: nat)

  /** The outcome of `signing.loads`. */
  datatype Loaded = Valid(data: Payload) | Expired | Bad

  /** `except signing.BadSignature` catches both failures, since
      `SignatureExpired` is a subclass of `BadSignature`. */
  predicate IsBadSignature(l: Loaded) {
    l.Expired? || l.Bad?
  }

  // ----- Writing a token -----

  predicate FieldChar(c: char) {
    IsDigit(c) || c == '.' || c == 's'
  }

  predicate TokenChar(c: char) {
    FieldChar(c) || c == ':'
  }

  /** An optional number: "" for None, its decimal numeral otherwise. */
  function NatField(v: Option<nat>): string {
    if v.Some? then NatToDigits(v.value) else ""
  }

  /** The decimal codes of the characters of `s`. */
  function CharCodes(s: string): (codes: seq<string>)
    ensures |codes| == |s|
    ensures forall k :: 0 <= k < |codes| ==> codes[k] == NatToDigits(s[k] as nat)
  {
    seq(|s|, k requires 0 <= k < |s| => NatToDigits(s[k] as nat))
  }

  /** An optional string: "" for None, 's' followed by its character codes
      otherwise. */
  function TextField(v: Option<string>): string {
    if v.Some? then "s" + Join(CharCodes(v.value), '.') else ""
  }

  function Fields(sg: Signed): seq<string> {
    [TextField(Some(sg.salt)), NatField(sg.payload.id), TextField(sg.payload.email),
     NatField(sg.payload.iat), NatField(sg.payload.ts), NatToDigits(sg.timestamp)]
  }

  /** `signing.dumps(payload, salt=salt)` at time `now`. */
  function Dumps(payload: Payload, salt: string, now: nat): (token: string)
    ensures token != ""
    ensures forall i :: 0 <= i < |token| ==> TokenChar(token[i])
  {
    var fields := Fields(Signed(salt, payload, now));
    FieldsShape(Signed(salt, payload, now));
    JoinKeeps(fields, ':', TokenChar);
    JoinStartsWith(fields, ':');
    Join(fields, ':')
  }

  // ----- Reading a token -----

  /** A number field read back: Some(None) for "", None for text that is
      not a numeral. */
  function ReadNat(t: string): Option<Option<nat>> {
    if t == "" then Some(None)
    else if IsDigits(t) then Some(Some(DigitsValue(t)))
    else None
  }

  predicate IsScalar(n: int) {
    0 <= n < 0xD800 || 0xE000 <= n < 0x11_0000
  }

  /** Character codes read back. */
  function ReadChars(codes: seq<string>): Option<string> {
    if codes == [] then Some("")
    else if IsDigits(codes[0]) && IsScalar(DigitsValue(codes[0])) then
      var rest := ReadChars(codes[1..]);
      if rest.Some? then Some([DigitsValue(codes[0]) as char] + rest.value) else None
    else None
  }

  /** A string field read back: Some(None) for "", None for text that is
      not a string field. */
  function ReadText(t: string): Option<Option<string>> {
    if t == "" then Some(None)
    else if t[0] != 's' then None
    else if t[1..] == "" then Some(Some(""))
    else
      var chars := ReadChars(Split(t[1..], '.'));
      if chars.Some? then Some(chars) else None
  }

  /** The contents of a token, or None when the text is not a token. */
  function Unsign(token: string): Option<Signed> {
    var f := Split(token, ':');
    if |f| != 6 then None
    else
      var salt, id, email, iat, ts, time :=
        ReadText(f[0]), ReadNat(f[1]), ReadText(f[2]), ReadNat(f[3]), ReadNat(f[4]), ReadNat(f[5]);
      if salt.Some? && salt.value.Some? && id.Some? && email.Some? && iat.Some? && ts.Some?
         && time.Some? && time.value.Some?
      then Some(Signed(salt.value.value, Payload(id.value, email.value, iat.value, ts.value), time.value.value))
      else None
  }

  /** `signing.loads(token, salt=salt, max_age=maxAge)` at time `now`: a bad
      token or another salt fails with BadSignature; a token whose age is
      more than `maxAge` with SignatureExpired. */
  function Loads(token: string, salt: string, maxAge: nat, now: int): (l: Loaded)
    ensures l.Valid? <==> Unsign(token).Some? && Unsign(token).value.salt == salt
                          && now - Unsign(token).value.timestamp <= maxAge
    ensures l.Valid? ==> l.data == Unsign(token).value.payload
    ensures l.Expired? <==> Unsign(token).Some? && Unsign(token).value.salt == salt
                            && now - Unsign(token).value.timestamp > maxAge
  {
    var sg := Unsign(token);
    if sg.None? || sg.value.salt != salt then Bad
    else if now - sg.value.timestamp > maxAge then Expired
    else Valid(sg.value.payload)
  }

  // ----- Round trip -----

  /** Every character of a join is the separator or a character of a piece. */
  lemma {:induction false} JoinKeeps(parts: seq<string>, sep: char, ok: char -> bool)
    requires ok(sep)
    requires forall k, i :: 0 <= k < |parts| && 0 <= i < |parts[k]| ==> ok(parts[k][i])
    ensures forall i :: 0 <= i < |Join(parts, sep)| ==> ok(Join(parts, sep)[i])
    decreases |parts|
  {
    if |parts| > 1 {
      JoinKeeps(parts[1..], sep, ok);
      var tail := Join(parts[1..], sep);
      var j := parts[0] + [sep] + tail;
      assert Join(parts, sep) == j;
      forall i | 0 <= i < |j| ensures ok(j[i]) {
        if i < |parts[0]| {
          assert j[i] == parts[0][i];
        } else if i > |parts[0]| {
          assert j[i] == tail[i - |parts[0]| - 1];
        }
      }
    } else if |parts| == 1 {
      assert Join(parts, sep) == parts[0];
      forall i | 0 <= i < |parts[0]| ensures ok(parts[0][i]) {
        assert ok(parts[0][i]);
      }
    }
  }

  /** A join begins with its first piece. */
  lemma {:induction false} JoinStartsWith(parts: seq<string>, sep: char)
    requires parts != []
    ensures |Join(parts, sep)| >= |parts[0]|
    ensures Join(parts, sep)[..|parts[0]|] == parts[0]
  {
    if |parts| > 1 {
      var j := parts[0] + [sep] + Join(parts[1..], sep);
      assert j[..|parts[0]|] == parts[0];
    }
  }

  lemma TextFieldShape(v: Option<string>)
    ensures forall i :: 0 <= i < |TextField(v)| ==> FieldChar(TextField(v)[i])
    ensures v.Some? ==> TextField(v) != ""
  {
    if v.Some? {
      var codes := CharCodes(v.value);
      JoinKeeps(codes, '.', FieldChar);
      var t := "s" + Join(codes, '.');
      forall i | 0 <= i < |t| ensures FieldChar(t[i]) {
        if i > 0 {
          assert t[i] == Join(codes, '.')[i - 1];
        }
      }
    }
  }

  lemma NatFieldShape(v: Option<nat>)
    ensures forall i :: 0 <= i < |NatField(v)| ==> FieldChar(NatField(v)[i])
  {
  }

  /** The fields of a token hold no ':', and the first is not empty. */
  lemma FieldsShape(sg: Signed)
    ensures |Fields(sg)| == 6 && Fields(sg)[0] != ""
    ensures forall k, i :: 0 <= k < 6 && 0 <= i < |Fields(sg)[k]| ==> FieldChar(Fields(sg)[k][i])
  {
    var f := Fields(sg);
    TextFieldShape(Some(sg.salt));
    TextFieldShape(sg.payload.email);
    NatFieldShape(sg.payload.id);
    NatFieldShape(sg.payload.iat);
    NatFieldShape(sg.payload.ts);
    NatFieldShape(Some(sg.timestamp));
    assert f[5] == NatField(Some(sg.timestamp));
  }

  lemma ReadNatField(v: Option<nat>)
    ensures ReadNat(NatField(v)) == Some(v)
  {
    if v.Some? {
      DigitsRoundTrip(v.value);
    }
  }

  lemma {:induction false} ReadCharCodes(s: string)
    ensures ReadChars(CharCodes(s)) == Some(s)
  {
    if s != "" {
      var codes := CharCodes(s);
      DigitsRoundTrip(s[0] as nat);
      assert codes[1..] == CharCodes(s[1..]);
      ReadCharCodes(s[1..]);
      assert [s[0]] + s[1..] == s;
    }
  }

  lemma ReadTextField(v: Option<string>)
    ensures ReadText(TextField(v)) == Some(v)
  {
    if v.Some? {
      var codes := CharCodes(v.value);
      var t := TextField(v);
      assert t[1..] == Join(codes, '.');
      if v.value == "" {
        assert codes == [];
      } else {
        JoinStartsWith(codes, '.');
        assert t[1..] != "";
        forall k | 0 <= k < |codes| ensures '.' !in codes[k] {
          assert IsDigits(codes[k]);
        }
        SplitJoin(codes, '.');
        ReadCharCodes(v.value);
      }
    }
  }

  /** Reading a token gives back exactly what was signed. */
  lemma UnsignDumps(payload: Payload, salt: string, now: nat)
    ensures Unsign(Dumps(payload, salt, now)) == Some(Signed(salt, payload, now))
  {
    var sg := Signed(salt, payload, now);
    var f := Fields(sg);
    FieldsShape(sg);
    forall k | 0 <= k < 6 ensures ':' !in f[k] {
      forall i | 0 <= i < |f[k]| ensures f[k][i] != ':' {
        assert FieldChar(f[k][i]);
      }
    }
    SplitJoin(f, ':');
    ReadTextField(Some(salt));
    ReadTextField(payload.email);
    ReadNatField(payload.id);
    ReadNatField(payload.iat);
    ReadNatField(payload.ts);
    ReadNatField(Some(now));
    assert f[5] == NatField(Some(now));
  }

  /** A token loaded under the salt it was signed with gives back its
      payload until it is more than `maxAge` old, and is expired after. */
  lemma LoadsDumps(payload: Payload, salt: string, signedAt: nat, maxAge: nat, now: int)
    ensures var l := Loads(Dumps(payload, salt, signedAt), salt, maxAge, now);
            && (now - signedAt <= maxAge ==> l == Valid(payload))
            && (now - signedAt > maxAge ==> l == Expired)
  {
    UnsignDumps(payload, salt, signedAt);
  }

  /** A token signed under one salt is a bad signature under any other,
      whatever its age: a token of one purpose is never accepted for
      another. */
  lemma SaltSeparation(payload: Payload, salt: string, other: string, signedAt: nat, maxAge: nat, now: int)
    requires other != salt
    ensures Loads(Dumps(payload, salt, signedAt), other, maxAge, now) == Bad
  {
    UnsignDumps(payload, salt, signedAt);
  }

  /** A token holds no white space, so stripping it changes nothing. */
  lemma TokenStrip(payload: Payload, salt: string, now: nat)
    ensures var token := Dumps(payload, salt, now);
            && ' ' !in token && Strip(token) == token
  {
    var token := Dumps(payload, salt, now);
    assert !IsSpace(token[0]) && !IsSpace(token[|token| - 1]);
    NoSpaceEnds(token);
    assert ' ' !in token by {
      forall i | 0 <= i < |token| ensures token[i] != ' ' {
        assert TokenChar(token[i]);
      }
    }
  }

  /** Text that neither begins nor ends with white space is its own strip. */
  lemma NoSpaceEnds(s: string)
    requires s != [] && !IsSpace(s[0]) && !IsSpace(s[|s| - 1])
    ensures Strip(s) == s
  {
    assert LStrip(s) == s;
  }
}
