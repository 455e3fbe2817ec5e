/** Customer login tokens (`api/customer/views_auth.py`): issuing a signed
    token at login, reading it from the `Authorization` header, checking it
    against the revocation table and its age, and revoking it at logout. */
module CustomerAuth {
  import opened Base
  import opened Text
  import opened Filtering
  import opened Hashing
  import opened Signing
  import opened CustomerModel

  const AuthSalt: string := "customer-auth-token"
  /** Seven days, in seconds. */
  const AuthMaxAge: nat := 60 * 60 * 24 * 7

  /** `_issue_token(customer_id)` at time `now`: `{"id", "iat"}` signed under
      the login salt. */
  function IssueToken(customerId: nat, now: nat): (token: string)
    ensures token != "" && ' ' !in token && Strip(token) == token
  {
    TokenStrip(Payload(Some(customerId), None, Some(now), None), AuthSalt, now);
    Dumps(Payload(Some(customerId), None, Some(now), None), AuthSalt, now)
  }

  /** An issued token loads back to its customer id and issue time for seven
      days, and is expired after that. */
  lemma IssuedTokenLoads(customerId: nat, issuedAt: nat, now: int)
    ensures var l := Loads(IssueToken(customerId, issuedAt), AuthSalt, AuthMaxAge, now);
            && (now - issuedAt <= AuthMaxAge ==> l == Valid(Payload(Some(customerId), None, Some(issuedAt), None)))
            && (now - issuedAt > AuthMaxAge ==> l == Expired)
  {
    LoadsDumps(Payload(Some(customerId), None, Some(issuedAt), None), AuthSalt, issuedAt, AuthMaxAge, now);
  }

  // ----- The Authorization header -----

  /** `s.split(sep, 1)[1]`: the text after the first `sep`, when there is one. */
  function AfterFirst(s: string, sep: char): (r: Option<string>)
    ensures r.Some? <==> sep in s
  {
    if s == [] then None
    else if s[0] == sep then Some(s[1..])
    else
      assert forall c :: c in s <==> c == s[0] || c in s[1..];
      AfterFirst(s[1..], sep)
  }

  lemma {:induction false} AfterFirstAt(s: string, sep: char, k: nat)
    requires k < |s| && s[k] == sep && sep !in s[..k]
    ensures AfterFirst(s, sep) == Some(s[k + 1..])
    decreases k
  {
    if k > 0 {
      assert s[0] in s[..k];
      assert s[1..][..k - 1] == s[1..k];
      assert forall c :: c in s[1..k] ==> c in s[..k];
      AfterFirstAt(s[1..], sep, k - 1);
      assert s[1..][k..] == s[k + 1..];
    }
  }

  /** A header that lower-cases to "bearer ..." has its first space right
      after the word. */
  lemma BearerPrefix(auth: string)
    requires StartsWith(Lower(auth), "bearer ")
    ensures AfterFirst(auth, ' ') == Some(auth[7..])
  {
    assert Lower(auth)[6] == ' ' && auth[6] == ' ';
    forall i | 0 <= i < 6 ensures auth[i] != ' ' {
      assert Lower(auth)[i] == "bearer "[i];
    }
    AfterFirstAt(auth, ' ', 6);
  }

  /** `_get_bearer_token`: None unless the header, lower-cased, starts with
      "bearer "; otherwise the rest of the header, stripped. */
  function BearerToken(auth: string): (t: Option<string>)
    ensures t.Some? <==> StartsWith(Lower(auth), "bearer ")
    ensures t.Some? ==> t.value == Strip(auth[7..])
  {
    if !StartsWith(Lower(auth), "bearer ") then None
    else
      BearerPrefix(auth);
      Some(Strip(AfterFirst(auth, ' ').value))
  }

  /** The header `Bearer <token>`, whatever the case of the word, gives back
      an issued token. */
  lemma BearerOfIssued(word: string, customerId: nat, now: nat)
    requires Lower(word) == "bearer"
    ensures BearerToken(word + " " + IssueToken(customerId, now)) == Some(IssueToken(customerId, now))
  {
    BearerOf(word, IssueToken(customerId, now));
  }

  /** A header made of the word "bearer", in any case, a space and a token
      without surrounding spaces gives back that token. */
  lemma BearerOf(word: string, token: string)
    requires Lower(word) == "bearer" && Strip(token) == token
    ensures BearerToken(word + " " + token) == Some(token)
  {
    var auth := word + " " + token;
    assert Lower(auth)[..7] == Lower(word) + " ";
    assert auth[7..] == token;
  }

  // ----- Checking a token -----

  /** A fingerprint revoked until a time later than `now`. */
  predicate Revoked(revoked: map<Digest, int>, fp: Digest, now: int) {
    fp in revoked && revoked[fp] > now
  }

  datatype Authentication = Authenticated(row: CustomerRow) | Rejected(detail: string)

  /** `_customer_from_token`: a missing token, then a revoked one, are
      refused before the token is decoded; then an expired token, a bad
      signature and an unknown customer id are refused; otherwise the
      customer with the token's id. */
  function CustomerFromToken(customers: seq<CustomerRow>, revoked: map<Digest, int>, auth: string, now: int): (a: Authentication)
    ensures var t := BearerToken(auth);
            && (a == Rejected("Missing Bearer token") <==> t.None? || t.value == "")
            && (t.Some? && t.value != "" ==>
                  && (a == Rejected("Token revoked") <==> Revoked(revoked, Fingerprint(t.value), now))
                  && (a == Rejected("Token expired") <==>
                        !Revoked(revoked, Fingerprint(t.value), now) && Loads(t.value, AuthSalt, AuthMaxAge, now).Expired?))
    ensures a.Authenticated? ==>
              var t := BearerToken(auth).value;
              && !Revoked(revoked, Fingerprint(t), now)
              && Loads(t, AuthSalt, AuthMaxAge, now).Valid?
              && Loads(t, AuthSalt, AuthMaxAge, now).data.id == Some(a.row.customerId)
              && a.row in customers
    ensures a.Rejected? ==> a.detail in {"Missing Bearer token", "Token revoked", "Token expired", "Invalid token"}
    ensures var t := BearerToken(auth);
            var l := if t.Some? then Loads(t.value, AuthSalt, AuthMaxAge, now) else Bad;
            t.Some? && t.value != "" && !Revoked(revoked, Fingerprint(t.value), now)
            && l.Valid? && l.data.id.Some? && ById(customers, l.data.id.value).Some? ==>
              a == Authenticated(ById(customers, l.data.id.value).value)
  {
    var token := BearerToken(auth);
    if token.None? || token.value == "" then Rejected("Missing Bearer token")
    else if Revoked(revoked, Fingerprint(token.value), now) then Rejected("Token revoked")
    else
      match Loads(token.value, AuthSalt, AuthMaxAge, now)
      case Expired => Rejected("Token expired")
      case Bad => Rejected("Invalid token")
      case Valid(data) =>
        if data.id.None? then Rejected("Invalid token")
        else
          var found := ById(customers, data.id.value);
          if found.None? then Rejected("Invalid token") else Authenticated(found.value)
  }

  // ----- Views -----

  datatype LoginData = LoginData(token: string, tokenExpiresIn: nat, customer: map<string, JsonValue>)

  /** `customer_login`: both fields are required; an unknown user name and
      a wrong password get the same 401; an unverified email is refused
      only once the password matched; several customers whose user names
      match whatever the case make `get` raise. */
  function Login(customers: seq<CustomerRow>, body: map<string, Option<string>>, now: nat): (res: Response<LoginData>)
    ensures var u, p := Strip(OrEmpty(Get(body, "user_name"))), Strip(OrEmpty(Get(body, "password")));
            var matches := Where(customers, UserNameIs(u));
            && (res == Detail(400, "user_name and password are required") <==> u == "" || p == "")
            && (res == Detail(401, "Invalid credentials") <==>
                  u != "" && p != "" && (matches == [] || (|matches| == 1 && !Hashing.CheckPassword(p, matches[0].password))))
            && (res == Detail(403, "Email not verified") <==>
                  u != "" && p != "" && |matches| == 1 && Hashing.CheckPassword(p, matches[0].password)
                  && !matches[0].isEmailVerified)
            && (res.ServerError? <==> u != "" && p != "" && |matches| > 1)
            && (res.Json? <==>
                  u != "" && p != "" && |matches| == 1 && Hashing.CheckPassword(p, matches[0].password)
                  && matches[0].isEmailVerified)
            && (res.Json? ==>
                  && res.status == 200 && |matches| == 1
                  && var r := matches[0];
                  && r in customers && IEquals(r.userName, u) && Hashing.CheckPassword(p, r.password)
                  && r.isEmailVerified
                  && res.data == LoginData(IssueToken(r.customerId, now), AuthMaxAge, PublicFields(r)))
  {
    var userName := Strip(OrEmpty(Get(body, "user_name")));
    var password := Strip(OrEmpty(Get(body, "password")));
    if userName == "" || password == "" then Detail(400, "user_name and password are required")
    else
      match GetOne(Where(customers, UserNameIs(userName)))
      case NotFound => Detail(401, "Invalid credentials")
      case Several => ServerError
      case Found(obj) =>
        if !Hashing.CheckPassword(password, obj.password) then Detail(401, "Invalid credentials")
        else if !obj.isEmailVerified then Detail(403, "Email not verified")
        else Json(200, LoginData(IssueToken(obj.customerId, now), AuthMaxAge, PublicFields(obj)))
  }

  /** `customer_me`: the refusal of the token check, or the customer. */
  function Me(customers: seq<CustomerRow>, revoked: map<Digest, int>, auth: string, now: int): (res: Response<map<string, JsonValue>>)
    ensures res.Json? <==> CustomerFromToken(customers, revoked, auth, now).Authenticated?
    ensures res.Json? ==> res.status == 200 && res.data == PublicFields(CustomerFromToken(customers, revoked, auth, now).row)
    ensures res.Detail? ==> res.status == 401 && res.detail == CustomerFromToken(customers, revoked, auth, now).detail
    ensures !res.ServerError?
  {
    match CustomerFromToken(customers, revoked, auth, now)
    case Rejected(detail) => Detail(401, detail)
    case Authenticated(obj) => Json(200, PublicFields(obj))
  }

  /** When a valid token stops being usable: seven days after its `iat`,
      or seven days after `now` when the payload has no integer `iat`. */
  function ExpiresAt(data: Payload, now: int): int {
    if data.iat.Some? then data.iat.value + AuthMaxAge else now + AuthMaxAge
  }

  /** `get_or_create(fingerprint=fp, defaults={"expires_at": e})`: an
      existing entry is left as it is. */
  function GetOrCreate(revoked: map<Digest, int>, fp: Digest, expiresAt: int): (out: map<Digest, int>)
    ensures fp in out && out.Keys == revoked.Keys + {fp}
    ensures fp in revoked ==> out == revoked
    ensures fp !in revoked ==> out[fp] == expiresAt && forall d :: d in revoked ==> out[d] == revoked[d]
  {
    if fp in revoked then revoked else revoked[fp := expiresAt]
  }

  /** `customer_logout`: a missing token is a 401; a token that is expired
      or badly signed is answered 200 without storing anything; a valid one
      is recorded as revoked until its expiry, unless already recorded. */
  method Logout(store: Store, auth: string, now: int) returns (res: Response<map<string, JsonValue>>)
    requires store.Valid()
    modifies store
    ensures store.customers == old(store.customers) && store.nextId == old(store.nextId)
    ensures store.Valid()
    ensures var t := BearerToken(auth);
            if t.None? || t.value == "" then
              res == Detail(401, "Missing Bearer token") && store.revoked == old(store.revoked)
            else
              var l := Loads(t.value, AuthSalt, AuthMaxAge, now);
              && (l.Expired? ==> res == Detail(200, "Already expired") && store.revoked == old(store.revoked))
              && (l.Bad? ==> res == Detail(200, "Logged out") && store.revoked == old(store.revoked))
              && (l.Valid? ==>
                    && res == Detail(200, "Logged out")
                    && store.revoked == GetOrCreate(old(store.revoked), Fingerprint(t.value), ExpiresAt(l.data, now)))
  {
    var token := BearerToken(auth);
    if token.None? || token.value == "" {
      return Detail(401, "Missing Bearer token");
    }
    var expiresAt := now + AuthMaxAge;
    var loaded := Loads(token.value, AuthSalt, AuthMaxAge, now);
    match loaded {
      case Expired =>
        return Detail(200, "Already expired");
      case Bad =>
        return Detail(200, "Logged out");
      case Valid(data) =>
        if data.iat.Some? {
          expiresAt := data.iat.value + AuthMaxAge;
        }
        assert expiresAt == ExpiresAt(data, now);
    }
    var fp := Fingerprint(token.value);
    ghost var before := store.revoked;
    if fp !in store.revoked {
      store.revoked := store.revoked[fp := expiresAt];
    }
    assert store.revoked == GetOrCreate(before, fp, expiresAt);
    return Detail(200, "Logged out");
  }

  // ----- Properties -----

  /** Once a token's fingerprint is recorded, the token check refuses it as
      revoked, before decoding it, until the recorded time. */
  lemma RevokedUntilExpiry(customers: seq<CustomerRow>, revoked: map<Digest, int>, auth: string, now: int, t: int)
    requires BearerToken(auth).Some? && BearerToken(auth).value != ""
    requires Loads(BearerToken(auth).value, AuthSalt, AuthMaxAge, now).Valid?
    ensures var token := BearerToken(auth).value;
            var after := GetOrCreate(revoked, Fingerprint(token), ExpiresAt(Loads(token, AuthSalt, AuthMaxAge, now).data, now));
            t < after[Fingerprint(token)] ==> CustomerFromToken(customers, after, auth, t) == Rejected("Token revoked")
  {
  }

  /** The life of a login token logged out at `logoutAt`: it is refused as
      revoked until seven days after it was issued and as expired after
      that; at the very instant its age is seven days it is neither, and
      the token check accepts it again. */
  lemma LogoutLifecycle(customers: seq<CustomerRow>, revoked: map<Digest, int>, word: string,
                        customerId: nat, issuedAt: nat, logoutAt: int, t: int)
    requires Lower(word) == "bearer"
    requires issuedAt <= logoutAt <= issuedAt + AuthMaxAge
    requires Fingerprint(IssueToken(customerId, issuedAt)) !in revoked
    ensures var token := IssueToken(customerId, issuedAt);
            var auth := word + " " + token;
            var l := Loads(token, AuthSalt, AuthMaxAge, logoutAt);
            && l.Valid?
            && var after := GetOrCreate(revoked, Fingerprint(token), ExpiresAt(l.data, logoutAt));
            && (t < issuedAt + AuthMaxAge ==> CustomerFromToken(customers, after, auth, t) == Rejected("Token revoked"))
            && (t > issuedAt + AuthMaxAge ==> CustomerFromToken(customers, after, auth, t) == Rejected("Token expired"))
            && (t == issuedAt + AuthMaxAge && ById(customers, customerId).Some? ==>
                  CustomerFromToken(customers, after, auth, t) == Authenticated(ById(customers, customerId).value))
  {
    var token := IssueToken(customerId, issuedAt);
    BearerOfIssued(word, customerId, issuedAt);
    IssuedTokenLoads(customerId, issuedAt, logoutAt);
    IssuedTokenLoads(customerId, issuedAt, t);
  }

  /** The login token a successful login returns is accepted by the token
      check for the same customer until it expires, unless revoked. */
  lemma LoginThenMe(customers: seq<CustomerRow>, revoked: map<Digest, int>, body: map<string, Option<string>>,
                    word: string, now: nat, t: int)
    requires DistinctIds(customers)
    requires Lower(word) == "bearer"
    requires Login(customers, body, now).Json?
    requires now <= t <= now + AuthMaxAge
    ensures var data := Login(customers, body, now).data;
            var auth := word + " " + data.token;
            !Revoked(revoked, Fingerprint(data.token), t) ==>
              && CustomerFromToken(customers, revoked, auth, t).Authenticated?
              && PublicFields(CustomerFromToken(customers, revoked, auth, t).row) == data.customer
  {
    var u := Strip(OrEmpty(Get(body, "user_name")));
    var r := Where(customers, UserNameIs(u))[0];
    var token := IssueToken(r.customerId, now);
    if !Revoked(revoked, Fingerprint(token), t) {
      IssuedAuthenticates(customers, revoked, word, r, now, t);
    }
  }

  /** A token issued for a stored customer, presented with the bearer
      keyword, identifies that customer until it expires or is revoked. */
  lemma IssuedAuthenticates(customers: seq<CustomerRow>, revoked: map<Digest, int>, word: string,
                            r: CustomerRow, now: nat, t: int)
    requires DistinctIds(customers) && r in customers
    requires Lower(word) == "bearer"
    requires now <= t <= now + AuthMaxAge
    requires !Revoked(revoked, Fingerprint(IssueToken(r.customerId, now)), t)
    ensures CustomerFromToken(customers, revoked, word + " " + IssueToken(r.customerId, now), t) == Authenticated(r)
  {
    BearerOfIssued(word, r.customerId, now);
    IssuedTokenLoads(r.customerId, now, t);
    var found := ById(customers, r.customerId);
    assert found.Some?;
    SameIdSameRow(customers, r, found.value);
  }
}
