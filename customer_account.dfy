/** Customer registration and email confirmation (`api/customer/views.py`):
    register stores an unverified customer and mails a signed confirmation
    token; confirm checks the token and sets the verification flag; resend
    mails a fresh token to an unverified account. */
module CustomerAccount {
  import opened Base
  import opened Text
  import opened Filtering
  import opened Hashing
  import opened Signing
  import opened CustomerModel

  const TokenSalt: string := "customer-email-confirm"
  /** Three days, in seconds. */
  const TokenMaxAge: nat := 60 * 60 * 24 * 3

  /** The token of `_send_verification_email`: `{"id", "email"}` signed
      under the confirmation salt. */
  function ConfirmationToken(customerId: nat, email: Option<string>, now: nat): string {
    Dumps(Payload(Some(customerId), email, None, None), TokenSalt, now)
  }

  // ----- Register -----

  /** The request values as `customer_register` reads them. */
  datatype Registration = Registration(
    userName: string, password: string, firstName: string, lastName: Option<string>,
    email: string, phone: Option<string>,
    street: Option<string>, city: Option<string>, state: Option<string>, zipCode: Option<string>)

  /** User name, password and first name are stripped; last name and phone
      are stripped and an empty result becomes None; the email is stripped
      and lower-cased; the address fields are kept, an empty one as None. */
  function ReadRegistration(body: map<string, Option<string>>): (g: Registration)
    ensures Trimmed(g.userName) && Trimmed(g.password) && Trimmed(g.firstName)
    ensures Trimmed(g.email) && Lower(g.email) == g.email
    ensures g.lastName.Some? ==> g.lastName.value != "" && Trimmed(g.lastName.value)
    ensures g.phone.Some? ==> g.phone.value != "" && Trimmed(g.phone.value)
    ensures g.street == OrNone(Get(body, "street")) && g.zipCode == OrNone(Get(body, "zip_code"))
  {
    var email := Strip(OrEmpty(Get(body, "email")));
    LowerIdempotent(email);
    Registration(
      Strip(OrEmpty(Get(body, "user_name"))),
      Strip(OrEmpty(Get(body, "password"))),
      Strip(OrEmpty(Get(body, "first_name"))),
      OrNone(Some(Strip(OrEmpty(Get(body, "last_name"))))),
      Lower(email),
      OrNone(Some(Strip(OrEmpty(Get(body, "phone"))))),
      OrNone(Get(body, "street")), OrNone(Get(body, "city")),
      OrNone(Get(body, "state")), OrNone(Get(body, "zip_code")))
  }

  /** The checks of `customer_register`, in order: the first one that
      fails, or None. */
  function RegisterCheck(customers: seq<CustomerRow>, g: Registration): (e: Option<string>)
    ensures e == Some("user_name is required") <==> g.userName == ""
    ensures e == Some("password is required") <==> g.userName != "" && g.password == ""
    ensures e == Some("email is required") <==> g.userName != "" && g.password != "" && g.email == ""
    ensures e == Some("user_name already exists") <==>
              g.userName != "" && g.password != "" && g.email != ""
              && exists x :: x in customers && IEquals(x.userName, g.userName)
    ensures e == Some("email already in use") <==>
              g.userName != "" && g.password != "" && g.email != ""
              && (forall x :: x in customers ==> !IEquals(x.userName, g.userName))
              && exists x :: x in customers && EmailMatches(x, Some(g.email))
    ensures e.None? <==>
              g.userName != "" && g.password != "" && g.email != ""
              && (forall x :: x in customers ==> !IEquals(x.userName, g.userName))
              && (forall x :: x in customers ==> !EmailMatches(x, Some(g.email)))
  {
    if g.userName == "" then Some("user_name is required")
    else if g.password == "" then Some("password is required")
    else if g.email == "" then Some("email is required")
    else if Where(customers, UserNameIs(g.userName)) != [] then
      WhereEmpty(customers, UserNameIs(g.userName));
      Some("user_name already exists")
    else if Where(customers, EmailIs(Some(g.email))) != [] then
      WhereEmpty(customers, UserNameIs(g.userName));
      WhereEmpty(customers, EmailIs(Some(g.email)));
      Some("email already in use")
    else
      WhereEmpty(customers, UserNameIs(g.userName));
      WhereEmpty(customers, EmailIs(Some(g.email)));
      None
  }

  /** The row a successful registration stores. */
  function NewRow(g: Registration, id: nat, salt: nat): CustomerRow {
    CustomerRow(id, g.userName, MakePassword(g.password, salt), g.firstName, g.lastName, g.phone,
                Some(g.email), g.street, g.city, g.state, g.zipCode, false)
  }

  function RegisterReply(r: CustomerRow): map<string, JsonValue> {
    map["customer_id" := JInt(r.customerId), "user_name" := JStr(r.userName),
        "first_name" := JStr(r.firstName), "last_name" := TextOrNull(r.lastName),
        "email" := TextOrNull(r.email), "is_email_verified" := JBool(r.isEmailVerified),
        "detail" := JStr("Registered. Please check your email to confirm.")]
  }

  /** `customer_register`: a failed check is a 400 that stores nothing;
      otherwise one unverified customer is added under the next id, with
      the password hashed, and a confirmation token is mailed to it. */
  method Register(store: Store, body: map<string, Option<string>>, salt: nat, saveSalt: nat, now: nat)
    returns (res: Response<map<string, JsonValue>>, mail: Option<Mail>)
    requires store.Valid()
    modifies store
    ensures store.Valid() && store.revoked == old(store.revoked)
    ensures var g := ReadRegistration(body);
            var e := RegisterCheck(old(store.customers), g);
            if e.Some? then
              && res == Detail(400, e.value) && mail.None?
              && store.customers == old(store.customers) && store.nextId == old(store.nextId)
            else
              var row := NewRow(g, old(store.nextId), salt);
              && store.customers == old(store.customers) + [row]
              && store.nextId == old(store.nextId) + 1
              && res == Json(201, RegisterReply(row))
              && mail == Some(Mail(g.email, ConfirmationToken(row.customerId, Some(g.email), now)))
    ensures UniqueUserNames(old(store.customers)) ==> UniqueUserNames(store.customers)
  {
    var g := ReadRegistration(body);
    ghost var e := RegisterCheck(store.customers, g);
    mail := None;
    if g.userName == "" {
      return Detail(400, "user_name is required"), mail;
    }
    if g.password == "" {
      return Detail(400, "password is required"), mail;
    }
    if g.email == "" {
      return Detail(400, "email is required"), mail;
    }
    if Where(store.customers, UserNameIs(g.userName)) != [] {
      assert e == Some("user_name already exists");
      return Detail(400, "user_name already exists"), mail;
    }
    if Where(store.customers, EmailIs(Some(g.email))) != [] {
      assert e == Some("email already in use");
      return Detail(400, "email already in use"), mail;
    }

    assert e.None?;
    var row := CreateCustomer(store, g, salt, saveSalt);
    mail := Some(Mail(g.email, ConfirmationToken(row.customerId, row.email, now)));
    res := Json(201, RegisterReply(row));
  }

  /** The creating half of `customer_register`: a new instance, its
      password set, then saved, which appends it under the next id (the
      first name is never null here, so the write succeeds). */
  method CreateCustomer(store: Store, g: Registration, salt: nat, saveSalt: nat) returns (row: CustomerRow)
    requires store.Valid()
    modifies store
    ensures row == NewRow(g, old(store.nextId), salt)
    ensures store.customers == old(store.customers) + [row]
    ensures store.nextId == old(store.nextId) + 1 && store.revoked == old(store.revoked)
    ensures store.Valid()
    ensures Where(old(store.customers), UserNameIs(g.userName)) == [] && UniqueUserNames(old(store.customers))
            ==> UniqueUserNames(store.customers)
  {
    row := NewRow(g, store.nextId, salt);
    if Where(store.customers, UserNameIs(g.userName)) == [] {
      AppendUnique(store.customers, row);
    }
    var obj := new Customer(g.userName, g.firstName, g.lastName, Some(g.email), g.phone,
                            g.street, g.city, g.state, g.zipCode, false);
    obj.SetPassword(g.password, salt);
    UpsertValid(store.customers, row, store.nextId);
    var saved := obj.Save(store, saveSalt);
    assert RowOf(obj.Snapshot(), obj.customerId.value) == row;
  }

  // ----- Confirm -----

  function IdAndEmail(id: nat, email: string): CustomerRow -> bool {
    (x: CustomerRow) => x.customerId == id && EmailMatches(x, Some(email))
  }

  /** What the confirmation token tells the view: no token, a token that
      `loads` refuses, or the id and lower-cased email it carries. */
  datatype Claim = NoToken | BadToken | Claimed(id: Option<nat>, email: string)

  /** The token read as `customer_confirm_email` reads it. The first
      `except` names BadSignature, which also catches SignatureExpired, so an
      expired token is refused like a forged one. */
  function ReadClaim(token: Option<string>, now: int): (c: Claim)
    ensures c.NoToken? <==> !Truthy(token)
    ensures c.BadToken? <==> Truthy(token) && IsBadSignature(Loads(token.value, TokenSalt, TokenMaxAge, now))
    ensures c.Claimed? ==>
              var l := Loads(token.value, TokenSalt, TokenMaxAge, now);
              l.Valid? && c == Claimed(l.data.id, Lower(OrEmpty(l.data.email)))
  {
    if !Truthy(token) then NoToken
    else
      var l := Loads(token.value, TokenSalt, TokenMaxAge, now);
      if IsBadSignature(l) then BadToken
      else Claimed(l.data.id, Lower(OrEmpty(l.data.email)))
  }

  /** The confirmation of the customer a token names: the customer must
      match both the id and, whatever its case, the email; a verified
      customer is left alone; otherwise only its flag is set. */
  function ConfirmFor(customers: seq<CustomerRow>, id: Option<nat>, email: string): (o: Outcome)
    ensures o.res.Status() != 400
    ensures |o.customers| == |customers|
    ensures forall k :: 0 <= k < |customers| ==>
              o.customers[k] == customers[k] || o.customers[k] == customers[k].(isEmailVerified := true)
    ensures o.customers != customers ==> o.res == Detail(200, "email verified successfully")
    ensures forall k :: 0 <= k < |customers| && o.customers[k] != customers[k] ==>
              id == Some(customers[k].customerId) && !customers[k].isEmailVerified
    ensures DistinctIds(customers) ==>
              forall k :: 0 <= k < |customers| && o.customers[k] != customers[k] ==>
                EmailMatches(customers[k], Some(email))
    ensures o.res == Detail(404, "customer not found") <==>
              id.None? || Where(customers, IdAndEmail(id.value, email)) == []
    ensures o.res == Detail(404, "customer not found") ==> o.customers == customers
  {
    if id.None? then Outcome(Detail(404, "customer not found"), customers)
    else
      match GetOne(Where(customers, IdAndEmail(id.value, email)))
      case NotFound => Outcome(Detail(404, "customer not found"), customers)
      case Several => Outcome(ServerError, customers)
      case Found(obj) =>
        if obj.isEmailVerified then Outcome(Detail(200, "email already verified"), customers)
        else
          var i := IndexOfId(customers, obj.customerId);
          if i < 0 then Outcome(ServerError, customers)
          else
            assert DistinctIds(customers) ==> customers[i] == obj by {
              if DistinctIds(customers) {
                assert obj in customers;
                var j :| 0 <= j < |customers| && customers[j] == obj;
                assert i == j;
              }
            }
            Outcome(Detail(200, "email verified successfully"),
                       customers[i := customers[i].(isEmailVerified := true)])
  }

  /** What `customer_confirm_email` answers and leaves: a missing token is
      a 400 "token is required", a refused one (expired included) a 400
      "invalid token"; the answer "token expired" is never given. */
  function ConfirmSpec(customers: seq<CustomerRow>, token: Option<string>, now: int): (o: Outcome)
    ensures o.res == Detail(400, "token is required") <==> !Truthy(token)
    ensures o.res == Detail(400, "invalid token") <==>
              Truthy(token) && IsBadSignature(Loads(token.value, TokenSalt, TokenMaxAge, now))
    ensures o.res != Detail(400, "token expired")
    ensures o.res.Status() == 400 ==> o.customers == customers
  {
    match ReadClaim(token, now)
    case NoToken => Outcome(Detail(400, "token is required"), customers)
    case BadToken => Outcome(Detail(400, "invalid token"), customers)
    case Claimed(id, email) => ConfirmFor(customers, id, email)
  }

  /** `customer_confirm_email` on the query's `token` at time `now`. */
  method ConfirmEmail(store: Store, token: Option<string>, salt: nat, now: int) returns (res: Response<map<string, JsonValue>>)
    requires store.Valid()
    modifies store
    ensures Outcome(res, store.customers) == ConfirmSpec(old(store.customers), token, now)
    ensures store.nextId == old(store.nextId) && store.revoked == old(store.revoked)
    ensures store.Valid()
  {
    ConfirmSpecValid(store.customers, token, now, store.nextId);
    if !Truthy(token) {
      return Detail(400, "token is required");
    }
    var data := Loads(token.value, TokenSalt, TokenMaxAge, now);
    if IsBadSignature(data) {
      return Detail(400, "invalid token");
    }
    var cid := data.data.id;
    var email := Lower(OrEmpty(data.data.email));
    if cid.None? {
      return Detail(404, "customer not found");
    }
    var found := GetOne(Where(store.customers, IdAndEmail(cid.value, email)));
    if found.NotFound? {
      return Detail(404, "customer not found");
    } else if found.Several? {
      return ServerError;
    }
    var obj := new Customer.FromRow(found.row);
    if obj.isEmailVerified {
      return Detail(200, "email already verified");
    }
    assert found.row in store.customers;
    obj.isEmailVerified := true;
    var saved := obj.SaveOnly(store, salt, VerifiedColumn);
    res := if saved then Detail(200, "email verified successfully") else ServerError;
  }

  /** Confirming sets at most one row's verified flag: every id stays in
      its place, so a valid store stays valid. */
  lemma ConfirmSpecValid(customers: seq<CustomerRow>, token: Option<string>, now: int, nextId: nat)
    requires DistinctIds(customers)
    requires forall i :: 0 <= i < |customers| ==> customers[i].customerId < nextId
    ensures var out := ConfirmSpec(customers, token, now).customers;
            && DistinctIds(out)
            && (forall i :: 0 <= i < |out| ==> out[i].customerId < nextId)
  {
    var out := ConfirmSpec(customers, token, now).customers;
    var c := ReadClaim(token, now);
    if c.Claimed? {
      assert out == ConfirmFor(customers, c.id, c.email).customers;
    }
    SameIdsValid(customers, out, nextId);
  }

  /** A mailed token carries its customer's id and email until it is three
      days old, and is refused after that. */
  lemma MailedTokenClaim(customerId: nat, email: Option<string>, sentAt: nat, now: int)
    ensures var c := ReadClaim(Some(ConfirmationToken(customerId, email, sentAt)), now);
            && (now - sentAt <= TokenMaxAge ==> c == Claimed(Some(customerId), Lower(OrEmpty(email))))
            && (now - sentAt > TokenMaxAge ==> c == BadToken)
  {
    LoadsDumps(Payload(Some(customerId), email, None, None), TokenSalt, sentAt, TokenMaxAge, now);
  }

  /** An unverified customer with an email is confirmed by its own id and
      email, whatever the case of the email. */
  lemma ConfirmForCustomer(customers: seq<CustomerRow>, r: CustomerRow)
    requires DistinctIds(customers)
    requires r in customers && r.email.Some? && !r.isEmailVerified
    ensures var o := ConfirmFor(customers, Some(r.customerId), Lower(r.email.value));
            && o.res == Detail(200, "email verified successfully")
            && r.(isEmailVerified := true) in o.customers
  {
    var p := IdAndEmail(r.customerId, Lower(r.email.value));
    LowerIdempotent(r.email.value);
    assert p(r);
    AtMostOneWithId(customers, p, r.customerId);
    var m := Where(customers, p);
    assert r in m;
    assert m == [r];
    var i := IndexOfId(customers, r.customerId);
    SameIdSameRow(customers, r, customers[i]);
    assert customers[i := r.(isEmailVerified := true)][i] == r.(isEmailVerified := true);
  }

  /** The token mailed at registration (or resent) confirms its customer
      while it is at most three days old; after that it is an invalid
      token, never "token expired". */
  lemma ConfirmMailedToken(customers: seq<CustomerRow>, r: CustomerRow, sentAt: nat, now: int)
    requires DistinctIds(customers)
    requires r in customers && r.email.Some? && !r.isEmailVerified
    ensures var o := ConfirmSpec(customers, Some(ConfirmationToken(r.customerId, r.email, sentAt)), now);
            && (now - sentAt <= TokenMaxAge ==>
                  && o.res == Detail(200, "email verified successfully")
                  && r.(isEmailVerified := true) in o.customers)
            && (now - sentAt > TokenMaxAge ==> o == Outcome(Detail(400, "invalid token"), customers))
  {
    if now - sentAt <= TokenMaxAge {
      MailedTokenFresh(customers, r.customerId, r.email, sentAt, now);
      ConfirmForCustomer(customers, r);
    } else {
      MailedTokenExpired(customers, r.customerId, r.email, sentAt, now);
    }
  }

  /** A mailed token at most three days old confirms by its id and email. */
  lemma MailedTokenFresh(customers: seq<CustomerRow>, customerId: nat, email: Option<string>, sentAt: nat, now: int)
    requires now - sentAt <= TokenMaxAge
    ensures ConfirmSpec(customers, Some(ConfirmationToken(customerId, email, sentAt)), now)
            == ConfirmFor(customers, Some(customerId), Lower(OrEmpty(email)))
  {
    MailedTokenClaim(customerId, email, sentAt, now);
  }

  /** An older mailed token is an invalid token and changes nothing. */
  lemma MailedTokenExpired(customers: seq<CustomerRow>, customerId: nat, email: Option<string>, sentAt: nat, now: int)
    requires now - sentAt > TokenMaxAge
    ensures ConfirmSpec(customers, Some(ConfirmationToken(customerId, email, sentAt)), now)
            == Outcome(Detail(400, "invalid token"), customers)
  {
    MailedTokenClaim(customerId, email, sentAt, now);
  }

  /** Confirming the same customer again leaves the table as it is and
      answers "email already verified". */
  lemma ConfirmForIdempotent(customers: seq<CustomerRow>, id: Option<nat>, email: string)
    requires DistinctIds(customers)
    ensures var o1 := ConfirmFor(customers, id, email);
            var o2 := ConfirmFor(o1.customers, id, email);
            && o2.customers == o1.customers
            && (o1.res == Detail(200, "email verified successfully") ==> o2.res == Detail(200, "email already verified"))
  {
    var o1 := ConfirmFor(customers, id, email);
    if o1.res == Detail(200, "email verified successfully") {
      var p := IdAndEmail(id.value, email);
      var m := Where(customers, p);
      var i := IndexOfId(customers, m[0].customerId);
      SameIdSameRow(customers, m[0], customers[i]);
      var c := o1.customers;
      assert c == customers[i := customers[i].(isEmailVerified := true)];
      assert DistinctIds(c) by {
        forall a, b | 0 <= a < b < |c| ensures c[a].customerId != c[b].customerId {
          assert c[a].customerId == customers[a].customerId;
          assert c[b].customerId == customers[b].customerId;
        }
      }
      AtMostOneWithId(c, p, id.value);
      assert p(c[i]);
      var m2 := Where(c, p);
      assert c[i] in m2;
      assert m2 == [c[i]];
    }
  }

  /** A token that is refused stays refused later on, and one that is
      accepted names the same customer whenever it is accepted. */
  lemma ClaimLater(token: Option<string>, now: int, later: int)
    requires now <= later
    ensures ReadClaim(token, now).NoToken? ==> ReadClaim(token, later).NoToken?
    ensures ReadClaim(token, now).BadToken? ==> ReadClaim(token, later).BadToken?
    ensures ReadClaim(token, later).Claimed? ==> ReadClaim(token, now) == ReadClaim(token, later)
  {
  }

  /** Confirming again with the same token, at the same time or later,
      changes nothing more; while the token is still accepted, the answer
      is "email already verified". */
  lemma ConfirmIdempotent(customers: seq<CustomerRow>, token: Option<string>, now: int, later: int)
    requires DistinctIds(customers)
    requires now <= later
    ensures var o1 := ConfirmSpec(customers, token, now);
            var o2 := ConfirmSpec(o1.customers, token, later);
            && o2.customers == o1.customers
            && (o1.res == Detail(200, "email verified successfully") && ReadClaim(token, later).Claimed?
                ==> o2.res == Detail(200, "email already verified"))
  {
    ClaimLater(token, now, later);
    var c1 := ReadClaim(token, now);
    if c1.Claimed? {
      ConfirmForIdempotent(customers, c1.id, c1.email);
    }
  }

  // ----- Resend -----

  /** The user name and the email a resend reads: stripped, and the
      email lower-cased. */
  function ResendUserName(body: map<string, Option<string>>): (u: string)
    ensures Trimmed(u)
  {
    Strip(OrEmpty(Get(body, "user_name")))
  }

  function ResendEmail(body: map<string, Option<string>>): (e: string)
    ensures Lower(e) == e
  {
    var t := Strip(OrEmpty(Get(body, "email")));
    LowerIdempotent(t);
    Lower(t)
  }

  /** The accounts a resend looks at: those with the user name, when one
      is given, else those with the email, whatever the case. */
  function ResendMatches(customers: seq<CustomerRow>, u: string, e: string): (m: seq<CustomerRow>)
    ensures u != "" ==> forall x :: x in m <==> x in customers && IEquals(x.userName, u)
    ensures u == "" ==> forall x :: x in m <==> x in customers && x.email.Some? && IEquals(x.email.value, e)
  {
    if u != "" then Where(customers, UserNameIs(u)) else Where(customers, EmailIs(Some(e)))
  }

  /** `customer_resend_confirmation`: the user name, when given, is looked
      up first, whatever the email; an unknown account gets a 200 that
      does not reveal it; a found account without an email is a 400, a
      verified one "email already verified", and exactly an unverified
      one with an email is mailed its token. Nothing is written. */
  function Resend(customers: seq<CustomerRow>, body: map<string, Option<string>>, now: nat): (s: Sent)
    ensures var u, e := ResendUserName(body), ResendEmail(body);
            var matches := ResendMatches(customers, u, e);
            && (s.res == Detail(400, "user_name or email is required") <==> u == "" && e == "")
            && (s.res == Detail(200, "If the account exists, an email has been sent.") <==>
                  (u != "" || e != "") && matches == [])
            && (s.res.ServerError? <==> (u != "" || e != "") && |matches| > 1)
            && (s.mail.Some? <==> s.res == Detail(200, "Verification email sent"))
            && (s.mail.Some? <==>
                  (u != "" || e != "") && |matches| == 1 && Truthy(matches[0].email) && !matches[0].isEmailVerified)
            && (s.mail.Some? ==>
                  s.mail.value == Mail(matches[0].email.value,
                                       ConfirmationToken(matches[0].customerId, matches[0].email, now)))
  {
    var userName := ResendUserName(body);
    var email := ResendEmail(body);
    if userName == "" && email == "" then Sent(Detail(400, "user_name or email is required"), None)
    else
      match GetOne(ResendMatches(customers, userName, email))
      case NotFound => Sent(Detail(200, "If the account exists, an email has been sent."), None)
      case Several => Sent(ServerError, None)
      case Found(obj) => ResendTo(obj, now)
  }

  /** A resend that finds exactly one account answers by that account: a
      400 when it has no email, "email already verified" when it is
      verified (and otherwise mails it, by `Resend`'s contract). */
  lemma ResendFoundAnswers(customers: seq<CustomerRow>, body: map<string, Option<string>>, now: nat)
    ensures var u, e := ResendUserName(body), ResendEmail(body);
            var matches := ResendMatches(customers, u, e);
            var s := Resend(customers, body, now);
            && (s.res == Detail(400, "Account has no email to send to") <==>
                  (u != "" || e != "") && |matches| == 1 && !Truthy(matches[0].email))
            && (s.res == Detail(200, "email already verified") <==>
                  (u != "" || e != "") && |matches| == 1 && Truthy(matches[0].email) && matches[0].isEmailVerified)
  {
    var u, e := ResendUserName(body), ResendEmail(body);
    var matches := ResendMatches(customers, u, e);
    if (u != "" || e != "") && |matches| == 1 {
      assert Resend(customers, body, now) == ResendTo(matches[0], now);
    }
  }

  /** The answer of a resend that found exactly one account. */
  function ResendTo(obj: CustomerRow, now: nat): (s: Sent)
    ensures s.res == Detail(400, "Account has no email to send to") <==> !Truthy(obj.email)
    ensures s.res == Detail(200, "email already verified") <==> Truthy(obj.email) && obj.isEmailVerified
    ensures s.mail.Some? <==> s.res == Detail(200, "Verification email sent")
    ensures s.mail.Some? <==> Truthy(obj.email) && !obj.isEmailVerified
    ensures s.mail.Some? ==> s.mail.value == Mail(obj.email.value, ConfirmationToken(obj.customerId, obj.email, now))
    ensures s.res == Detail(400, "Account has no email to send to") || s.res == Detail(200, "email already verified")
            || s.res == Detail(200, "Verification email sent")
  {
    if !Truthy(obj.email) then Sent(Detail(400, "Account has no email to send to"), None)
    else if obj.isEmailVerified then Sent(Detail(200, "email already verified"), None)
    else Sent(Detail(200, "Verification email sent"),
              Some(Mail(obj.email.value, ConfirmationToken(obj.customerId, obj.email, now))))
  }

  /** With a user name given, the email in the request plays no part. */
  lemma ResendUserNameFirst(customers: seq<CustomerRow>, body: map<string, Option<string>>, other: Option<string>, now: nat)
    requires ResendUserName(body) != ""
    ensures Resend(customers, body["email" := other], now) == Resend(customers, body, now)
  {
    assert Get(body["email" := other], "user_name") == Get(body, "user_name");
  }

  /** The token a resend mails confirms its account while it is at most
      three days old. */
  lemma ResendThenConfirm(customers: seq<CustomerRow>, body: map<string, Option<string>>, now: nat, later: int)
    requires DistinctIds(customers)
    requires Resend(customers, body, now).mail.Some?
    requires later - now <= TokenMaxAge
    ensures ConfirmSpec(customers, Some(Resend(customers, body, now).mail.value.token), later).res
            == Detail(200, "email verified successfully")
  {
    var u, e := ResendUserName(body), ResendEmail(body);
    var matches := if u != "" then Where(customers, UserNameIs(u)) else Where(customers, EmailIs(Some(e)));
    assert matches[0] in matches;
    ConfirmMailedToken(customers, matches[0], now, later);
  }
}
