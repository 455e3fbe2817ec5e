/** Password reset for customers (`api/customer/views_password.py`): a
    request mails a signed reset token to the account's address; confirm
    checks the form, then the token, then rewrites the password. */
module CustomerPassword {
  import opened Base
  import opened Text
  import opened Filtering
  import opened Hashing
  import opened Signing
  import opened CustomerModel

  const PwresetSalt: string := "customer-password-reset"
  /** One hour, in seconds. */
  const PwresetMaxAge: nat := 60 * 60

  const RequestReply: string := "Nếu tài khoản tồn tại, email đặt lại mật khẩu đã được gửi."
  const ResetDone: string := "Password updated successfully"

  /** The token of `_send_reset_email`: the customer's id, its email
      lower-cased (an absent one as ""), and the time of sending. */
  function ResetToken(r: CustomerRow, now: nat): string {
    Dumps(Payload(Some(r.customerId), Some(Lower(OrEmpty(r.email))), None, Some(now)), PwresetSalt, now)
  }

  // ----- Request -----

  /** The rows the request looks up: by user name when one is given,
      otherwise by email. */
  function RequestMatches(customers: seq<CustomerRow>, userName: string, email: string): seq<CustomerRow> {
    if userName != "" then Where(customers, UserNameIs(userName)) else Where(customers, EmailIs(Some(email)))
  }

  /** `password_reset_request`: the user name, when given, is looked up
      first; a found account with an email is mailed a reset token. Known
      and unknown accounts get the same 200 (several accounts matching is
      an unhandled error). Nothing is written. */
  function ResetRequest(customers: seq<CustomerRow>, body: map<string, Option<string>>, now: nat): (s: Sent)
    ensures var u, e := Strip(OrEmpty(Get(body, "user_name"))), Lower(Strip(OrEmpty(Get(body, "email"))));
            var matches := RequestMatches(customers, u, e);
            && (s.res == Detail(400, "user_name hoặc email là bắt buộc") <==> u == "" && e == "")
            && (s.res.ServerError? <==> (u != "" || e != "") && |matches| > 1)
            && ((u != "" || e != "") && |matches| <= 1 ==> s.res == Detail(200, RequestReply))
            && (s.mail.Some? <==> (u != "" || e != "") && |matches| == 1 && Truthy(matches[0].email))
            && (s.mail.Some? ==> s.mail.value == Mail(matches[0].email.value, ResetToken(matches[0], now)))
  {
    var userName := Strip(OrEmpty(Get(body, "user_name")));
    var email := Lower(Strip(OrEmpty(Get(body, "email"))));
    if userName == "" && email == "" then Sent(Detail(400, "user_name hoặc email là bắt buộc"), None)
    else
      match GetOne(RequestMatches(customers, userName, email))
      case NotFound => Sent(Detail(200, RequestReply), None)
      case Several => Sent(ServerError, None)
      case Found(obj) =>
        if Truthy(obj.email) then Sent(Detail(200, RequestReply), Some(Mail(obj.email.value, ResetToken(obj, now))))
        else Sent(Detail(200, RequestReply), None)
  }

  /** With a user name given, the email in the request plays no part. */
  lemma RequestUserNameFirst(customers: seq<CustomerRow>, body: map<string, Option<string>>, other: Option<string>, now: nat)
    requires Strip(OrEmpty(Get(body, "user_name"))) != ""
    ensures ResetRequest(customers, body["email" := other], now) == ResetRequest(customers, body, now)
  {
    assert Get(body["email" := other], "user_name") == Get(body, "user_name");
  }

  // ----- Confirm -----

  /** The confirm form as the view reads it. */
  datatype ResetForm = ResetForm(token: Option<string>, newPassword: string, confirmPassword: string)

  /** The token comes from the body, or from the query when the body has
      none; the passwords are stripped, and `password_confirm` stands in
      for a missing `confirm_password`. */
  function ReadResetForm(body: map<string, Option<string>>, query: Option<string>): (f: ResetForm)
    ensures Trimmed(f.newPassword) && Trimmed(f.confirmPassword)
  {
    var confirm := if Truthy(Get(body, "confirm_password")) then Get(body, "confirm_password")
                   else Get(body, "password_confirm");
    ResetForm(
      if Truthy(Get(body, "token")) then Get(body, "token") else query,
      Strip(OrEmpty(Get(body, "new_password"))),
      Strip(OrEmpty(confirm)))
  }

  /** A token in the body wins over the query's; the query's is used only
      when the body has none. */
  lemma BodyTokenFirst(body: map<string, Option<string>>, query: Option<string>)
    ensures Truthy(Get(body, "token")) ==> ReadResetForm(body, query).token == Get(body, "token")
    ensures !Truthy(Get(body, "token")) ==> ReadResetForm(body, query).token == query
  {
  }

  /** The checks made before the token is decoded, in order. */
  function FormCheck(f: ResetForm): (e: Option<string>)
    ensures e == Some("token is required") <==> !Truthy(f.token)
    ensures e == Some("new_password tối thiểu 6 ký tự") <==> Truthy(f.token) && |f.newPassword| < 6
    ensures e == Some("confirm_password is required") <==>
              Truthy(f.token) && |f.newPassword| >= 6 && f.confirmPassword == ""
    ensures e == Some("password confirmation does not match") <==>
              Truthy(f.token) && |f.newPassword| >= 6 && f.confirmPassword != "" && f.newPassword != f.confirmPassword
    ensures e.None? <==> Truthy(f.token) && |f.newPassword| >= 6 && f.newPassword == f.confirmPassword
  {
    if !Truthy(f.token) then Some("token is required")
    else if f.newPassword == "" || |f.newPassword| < 6 then Some("new_password tối thiểu 6 ký tự")
    else if f.confirmPassword == "" then Some("confirm_password is required")
    else if f.newPassword != f.confirmPassword then Some("password confirmation does not match")
    else None
  }

  /** The customer's own email agrees with the token's: it is absent or
      empty, or equal to it whatever the case. */
  predicate EmailAgrees(r: CustomerRow, tokenEmail: string) {
    !Truthy(r.email) || Lower(r.email.value) == tokenEmail
  }

  /** The reset of the customer a valid token names: an unknown id, or an
      email that disagrees, is an invalid token and changes nothing;
      otherwise only that customer's password changes, to a hash of the
      new one. */
  function ResetFor(customers: seq<CustomerRow>, data: Payload, newPassword: string, salt: nat): (o: Outcome)
    ensures o.res == Detail(200, ResetDone) || o == Outcome(Detail(400, "invalid token"), customers)
    ensures o.res == Detail(200, ResetDone) <==>
              && data.id.Some? && IndexOfId(customers, data.id.value) >= 0
              && EmailAgrees(customers[IndexOfId(customers, data.id.value)], Lower(OrEmpty(data.email)))
    ensures o.res == Detail(200, ResetDone) ==>
              var i := IndexOfId(customers, data.id.value);
              && |o.customers| == |customers|
              && o.customers[i] == customers[i].(password := MakePassword(newPassword, salt))
              && (forall k :: 0 <= k < |customers| && k != i ==> o.customers[k] == customers[k])
  {
    if data.id.None? then Outcome(Detail(400, "invalid token"), customers)
    else
      var i := IndexOfId(customers, data.id.value);
      if i < 0 then Outcome(Detail(400, "invalid token"), customers)
      else if !EmailAgrees(customers[i], Lower(OrEmpty(data.email))) then Outcome(Detail(400, "invalid token"), customers)
      else Outcome(Detail(200, ResetDone), customers[i := customers[i].(password := MakePassword(newPassword, salt))])
  }

  /** What `password_reset_confirm` answers and leaves: the form is
      checked before the token is looked at; here the expiry is caught
      first, so an expired token is "token expired" and a forged one, or
      one under another salt, "invalid token". */
  function ResetSpec(customers: seq<CustomerRow>, f: ResetForm, salt: nat, now: int): (o: Outcome)
    ensures FormCheck(f).Some? ==> o == Outcome(Detail(400, FormCheck(f).value), customers)
    ensures FormCheck(f).None? ==>
              var l := Loads(f.token.value, PwresetSalt, PwresetMaxAge, now);
              && (l.Expired? ==> o == Outcome(Detail(400, "token expired"), customers))
              && (l.Bad? ==> o == Outcome(Detail(400, "invalid token"), customers))
              && (l.Valid? ==> o == ResetFor(customers, l.data, f.newPassword, salt))
    ensures o.res != Detail(200, ResetDone) ==> o.customers == customers
  {
    if FormCheck(f).Some? then Outcome(Detail(400, FormCheck(f).value), customers)
    else
      match Loads(f.token.value, PwresetSalt, PwresetMaxAge, now)
      case Expired => Outcome(Detail(400, "token expired"), customers)
      case Bad => Outcome(Detail(400, "invalid token"), customers)
      case Valid(data) => ResetFor(customers, data, f.newPassword, salt)
  }

  /** A reset changes at most one row's password: every id stays in its
      place, so a valid store stays valid. */
  lemma ResetForValid(customers: seq<CustomerRow>, data: Payload, newPassword: string, salt: nat, nextId: nat)
    requires DistinctIds(customers)
    requires forall i :: 0 <= i < |customers| ==> customers[i].customerId < nextId
    ensures var out := ResetFor(customers, data, newPassword, salt).customers;
            && DistinctIds(out)
            && (forall i :: 0 <= i < |out| ==> out[i].customerId < nextId)
  {
    var out := ResetFor(customers, data, newPassword, salt).customers;
    if out != customers {
      var i := IndexOfId(customers, data.id.value);
      forall k | 0 <= k < |customers| ensures out[k].customerId == customers[k].customerId {
        if k == i {
          assert out[k] == customers[k].(password := MakePassword(newPassword, salt));
        }
      }
    }
    SameIdsValid(customers, out, nextId);
  }

  lemma ResetSpecValid(customers: seq<CustomerRow>, f: ResetForm, salt: nat, now: int, nextId: nat)
    requires DistinctIds(customers)
    requires forall i :: 0 <= i < |customers| ==> customers[i].customerId < nextId
    ensures var out := ResetSpec(customers, f, salt, now).customers;
            && DistinctIds(out)
            && (forall i :: 0 <= i < |out| ==> out[i].customerId < nextId)
  {
    if FormCheck(f).None? {
      var l := Loads(f.token.value, PwresetSalt, PwresetMaxAge, now);
      if l.Valid? {
        ResetForValid(customers, l.data, f.newPassword, salt, nextId);
      }
    }
  }

  /** `password_reset_confirm` on a request body and the query's `token`. */
  method ResetConfirm(store: Store, body: map<string, Option<string>>, query: Option<string>,
                      salt: nat, saveSalt: nat, now: int) returns (res: Response<map<string, JsonValue>>)
    requires store.Valid()
    modifies store
    ensures Outcome(res, store.customers) == ResetSpec(old(store.customers), ReadResetForm(body, query), salt, now)
    ensures store.nextId == old(store.nextId) && store.revoked == old(store.revoked)
    ensures store.Valid()
  {
    ResetSpecValid(store.customers, ReadResetForm(body, query), salt, now, store.nextId);
    var f := ReadResetForm(body, query);
    if !Truthy(f.token) {
      return Detail(400, "token is required");
    }
    if f.newPassword == "" || |f.newPassword| < 6 {
      return Detail(400, "new_password tối thiểu 6 ký tự");
    }
    if f.confirmPassword == "" {
      return Detail(400, "confirm_password is required");
    }
    if f.newPassword != f.confirmPassword {
      return Detail(400, "password confirmation does not match");
    }

    var data := Loads(f.token.value, PwresetSalt, PwresetMaxAge, now);
    if data.Expired? {
      return Detail(400, "token expired");
    } else if data.Bad? {
      return Detail(400, "invalid token");
    }
    res := ResetWith(store, data.data, f.newPassword, salt, saveSalt);
  }

  /** The part of `password_reset_confirm` after a token loaded. */
  method ResetWith(store: Store, data: Payload, newPassword: string, salt: nat, saveSalt: nat)
    returns (res: Response<map<string, JsonValue>>)
    requires store.Valid()
    modifies store
    ensures Outcome(res, store.customers) == ResetFor(old(store.customers), data, newPassword, salt)
    ensures store.nextId == old(store.nextId) && store.revoked == old(store.revoked)
    ensures store.Valid()
  {
    ResetForValid(store.customers, data, newPassword, salt, store.nextId);
    var cid := data.id;
    var email := Lower(OrEmpty(data.email));
    if cid.None? {
      return Detail(400, "invalid token");
    }
    var found := ById(store.customers, cid.value);
    if found.None? {
      return Detail(400, "invalid token");
    }
    var obj := new Customer.FromRow(found.value);
    if Truthy(obj.email) && Lower(obj.email.value) != email {
      return Detail(400, "invalid token");
    }

    obj.SetPassword(newPassword, salt);
    var saved := obj.SaveOnly(store, saveSalt, PasswordColumn);
    res := if saved then Detail(200, ResetDone) else ServerError;
  }

  /** A mail from the reset request goes to a stored customer with an
      email, and carries that customer's reset token. */
  lemma RequestMailsRow(customers: seq<CustomerRow>, body: map<string, Option<string>>, sentAt: nat)
    returns (r: CustomerRow)
    requires ResetRequest(customers, body, sentAt).mail.Some?
    ensures r in customers && Truthy(r.email)
    ensures ResetRequest(customers, body, sentAt).mail.value == Mail(r.email.value, ResetToken(r, sentAt))
  {
    var u, e := Strip(OrEmpty(Get(body, "user_name"))), Lower(Strip(OrEmpty(Get(body, "email"))));
    var matches := RequestMatches(customers, u, e);
    r := matches[0];
    assert r in matches;
  }

  /** A valid reset token of a stored customer resets that customer's
      password, which is then checked by exactly the new one. */
  lemma ResetForRow(customers: seq<CustomerRow>, r: CustomerRow, data: Payload, newPassword: string, salt: nat)
    requires DistinctIds(customers)
    requires r in customers && Truthy(r.email)
    requires data.id == Some(r.customerId) && data.email == Some(Lower(r.email.value))
    ensures var o := ResetFor(customers, data, newPassword, salt);
            && o.res == Detail(200, ResetDone)
            && exists x :: x in o.customers && x.email == r.email
                           && forall p :: CheckPassword(p, x.password) <==> p == newPassword
  {
    var i := IndexOfId(customers, r.customerId);
    SameIdSameRow(customers, r, customers[i]);
    LowerIdempotent(r.email.value);
    var o := ResetFor(customers, data, newPassword, salt);
    assert o.customers[i] in o.customers;
  }

  /** A reset token names its customer's id and lower-cased email for an
      hour, and is expired after that. */
  lemma ResetTokenLoads(r: CustomerRow, sentAt: nat, now: int)
    ensures ResetToken(r, sentAt) != ""
    ensures var l := Loads(ResetToken(r, sentAt), PwresetSalt, PwresetMaxAge, now);
            && (now - sentAt <= PwresetMaxAge ==>
                  l == Valid(Payload(Some(r.customerId), Some(Lower(OrEmpty(r.email))), None, Some(sentAt))))
            && (now - sentAt > PwresetMaxAge ==> l.Expired?)
  {
    LoadsDumps(Payload(Some(r.customerId), Some(Lower(OrEmpty(r.email))), None, Some(sentAt)),
               PwresetSalt, sentAt, PwresetMaxAge, now);
  }

  /** A token that loads to a customer's id and lower-cased email resets
      that customer's password. */
  lemma ResetWithValid(customers: seq<CustomerRow>, r: CustomerRow, token: string, data: Payload,
                       newPassword: string, salt: nat, now: int)
    requires DistinctIds(customers)
    requires r in customers && Truthy(r.email)
    requires token != "" && |newPassword| >= 6
    requires data.id == Some(r.customerId) && data.email == Some(Lower(r.email.value))
    requires Loads(token, PwresetSalt, PwresetMaxAge, now) == Valid(data)
    ensures var o := ResetSpec(customers, ResetForm(Some(token), newPassword, newPassword), salt, now);
            && o.res == Detail(200, ResetDone)
            && exists x :: x in o.customers && x.email == r.email
                           && forall p :: CheckPassword(p, x.password) <==> p == newPassword
  {
    ResetForRow(customers, r, data, newPassword, salt);
  }

  /** A customer's reset token, sent at `sentAt`, resets its password
      until it is an hour old, and is "token expired" after that. */
  lemma ResetWithToken(customers: seq<CustomerRow>, r: CustomerRow, sentAt: nat,
                       newPassword: string, salt: nat, now: int)
    requires DistinctIds(customers)
    requires r in customers && Truthy(r.email)
    requires |newPassword| >= 6
    ensures var o := ResetSpec(customers, ResetForm(Some(ResetToken(r, sentAt)), newPassword, newPassword), salt, now);
            && (now - sentAt <= PwresetMaxAge ==>
                  && o.res == Detail(200, ResetDone)
                  && exists x :: x in o.customers && x.email == r.email
                                 && forall p :: CheckPassword(p, x.password) <==> p == newPassword)
            && (now - sentAt > PwresetMaxAge ==> o == Outcome(Detail(400, "token expired"), customers))
  {
    var token := ResetToken(r, sentAt);
    var data := Payload(Some(r.customerId), Some(Lower(OrEmpty(r.email))), None, Some(sentAt));
    ResetTokenLoads(r, sentAt, now);
    if now - sentAt <= PwresetMaxAge {
      ResetWithValid(customers, r, token, data, newPassword, salt, now);
    } else {
      ResetWithExpired(customers, token, newPassword, salt, now);
    }
  }

  /** An expired token is refused as such once the form is complete, and
      nothing changes. */
  lemma ResetWithExpired(customers: seq<CustomerRow>, token: string, newPassword: string, salt: nat, now: int)
    requires token != "" && |newPassword| >= 6
    requires Loads(token, PwresetSalt, PwresetMaxAge, now).Expired?
    ensures ResetSpec(customers, ResetForm(Some(token), newPassword, newPassword), salt, now)
              == Outcome(Detail(400, "token expired"), customers)
  {
    assert FormCheck(ResetForm(Some(token), newPassword, newPassword)).None?;
  }

  /** The token a reset request mails lets its customer set a new password
      for one hour: the password is then checked by exactly the new one.
      After the hour the token is "token expired" and nothing changes. */
  lemma RequestThenReset(customers: seq<CustomerRow>, body: map<string, Option<string>>, sentAt: nat,
                         newPassword: string, salt: nat, now: int)
    requires DistinctIds(customers)
    requires ResetRequest(customers, body, sentAt).mail.Some?
    requires |newPassword| >= 6
    ensures var mail := ResetRequest(customers, body, sentAt).mail.value;
            var o := ResetSpec(customers, ResetForm(Some(mail.token), newPassword, newPassword), salt, now);
            && (now - sentAt <= PwresetMaxAge ==>
                  && o.res == Detail(200, ResetDone)
                  && exists x :: x in o.customers && x.email == Some(mail.to)
                                 && forall p :: CheckPassword(p, x.password) <==> p == newPassword)
            && (now - sentAt > PwresetMaxAge ==> o == Outcome(Detail(400, "token expired"), customers))
  {
    var r := RequestMailsRow(customers, body, sentAt);
    ResetWithToken(customers, r, sentAt, newPassword, salt, now);
  }
}
