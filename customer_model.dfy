/** The customer model (`api/customer/models.py`): the customer table, the
    table of revoked login tokens the views rely on, and the `Customer`
    instance with its password helpers, its display name and its `save`. */
module CustomerModel {
  import opened Base
  import opened Text
  import opened Hashing
  import opened Filtering

  /** A stored customer. `is_email_verified` is read and written by the
      views although `api/customer/models.py` does not declare it. */
  datatype CustomerRow = CustomerRow(
    customerId: nat, userName: string, password: Password,
    firstName: string, lastName: Option<string>, phone: Option<string>, email: Option<string>,
    street: Option<string>, city: Option<string>, state: Option<string>, zipCode: Option<string>,
    isEmailVerified: bool)

  /** The fields of a `Customer` instance: no id until it is first saved,
      and a first name that a view may have set to null. */
  datatype Instance = Instance(
    customerId: Option<nat>, userName: string, password: Password,
    firstName: Option<string>, lastName: Option<string>, phone: Option<string>, email: Option<string>,
    street: Option<string>, city: Option<string>, state: Option<string>, zipCode: Option<string>,
    isEmailVerified: bool)

  /** The instance `Customer.objects.get(...)` builds from a row. */
  function InstanceOf(r: CustomerRow): (i: Instance)
    ensures i.customerId == Some(r.customerId) && i.firstName == Some(r.firstName)
  {
    Instance(Some(r.customerId), r.userName, r.password, Some(r.firstName), r.lastName, r.phone,
             r.email, r.street, r.city, r.state, r.zipCode, r.isEmailVerified)
  }

  /** The row a saved instance is stored as. */
  function RowOf(i: Instance, id: nat): (r: CustomerRow)
    requires i.firstName.Some?
    ensures InstanceOf(r) == i.(customerId := Some(id))
  {
    CustomerRow(id, i.userName, i.password, i.firstName.value, i.lastName, i.phone,
                i.email, i.street, i.city, i.state, i.zipCode, i.isEmailVerified)
  }

  /** The columns the admin update copies from the request with `setattr`. */
  const DetailColumns: seq<string> :=
    ["first_name", "last_name", "email", "phone", "street", "city", "state", "zip_code"]

  /** `setattr(obj, k, v)` for one of the detail columns; any other name
      changes nothing. */
  function SetColumn(i: Instance, k: string, v: Option<string>): Instance {
    match k
    case "first_name" => i.(firstName := v)
    case "last_name" => i.(lastName := v)
    case "email" => i.(email := v)
    case "phone" => i.(phone := v)
    case "street" => i.(street := v)
    case "city" => i.(city := v)
    case "state" => i.(state := v)
    case "zip_code" => i.(zipCode := v)
    case _ => i
  }

  /** The name a customer is shown by: first name, a space and the last
      name (empty when missing), with surrounding whitespace stripped. */
  function DisplayName(firstName: string, lastName: Option<string>): string {
    Strip(firstName + " " + OrEmpty(lastName))
  }

  /** Trimmed first and last names are joined by one space; a missing or
      empty last name leaves the trimmed first name, so None and "" give
      the same display name. */
  lemma DisplayNameParts(firstName: string, lastName: Option<string>)
    ensures firstName != "" && !IsSpace(firstName[0]) && lastName.Some? && lastName.value != ""
            && !IsSpace(lastName.value[|lastName.value| - 1])
            ==> DisplayName(firstName, lastName) == firstName + " " + lastName.value
    ensures lastName.None? || lastName.value == "" ==> DisplayName(firstName, lastName) == Strip(firstName)
  {
    if firstName != "" && !IsSpace(firstName[0]) && lastName.Some? && lastName.value != ""
       && !IsSpace(lastName.value[|lastName.value| - 1]) {
      var core := firstName + " " + lastName.value;
      assert core[0] == firstName[0] && core[|core| - 1] == lastName.value[|lastName.value| - 1];
      StripCore([], core, []);
      assert [] + core + [] == core;
    }
    if lastName.None? || lastName.value == "" {
      assert firstName + " " + OrEmpty(lastName) == [] + firstName + " ";
      assert AllSpace(" ");
      StripPadded([], firstName, " ");
    }
  }

  /** The position of the row with id `id`, or -1. */
  function IndexOfId(rows: seq<CustomerRow>, id: nat): (i: int)
    ensures -1 <= i < |rows|
    ensures i >= 0 ==> rows[i].customerId == id
    ensures i < 0 <==> forall j :: 0 <= j < |rows| ==> rows[j].customerId != id
  {
    if rows == [] then -1
    else if rows[0].customerId == id then 0
    else
      var k := IndexOfId(rows[1..], id);
      if k < 0 then -1 else k + 1
  }

  /** `Customer.objects.get(pk=id)`: the row, or None (DoesNotExist). */
  function ById(rows: seq<CustomerRow>, id: nat): (r: Option<CustomerRow>)
    ensures r.Some? ==> r.value in rows && r.value.customerId == id
    ensures r.None? <==> forall x :: x in rows ==> x.customerId != id
  {
    var i := IndexOfId(rows, id);
    if i >= 0 then Some(rows[i]) else None
  }

  /** The table after `save()` writes `r`: the row with its id is replaced,
      or `r` is added when there is none. */
  function Upsert(rows: seq<CustomerRow>, r: CustomerRow): (out: seq<CustomerRow>)
    ensures r in out
    ensures forall x :: x in out ==> x == r || x in rows
    ensures forall x :: x in rows && x.customerId != r.customerId ==> x in out
  {
    var i := IndexOfId(rows, r.customerId);
    if i >= 0 then
      var out := rows[i := r];
      assert out[i] == r;
      assert forall j :: 0 <= j < |rows| && j != i ==> out[j] == rows[j];
      out
    else rows + [r]
  }

  function OtherThan(id: nat): CustomerRow -> bool {
    (x: CustomerRow) => x.customerId != id
  }

  /** The table after `obj.delete()`: every other row, in order. */
  function Removed(rows: seq<CustomerRow>, id: nat): (out: seq<CustomerRow>)
    ensures forall x :: x in out <==> x in rows && x.customerId != id
  {
    Where(rows, OtherThan(id))
  }

  /** The outcome of `.get(...)` on a filtered table. */
  datatype Lookup = NotFound | Found(row: CustomerRow) | Several

  function GetOne(matches: seq<CustomerRow>): (l: Lookup)
    ensures l.NotFound? <==> matches == []
    ensures l.Found? <==> |matches| == 1
    ensures l.Found? ==> l.row == matches[0]
  {
    if matches == [] then NotFound else if |matches| == 1 then Found(matches[0]) else Several
  }

  function UserNameIs(u: string): CustomerRow -> bool {
    (x: CustomerRow) => IEquals(x.userName, u)
  }

  /** `email__iexact=e`; with None, the ORM looks for a NULL email. */
  predicate EmailMatches(x: CustomerRow, e: Option<string>) {
    if e.None? then x.email.None? else x.email.Some? && IEquals(x.email.value, e.value)
  }

  function EmailIs(e: Option<string>): CustomerRow -> bool {
    (x: CustomerRow) => EmailMatches(x, e)
  }

  function TextOrNull(v: Option<string>): (j: JsonValue)
    ensures v.Some? ==> j == JStr(v.value)
    ensures v.None? ==> j == JNull
  {
    if v.Some? then JStr(v.value) else JNull
  }

  const PublicKeys: set<string> :=
    {"customer_id", "user_name", "first_name", "last_name", "email", "phone",
     "street", "city", "state", "zip_code"}

  /** A customer as the login, `me` and admin views return it: every column
      but the password and the verification flag. */
  function PublicFields(r: CustomerRow): (m: map<string, JsonValue>)
    ensures m.Keys == PublicKeys && "password" !in m
    ensures m["customer_id"] == JInt(r.customerId) && m["user_name"] == JStr(r.userName)
    ensures m["first_name"] == JStr(r.firstName) && m["last_name"] == TextOrNull(r.lastName)
    ensures m["email"] == TextOrNull(r.email) && m["phone"] == TextOrNull(r.phone)
    ensures m["street"] == TextOrNull(r.street) && m["city"] == TextOrNull(r.city)
    ensures m["state"] == TextOrNull(r.state) && m["zip_code"] == TextOrNull(r.zipCode)
  {
    map["customer_id" := JInt(r.customerId), "user_name" := JStr(r.userName),
        "first_name" := JStr(r.firstName), "last_name" := TextOrNull(r.lastName),
        "email" := TextOrNull(r.email), "phone" := TextOrNull(r.phone),
        "street" := TextOrNull(r.street), "city" := TextOrNull(r.city),
        "state" := TextOrNull(r.state), "zip_code" := TextOrNull(r.zipCode)]
  }

  /** The primary key: no two rows share an id. */
  predicate DistinctIds(rows: seq<CustomerRow>) {
    forall i, j :: 0 <= i < j < |rows| ==> rows[i].customerId != rows[j].customerId
  }

  /** With distinct ids, a row is determined by its id. */
  lemma SameIdSameRow(rows: seq<CustomerRow>, a: CustomerRow, b: CustomerRow)
    requires DistinctIds(rows)
    requires a in rows && b in rows && a.customerId == b.customerId
    ensures a == b
  {
    var i :| 0 <= i < |rows| && rows[i] == a;
    var j :| 0 <= j < |rows| && rows[j] == b;
    assert !(i < j) && !(j < i);
  }

  /** User names that differ only in case belong to one customer at most. */
  predicate UniqueUserNames(rows: seq<CustomerRow>) {
    forall i, j :: 0 <= i < j < |rows| ==> !IEquals(rows[i].userName, rows[j].userName)
  }

  /** Adding a row whose user name matches no stored one, whatever the
      case, keeps user names unique. */
  lemma AppendUnique(rows: seq<CustomerRow>, r: CustomerRow)
    requires Where(rows, UserNameIs(r.userName)) == []
    ensures UniqueUserNames(rows) ==> UniqueUserNames(rows + [r])
  {
    WhereEmpty(rows, UserNameIs(r.userName));
    var out := rows + [r];
    if UniqueUserNames(rows) {
      forall i, j | 0 <= i < j < |out| ensures !IEquals(out[i].userName, out[j].userName) {
        if j == |rows| {
          assert out[i] in rows;
        }
      }
    }
  }

  /** With distinct ids, at most one row satisfies a condition that fixes
      the id. */
  lemma {:induction false} AtMostOneWithId(rows: seq<CustomerRow>, p: CustomerRow -> bool, id: nat)
    requires DistinctIds(rows)
    requires forall x :: p(x) ==> x.customerId == id
    ensures |Where(rows, p)| <= 1
  {
    if rows != [] {
      AtMostOneWithId(rows[1..], p, id);
      if p(rows[0]) {
        forall x | x in rows[1..] ensures !p(x) {
          var j :| 0 <= j < |rows[1..]| && rows[1..][j] == x;
          assert rows[j + 1] == x;
        }
        WhereEmpty(rows[1..], p);
      }
    }
  }

  /** A message the views send: its recipient and the signed token in its
      link (the rest of the text, and the URL around the token, are not
      modelled). */
  datatype Mail = Mail(to: string, token: string)

  /** A view's answer together with the customer table it leaves. */
  datatype Outcome = Outcome(res: Response<map<string, JsonValue>>, customers: seq<CustomerRow>)

  /** A view's answer together with the mail it sends, if any. */
  datatype Sent = Sent(res: Response<map<string, JsonValue>>, mail: Option<Mail>)

  /** The customer table and the table of revoked login tokens, which maps
      a token fingerprint to the time until which it stays revoked. */
  class Store {
    var customers: seq<CustomerRow>
    var nextId: nat
    var revoked: map<Digest, int>

    /** Ids are distinct and below the next id the database hands out. */
    ghost predicate Valid()
      reads this
    {
      && DistinctIds(customers)
      && (forall i :: 0 <= i < |customers| ==> customers[i].customerId < nextId)
    }

    constructor ()
      ensures customers == [] && nextId == 1 && revoked == map[]
      ensures Valid()
    {
      customers := [];
      nextId := 1;
      revoked := map[];
    }
  }

  /** The columns `save(update_fields=[...])` writes in this project. */
  datatype Column = PasswordColumn | VerifiedColumn

  class Customer {
    var customerId: Option<nat>
    var userName: string
    var password: Password
    var firstName: Option<string>
    var lastName: Option<string>
    var phone: Option<string>
    var email: Option<string>
    var street: Option<string>
    var city: Option<string>
    var state: Option<string>
    var zipCode: Option<string>
    var isEmailVerified: bool

    function Snapshot(): Instance
      reads this
    {
      Instance(customerId, userName, password, firstName, lastName, phone, email,
               street, city, state, zipCode, isEmailVerified)
    }

    /** `Customer(user_name=..., ...)`: an unsaved instance whose password
        is the empty default. */
    constructor (userName: string, firstName: string, lastName: Option<string>, email: Option<string>,
                 phone: Option<string>, street: Option<string>, city: Option<string>,
                 state: Option<string>, zipCode: Option<string>, isEmailVerified: bool)
      ensures Snapshot() == Instance(None, userName, Plain(""), Some(firstName), lastName, phone, email,
                                     street, city, state, zipCode, isEmailVerified)
    {
      this.customerId := None;
      this.userName := userName;
      this.password := Plain("");
      this.firstName := Some(firstName);
      this.lastName := lastName;
      this.phone := phone;
      this.email := email;
      this.street := street;
      this.city := city;
      this.state := state;
      this.zipCode := zipCode;
      this.isEmailVerified := isEmailVerified;
    }

    /** The instance `Customer.objects.get(...)` returns for a row. */
    constructor FromRow(r: CustomerRow)
      ensures Snapshot() == InstanceOf(r)
    {
      customerId := Some(r.customerId);
      userName := r.userName;
      password := r.password;
      firstName := Some(r.firstName);
      lastName := r.lastName;
      phone := r.phone;
      email := r.email;
      street := r.street;
      city := r.city;
      state := r.state;
      zipCode := r.zipCode;
      isEmailVerified := r.isEmailVerified;
    }

    /** `__str__`: the first name (Python writes a null one as "None"), a
        space and the last name or "", stripped. */
    function Str(): (s: string)
      reads this
      ensures firstName.Some? ==> s == DisplayName(firstName.value, lastName)
      ensures firstName.Some? && lastName.None? ==> s == Strip(firstName.value)
      ensures var f := OrEmpty(firstName);
              firstName.Some? && f != "" && !IsSpace(f[0]) && lastName.Some? && lastName.value != ""
              && !IsSpace(lastName.value[|lastName.value| - 1])
              ==> s == f + " " + lastName.value
      ensures firstName.None? && lastName.None? ==> s == "None"
    {
      var f := if firstName.Some? then firstName.value else "None";
      DisplayNameParts(f, lastName);
      StripCore([], "None", []);
      assert [] + "None" + [] == "None";
      DisplayName(f, lastName)
    }

    /** `set_password(raw)`: the field becomes a hash of `raw`; nothing
        else changes. */
    method SetPassword(raw: string, salt: nat)
      modifies this
      ensures Snapshot() == old(Snapshot()).(password := MakePassword(raw, salt))
    {
      password := MakePassword(raw, salt);
    }

    /** `check_password(raw)`. */
    predicate CheckPassword(raw: string)
      reads this
    {
      Hashing.CheckPassword(raw, password)
    }

    /** `setattr(obj, k, v)` for a detail column. */
    method SetAttr(k: string, v: Option<string>)
      modifies this
      ensures Snapshot() == SetColumn(old(Snapshot()), k, v)
    {
      match k
      case "first_name" => firstName := v;
      case "last_name" => lastName := v;
      case "email" => email := v;
      case "phone" => phone := v;
      case "street" => street := v;
      case "city" => city := v;
      case "state" => state := v;
      case "zip_code" => zipCode := v;
      case _ =>
    }

    /** `save()`: the hash guard runs on the password; then the row is
        written, under a new id when the instance has none. A null first
        name violates the NOT NULL column: the write fails and the table
        is unchanged. */
    method Save(store: Store, salt: nat) returns (saved: bool)
      modifies this, store
      ensures saved <==> old(firstName).Some?
      ensures var id := if old(customerId).Some? then old(customerId) else if saved then Some(old(store.nextId)) else None;
              Snapshot() == old(Snapshot()).(password := HashOnSave(old(password), salt), customerId := id)
      ensures saved ==> store.customers == Upsert(old(store.customers), RowOf(Snapshot(), customerId.value))
      ensures !saved ==> store.customers == old(store.customers)
      ensures store.nextId == if saved && old(customerId).None? then old(store.nextId) + 1 else old(store.nextId)
      ensures store.revoked == old(store.revoked)
    {
      if password != Plain("") && !HasDollar(password) {
        password := MakePassword(password.text, salt);
      }
      if firstName.None? {
        return false;
      }
      if customerId.None? {
        customerId := Some(store.nextId);
        store.nextId := store.nextId + 1;
      }
      store.customers := Upsert(store.customers, RowOf(Snapshot(), customerId.value));
      return true;
    }

    /** `save(update_fields=[column])`: the hash guard runs, then only that
        column of the stored row is written; with no stored row the ORM
        raises. */
    method SaveOnly(store: Store, salt: nat, column: Column) returns (saved: bool)
      requires customerId.Some?
      modifies this, store
      ensures Snapshot() == old(Snapshot()).(password := HashOnSave(old(password), salt))
      ensures var i := IndexOfId(old(store.customers), customerId.value);
              && (saved <==> i >= 0)
              && (saved ==> store.customers == old(store.customers)[i :=
                    if column == PasswordColumn then old(store.customers)[i].(password := password)
                    else old(store.customers)[i].(isEmailVerified := isEmailVerified)])
              && (!saved ==> store.customers == old(store.customers))
      ensures store.nextId == old(store.nextId) && store.revoked == old(store.revoked)
    {
      if password != Plain("") && !HasDollar(password) {
        password := MakePassword(password.text, salt);
      }
      var i := IndexOfId(store.customers, customerId.value);
      if i < 0 {
        return false;
      }
      var row := store.customers[i];
      if column == PasswordColumn {
        row := row.(password := password);
      } else {
        row := row.(isEmailVerified := isEmailVerified);
      }
      store.customers := store.customers[i := row];
      return true;
    }
  }

  /** Writing a row keeps ids distinct; a new row takes the next id. */
  lemma UpsertValid(rows: seq<CustomerRow>, r: CustomerRow, nextId: nat)
    requires DistinctIds(rows)
    requires forall i :: 0 <= i < |rows| ==> rows[i].customerId < nextId
    requires r.customerId <= nextId
    ensures var out := Upsert(rows, r);
            && DistinctIds(out)
            && (forall i :: 0 <= i < |out| ==> out[i].customerId < nextId + 1)
            && (r.customerId == nextId ==> out == rows + [r])
  {
    var i := IndexOfId(rows, r.customerId);
    if r.customerId == nextId {
      assert i < 0;
    }
  }

  /** Keeping some of the rows keeps ids distinct. */
  lemma WhereDistinctIds(rows: seq<CustomerRow>, p: CustomerRow -> bool)
    requires DistinctIds(rows)
    ensures DistinctIds(Where(rows, p))
  {
    WherePairwise(rows, p, (a: CustomerRow, b: CustomerRow) => a.customerId != b.customerId);
  }

  /** Keeping some of the rows keeps user names unique. */
  lemma WhereUnique(rows: seq<CustomerRow>, p: CustomerRow -> bool)
    requires UniqueUserNames(rows)
    ensures UniqueUserNames(Where(rows, p))
  {
    WherePairwise(rows, p, (a: CustomerRow, b: CustomerRow) => !IEquals(a.userName, b.userName));
  }

  /** Deleting a row keeps ids distinct and below the next id. */
  lemma RemovedValid(rows: seq<CustomerRow>, id: nat, nextId: nat)
    requires DistinctIds(rows)
    requires forall i :: 0 <= i < |rows| ==> rows[i].customerId < nextId
    ensures var out := Removed(rows, id);
            && DistinctIds(out)
            && (forall i :: 0 <= i < |out| ==> out[i].customerId < nextId)
  {
    var out := Removed(rows, id);
    WhereDistinctIds(rows, OtherThan(id));
    forall i | 0 <= i < |out| ensures out[i].customerId < nextId {
      assert out[i] in rows;
    }
  }

  /** Rows rewritten in place, each keeping its id, keep the store valid. */
  lemma SameIdsValid(rows: seq<CustomerRow>, out: seq<CustomerRow>, nextId: nat)
    requires DistinctIds(rows)
    requires forall i :: 0 <= i < |rows| ==> rows[i].customerId < nextId
    requires |out| == |rows| && forall k :: 0 <= k < |rows| ==> out[k].customerId == rows[k].customerId
    ensures DistinctIds(out)
    ensures forall i :: 0 <= i < |out| ==> out[i].customerId < nextId
  {
    forall a, b | 0 <= a < b < |out| ensures out[a].customerId != out[b].customerId {
      assert rows[a].customerId != rows[b].customerId;
    }
  }
}
