/** The customer administration views (`api/customer/views_admin.py`): a
    listing with a search, three narrowing filters, an allow-listed order
    and pagination; a create with case-insensitive uniqueness checks; and a
    detail view that reads, updates or deletes one customer. */
module CustomerAdmin {
  import opened Base
  import opened Text
  import opened Sorting
  import opened Filtering
  import opened Paging
  import opened Hashing
  import opened CustomerModel

  // ----- The update allow-list -----

  /** The fields an update may carry; the id is not among them. */
  const AllowedFields: seq<string> :=
    ["user_name", "password", "first_name", "last_name", "phone", "email", "street", "city", "state", "zip_code"]

  /** The allowed fields present in the body, with their values. */
  function Sanitized(body: map<string, Option<string>>): map<string, Option<string>> {
    map k | k in body.Keys && k in AllowedFields :: body[k]
  }

  /** `_sanitize_update`: the loop over the allow-list that copies each
      allowed field present in the body. The result has exactly the
      allowed keys the body has, each with the body's value, and never the
      id. */
  method SanitizeUpdate(body: map<string, Option<string>>) returns (out: map<string, Option<string>>)
    ensures out.Keys == set k | k in AllowedFields && k in body
    ensures forall k :: k in out ==> out[k] == body[k]
    ensures "customer_id" !in out
    ensures out == Sanitized(body)
  {
    out := map[];
    var i := 0;
    while i < |AllowedFields|
      invariant 0 <= i <= |AllowedFields|
      invariant out.Keys == set k | k in AllowedFields[..i] && k in body
      invariant forall k :: k in out ==> out[k] == body[k]
    {
      var k := AllowedFields[i];
      assert AllowedFields[..i + 1] == AllowedFields[..i] + [k];
      if k in body {
        out := out[k := body[k]];
      }
      i := i + 1;
    }
    assert AllowedFields[..i] == AllowedFields;
  }

  // ----- List -----

  /** The query parameters of the listing. */
  datatype AdminParams = AdminParams(
    q: Option<string>, username: Option<string>, email: Option<string>, phone: Option<string>,
    orderBy: Option<string>, order: Option<string>, paging: PageParams)

  /** The stripped search and filter strings; an empty one is no condition. */
  datatype AdminFilter = AdminFilter(q: string, username: string, email: string, phone: string)

  function FilterOf(p: AdminParams): AdminFilter {
    AdminFilter(Strip(OrEmpty(p.q)), Strip(OrEmpty(p.username)), Strip(OrEmpty(p.email)), Strip(OrEmpty(p.phone)))
  }

  /** `<column>__icontains=q` on a nullable column: NULL contains nothing. */
  predicate OptContains(v: Option<string>, q: string) {
    v.Some? && IContains(v.value, q)
  }

  /** The search: one of user name, first name, last name, email or phone
      contains `q`, whatever the case. */
  predicate SearchMatches(q: string, r: CustomerRow) {
    || IContains(r.userName, q) || IContains(r.firstName, q)
    || OptContains(r.lastName, q) || OptContains(r.email, q) || OptContains(r.phone, q)
  }

  /** The four conditions, each void when its string is empty. */
  function SearchCond(q: string): CustomerRow -> bool {
    (r: CustomerRow) => q == "" || SearchMatches(q, r)
  }

  function UserNameCond(u: string): CustomerRow -> bool {
    (r: CustomerRow) => u == "" || IContains(r.userName, u)
  }

  function EmailCond(e: string): CustomerRow -> bool {
    (r: CustomerRow) => e == "" || OptContains(r.email, e)
  }

  function PhoneCond(ph: string): CustomerRow -> bool {
    (r: CustomerRow) => ph == "" || OptContains(r.phone, ph)
  }

  /** A row passes every condition of `f`. */
  predicate Admits(f: AdminFilter, r: CustomerRow) {
    && (f.q != "" ==> SearchMatches(f.q, r))
    && (f.username != "" ==> IContains(r.userName, f.username))
    && (f.email != "" ==> OptContains(r.email, f.email))
    && (f.phone != "" ==> OptContains(r.phone, f.phone))
  }

  /** The rows left after the four filters, in table order. */
  function Filtered(rows: seq<CustomerRow>, f: AdminFilter): (r: seq<CustomerRow>)
    ensures forall x :: x in r <==> x in rows && Admits(f, x)
  {
    Where(Where(Where(Where(rows, SearchCond(f.q)), UserNameCond(f.username)), EmailCond(f.email)), PhoneCond(f.phone))
  }

  /** The filter chain of the listing: each non-empty condition narrows the
      rows in turn. */
  method NarrowCustomers(rows: seq<CustomerRow>, f: AdminFilter) returns (qs: seq<CustomerRow>)
    ensures qs == Filtered(rows, f)
  {
    qs := rows;
    if f.q != "" {
      qs := Where(qs, SearchCond(f.q));
    } else {
      WhereAll(qs, SearchCond(f.q));
    }
    if f.username != "" {
      qs := Where(qs, UserNameCond(f.username));
    } else {
      WhereAll(qs, UserNameCond(f.username));
    }
    if f.email != "" {
      qs := Where(qs, EmailCond(f.email));
    } else {
      WhereAll(qs, EmailCond(f.email));
    }
    if f.phone != "" {
      qs := Where(qs, PhoneCond(f.phone));
    } else {
      WhereAll(qs, PhoneCond(f.phone));
    }
  }

  /** `_FIELD_MAP`: the order keys and the column each one names. */
  const FieldMap: map<string, string> := map[
    "id" := "customer_id", "customer_id" := "customer_id",
    "username" := "user_name", "user_name" := "user_name",
    "first_name" := "first_name", "last_name" := "last_name",
    "email" := "email", "phone" := "phone"]

  /** `order_by`, stripped, without leading '+', lower-cased; "id" by default. */
  function OrderKeyOf(p: AdminParams): string {
    Lower(LStripChar(Strip(OrDefault(p.orderBy, "id")), '+'))
  }

  /** `order`, stripped and lower-cased; "desc" by default. */
  function DirectionOf(p: AdminParams): string {
    Lower(Strip(OrDefault(p.order, "desc")))
  }

  /** The column to order by: an unknown key falls back to the id. */
  function OrderField(key: string): (field: string)
    ensures key in FieldMap ==> field == FieldMap[key]
    ensures key !in FieldMap ==> field == "customer_id"
    ensures field in FieldMap.Values
  {
    if key in FieldMap then FieldMap[key] else
      assert FieldMap["id"] == "customer_id";
      "customer_id"
  }

  function OptKey(v: Option<string>): SortKey {
    if v.Some? then Str(v.value) else Null
  }

  /** The value of column `field` in `r`; a NULL column is `Null`. */
  function ColumnValue(field: string, r: CustomerRow): SortKey {
    if field == "user_name" then Str(r.userName)
    else if field == "first_name" then Str(r.firstName)
    else if field == "last_name" then OptKey(r.lastName)
    else if field == "email" then OptKey(r.email)
    else if field == "phone" then OptKey(r.phone)
    else Num(r.customerId)
  }

  function Column(field: string): CustomerRow -> SortKey {
    (r: CustomerRow) => ColumnValue(field, r)
  }

  /** The filtered rows in the requested order: descending only when the
      direction is exactly "desc". */
  function OrderedRows(rows: seq<CustomerRow>, p: AdminParams): (r: seq<CustomerRow>)
    ensures multiset(r) == multiset(Filtered(rows, FilterOf(p)))
    ensures SortedBy(r, Column(OrderField(OrderKeyOf(p))), DirectionOf(p) == "desc")
  {
    SortBy(Filtered(rows, FilterOf(p)), Column(OrderField(OrderKeyOf(p))), DirectionOf(p) == "desc")
  }

  /** The direction the listing reports: always "asc" or "desc", and "asc"
      only for the direction "asc". */
  function ReportedDirection(p: AdminParams): (d: string)
    ensures d == "asc" || d == "desc"
    ensures d == "asc" <==> DirectionOf(p) == "asc"
  {
    var direction := DirectionOf(p);
    if direction == "asc" || direction == "desc" then direction else "desc"
  }

  /** The listing's answer: the page of customers, the filtered total, the
      page and page size, and the order key and direction. */
  datatype AdminListing = AdminListing(
    items: seq<map<string, JsonValue>>, total: nat, page: int, pageSize: int, orderBy: string, order: string)

  /** `values(...)` of the selected rows, in order. */
  function Items(rows: seq<CustomerRow>): (items: seq<map<string, JsonValue>>)
    ensures |items| == |rows|
    ensures forall k :: 0 <= k < |rows| ==> items[k] == PublicFields(rows[k])
  {
    seq(|rows|, k requires 0 <= k < |rows| => PublicFields(rows[k]))
  }

  /** `customer_admin_list` on GET, over the customer table `rows`. */
  method ListCustomers(rows: seq<CustomerRow>, p: AdminParams) returns (res: AdminListing)
    ensures var ordered := OrderedRows(rows, p);
            var w := Window(p.paging, ordered);
            var pg := Paginate(p.paging, |ordered|);
            && |res.items| == |w|
            && (forall k :: 0 <= k < |w| ==> res.items[k] == PublicFields(w[k]))
            && res.page == pg.page && res.pageSize == pg.pageSize
    ensures res.total == |Filtered(rows, FilterOf(p))|
    ensures |res.items| <= res.total
    ensures res.orderBy == OrderKeyOf(p) && res.order == ReportedDirection(p)
  {
    var qs := NarrowCustomers(rows, FilterOf(p));

    var orderKey := Lower(LStripChar(Strip(OrDefault(p.orderBy, "id")), '+'));
    var direction := Lower(Strip(OrDefault(p.order, "desc")));
    var field := if orderKey in FieldMap then FieldMap[orderKey] else "customer_id";
    SortByKeeps(qs, Column(field), direction == "desc");
    qs := SortBy(qs, Column(field), direction == "desc");

    var selected, pagination := CutPage(qs, p.paging);
    var items := Items(selected);
    var reported := if direction == "asc" || direction == "desc" then direction else "desc";
    res := AdminListing(items, pagination.total, pagination.page, pagination.pageSize, orderKey, reported);
  }

  /** Every listed customer is a customer of the table that passes the
      search and the three filters. */
  lemma ListedRowsQualify(rows: seq<CustomerRow>, p: AdminParams)
    ensures forall x :: x in Window(p.paging, OrderedRows(rows, p)) ==> x in rows && Admits(FilterOf(p), x)
  {
    var f := FilterOf(p);
    forall x | x in Window(p.paging, OrderedRows(rows, p)) ensures x in rows && Admits(f, x) {
      assert x in multiset(OrderedRows(rows, p));
      assert x in multiset(Filtered(rows, f));
    }
  }

  /** The listed customers are in the requested order: by the chosen
      column, descending only for the direction "desc". */
  lemma ListedRowsSorted(rows: seq<CustomerRow>, p: AdminParams)
    ensures SortedBy(Window(p.paging, OrderedRows(rows, p)), Column(OrderField(OrderKeyOf(p))), DirectionOf(p) == "desc")
  {
    WindowSorted(p.paging, OrderedRows(rows, p), Column(OrderField(OrderKeyOf(p))), DirectionOf(p) == "desc");
  }

  /** With no search and no filter, every customer is listed before
      paging. */
  lemma NoConditionKeepsAll(rows: seq<CustomerRow>)
    ensures Filtered(rows, AdminFilter("", "", "", "")) == rows
  {
    var f := AdminFilter("", "", "", "");
    WhereAll(rows, SearchCond(f.q));
    WhereAll(rows, UserNameCond(f.username));
    WhereAll(rows, EmailCond(f.email));
    WhereAll(rows, PhoneCond(f.phone));
  }

  // ----- Create -----

  /** The create request as the view reads it: user name, password and
      first name stripped; the other fields as given. */
  datatype NewCustomer = NewCustomer(
    userName: string, password: string, firstName: string, lastName: Option<string>,
    email: Option<string>, phone: Option<string>,
    street: Option<string>, city: Option<string>, state: Option<string>, zipCode: Option<string>)

  function ReadNewCustomer(body: map<string, Option<string>>): (n: NewCustomer)
    ensures Trimmed(n.userName) && Trimmed(n.password) && Trimmed(n.firstName)
    ensures n.email == Get(body, "email") && n.lastName == Get(body, "last_name")
  {
    NewCustomer(
      Strip(OrEmpty(Get(body, "user_name"))), Strip(OrEmpty(Get(body, "password"))),
      Strip(OrEmpty(Get(body, "first_name"))), Get(body, "last_name"),
      Get(body, "email"), Get(body, "phone"),
      Get(body, "street"), Get(body, "city"), Get(body, "state"), Get(body, "zip_code"))
  }

  /** The checks of the create, in order: the first one that fails, or
      None. The email check is `email__iexact=email`, which with no email
      looks for a customer whose email is NULL. */
  function CreateCheck(customers: seq<CustomerRow>, n: NewCustomer): (e: Option<string>)
    ensures e == Some("user_name is required") <==> n.userName == ""
    ensures e == Some("password is required") <==> n.userName != "" && n.password == ""
    ensures e == Some("user_name already exists") <==>
              n.userName != "" && n.password != "" && exists x :: x in customers && IEquals(x.userName, n.userName)
    ensures e == Some("email already exists") <==>
              && n.userName != "" && n.password != ""
              && (forall x :: x in customers ==> !IEquals(x.userName, n.userName))
              && exists x :: x in customers && EmailMatches(x, n.email)
    ensures e.None? <==>
              && n.userName != "" && n.password != ""
              && (forall x :: x in customers ==> !IEquals(x.userName, n.userName))
              && (forall x :: x in customers ==> !EmailMatches(x, n.email))
  {
    WhereEmpty(customers, UserNameIs(n.userName));
    WhereEmpty(customers, EmailIs(n.email));
    if n.userName == "" then Some("user_name is required")
    else if n.password == "" then Some("password is required")
    else if Where(customers, UserNameIs(n.userName)) != [] then Some("user_name already exists")
    else if Where(customers, EmailIs(n.email)) != [] then Some("email already exists")
    else None
  }

  /** The row a successful create stores: the email flag keeps its default. */
  function CreatedRow(n: NewCustomer, id: nat, salt: nat): CustomerRow {
    CustomerRow(id, n.userName, MakePassword(n.password, salt), n.firstName, n.lastName, n.phone,
                n.email, n.street, n.city, n.state, n.zipCode, false)
  }

  /** `customer_admin_list` on POST: a failed check is a 400 that stores
      nothing; otherwise the customer is added under the next id with its
      password hashed, and returned with a 201. */
  method CreateCustomer(store: Store, body: map<string, Option<string>>, salt: nat, saveSalt: nat)
    returns (res: Response<map<string, JsonValue>>)
    requires store.Valid()
    modifies store
    ensures store.Valid() && store.revoked == old(store.revoked)
    ensures var n := ReadNewCustomer(body);
            var e := CreateCheck(old(store.customers), n);
            var row := CreatedRow(n, old(store.nextId), salt);
            && (e.Some? ==> res == Detail(400, e.value) && store.customers == old(store.customers)
                            && store.nextId == old(store.nextId))
            && (e.None? ==> res == Json(201, PublicFields(row)) && store.customers == old(store.customers) + [row]
                            && store.nextId == old(store.nextId) + 1)
    ensures UniqueUserNames(old(store.customers)) ==> UniqueUserNames(store.customers)
  {
    var n := ReadNewCustomer(body);
    if n.userName == "" {
      return Detail(400, "user_name is required");
    }
    if n.password == "" {
      return Detail(400, "password is required");
    }
    if Where(store.customers, UserNameIs(n.userName)) != [] {
      return Detail(400, "user_name already exists");
    }
    if Where(store.customers, EmailIs(n.email)) != [] {
      return Detail(400, "email already exists");
    }

    var row := CreatedRow(n, store.nextId, salt);
    AppendUnique(store.customers, row);
    row := StoreNew(store, n, salt, saveSalt);
    res := Json(201, PublicFields(row));
  }

  /** The instance built, given its password and saved by the create. */
  method StoreNew(store: Store, n: NewCustomer, salt: nat, saveSalt: nat) returns (row: CustomerRow)
    requires store.Valid()
    modifies store
    ensures row == CreatedRow(n, old(store.nextId), salt)
    ensures store.customers == old(store.customers) + [row]
    ensures store.nextId == old(store.nextId) + 1 && store.revoked == old(store.revoked)
    ensures store.Valid()
  {
    row := CreatedRow(n, store.nextId, salt);
    var obj := new Customer(n.userName, n.firstName, n.lastName, n.email, n.phone,
                            n.street, n.city, n.state, n.zipCode, false);
    obj.SetPassword(n.password, salt);
    UpsertValid(store.customers, row, store.nextId);
    var saved := obj.Save(store, saveSalt);
    assert RowOf(obj.Snapshot(), obj.customerId.value) == row;
  }

  // ----- Detail -----

  /** The rows other than customer `id` whose user name equals `u`,
      whatever the case: `exclude(pk=id).filter(user_name__iexact=u)`. */
  function OthersNamed(customers: seq<CustomerRow>, id: nat, u: string): (m: seq<CustomerRow>)
    ensures m == [] <==> forall x :: x in customers && x.customerId != id ==> !IEquals(x.userName, u)
  {
    WhereEmpty(Where(customers, OtherThan(id)), UserNameIs(u));
    Where(Where(customers, OtherThan(id)), UserNameIs(u))
  }

  /** The update's checks, in order, made before anything is written. */
  function UpdateCheck(customers: seq<CustomerRow>, id: nat, data: map<string, Option<string>>): (e: Option<string>)
    ensures e == Some("user_name cannot be empty") <==> "user_name" in data && Strip(OrEmpty(data["user_name"])) == ""
    ensures e == Some("user_name already exists") <==>
              "user_name" in data && Strip(OrEmpty(data["user_name"])) != ""
              && exists x :: x in customers && x.customerId != id && IEquals(x.userName, Strip(OrEmpty(data["user_name"])))
    ensures e == Some("password cannot be empty") <==>
              && "password" in data && Strip(OrEmpty(data["password"])) == ""
              && ("user_name" in data ==>
                    && Strip(OrEmpty(data["user_name"])) != ""
                    && forall x :: x in customers && x.customerId != id ==> !IEquals(x.userName, Strip(OrEmpty(data["user_name"]))))
    ensures e.None? <==>
              && ("user_name" in data ==>
                    && Strip(OrEmpty(data["user_name"])) != ""
                    && forall x :: x in customers && x.customerId != id ==> !IEquals(x.userName, Strip(OrEmpty(data["user_name"]))))
              && ("password" in data ==> Strip(OrEmpty(data["password"])) != "")
  {
    if "user_name" in data && Strip(OrEmpty(data["user_name"])) == "" then Some("user_name cannot be empty")
    else if "user_name" in data && OthersNamed(customers, id, Strip(OrEmpty(data["user_name"]))) != [] then
      Some("user_name already exists")
    else if "password" in data && Strip(OrEmpty(data["password"])) == "" then Some("password cannot be empty")
    else None
  }

  /** The new user name, if the update carries one. */
  function Renamed(i: Instance, data: map<string, Option<string>>): Instance {
    if "user_name" in data then i.(userName := Strip(OrEmpty(data["user_name"]))) else i
  }

  /** The new password, if the update carries one that the stored one
      does not already check against. */
  function Repassworded(i: Instance, data: map<string, Option<string>>, salt: nat): Instance {
    if "password" in data && !Hashing.CheckPassword(Strip(OrEmpty(data["password"])), i.password)
    then i.(password := MakePassword(Strip(OrEmpty(data["password"])), salt))
    else i
  }

  /** The `setattr` loop over the first `|cols|` detail columns. */
  function SetColumns(i: Instance, data: map<string, Option<string>>, cols: seq<string>): Instance
    decreases |cols|
  {
    if cols == [] then i
    else
      var j := SetColumns(i, data, cols[..|cols| - 1]);
      var k := cols[|cols| - 1];
      if k in data then SetColumn(j, k, data[k]) else j
  }

  /** The value of a detail column of an instance. */
  function ColumnOf(i: Instance, k: string): Option<string> {
    match k
    case "first_name" => i.firstName
    case "last_name" => i.lastName
    case "email" => i.email
    case "phone" => i.phone
    case "street" => i.street
    case "city" => i.city
    case "state" => i.state
    case _ => i.zipCode
  }

  /** The `setattr` loop leaves the id, the user name, the password and
      the email flag as they are. */
  lemma {:induction false} SetColumnsKeeps(i: Instance, data: map<string, Option<string>>, cols: seq<string>)
    ensures var o := SetColumns(i, data, cols);
            && o.customerId == i.customerId && o.userName == i.userName
            && o.password == i.password && o.isEmailVerified == i.isEmailVerified
    decreases |cols|
  {
    if cols != [] {
      SetColumnsKeeps(i, data, cols[..|cols| - 1]);
    }
  }

  /** After the `setattr` loop, a detail column holds the request's value
      when the loop visits it and the request carries it, and its old
      value otherwise. */
  lemma {:induction false} SetColumnsAt(i: Instance, data: map<string, Option<string>>, cols: seq<string>, k: string)
    requires forall c :: c in cols ==> c in DetailColumns
    requires k in DetailColumns
    ensures ColumnOf(SetColumns(i, data, cols), k) == if k in cols && k in data then data[k] else ColumnOf(i, k)
    decreases |cols|
  {
    if cols != [] {
      var init := cols[..|cols| - 1];
      var last := cols[|cols| - 1];
      assert cols == init + [last];
      SetColumnsAt(i, data, init, k);
    }
  }

  /** The instance an update leaves before it is saved. */
  function Edited(row: CustomerRow, data: map<string, Option<string>>, salt: nat): Instance {
    SetColumns(Repassworded(Renamed(InstanceOf(row), data), data, salt), data, DetailColumns)
  }

  /** The save at the end of an update, of instance `i` of customer `id`:
      the hash guard runs on the password, then the row is rewritten; a
      null first name makes the write fail and changes nothing. */
  function SaveOutcome(customers: seq<CustomerRow>, i: Instance, id: nat, saveSalt: nat): (o: Outcome)
    ensures o.res.ServerError? <==> i.firstName.None?
    ensures o.res.ServerError? ==> o.customers == customers
  {
    var saved := i.(password := HashOnSave(i.password, saveSalt));
    if saved.firstName.None? then Outcome(ServerError, customers)
    else
      var r := RowOf(saved, id);
      Outcome(Json(200, PublicFields(r)), Upsert(customers, r))
  }

  /** PUT or PATCH on customer `row`: a failed check is a 400 before any
      write; otherwise the edited instance is saved. */
  function UpdateSpec(customers: seq<CustomerRow>, row: CustomerRow, data: map<string, Option<string>>,
                      salt: nat, saveSalt: nat): (o: Outcome)
    ensures UpdateCheck(customers, row.customerId, data).Some? ==>
              o == Outcome(Detail(400, UpdateCheck(customers, row.customerId, data).value), customers)
    ensures UpdateCheck(customers, row.customerId, data).None? ==>
              o == SaveOutcome(customers, Edited(row, data, salt), row.customerId, saveSalt)
  {
    if UpdateCheck(customers, row.customerId, data).Some? then
      Outcome(Detail(400, UpdateCheck(customers, row.customerId, data).value), customers)
    else SaveOutcome(customers, Edited(row, data, salt), row.customerId, saveSalt)
  }

  /** `customer_admin_detail`: an unknown id is a 404 whatever the verb;
      GET returns the customer, PUT and PATCH update it, DELETE removes it. */
  function DetailSpec(customers: seq<CustomerRow>, id: nat, verb: Verb, body: map<string, Option<string>>,
                      salt: nat, saveSalt: nat): (o: Outcome)
    ensures ById(customers, id).None? ==> o == Outcome(Detail(404, "Not found"), customers)
    ensures verb == HttpGet ==> o.customers == customers
    ensures verb == HttpDelete && ById(customers, id).Some? ==>
              o == Outcome(Detail(204, "deleted"), Removed(customers, id))
    ensures verb == HttpGet && ById(customers, id).Some? ==>
              o == Outcome(Json(200, PublicFields(ById(customers, id).value)), customers)
    ensures (verb == HttpPut || verb == HttpPatch) && ById(customers, id).Some? ==>
              o == UpdateSpec(customers, ById(customers, id).value, Sanitized(body), salt, saveSalt)
  {
    match ById(customers, id)
    case None => Outcome(Detail(404, "Not found"), customers)
    case Some(row) =>
      match verb
      case HttpGet => Outcome(Json(200, PublicFields(row)), customers)
      case HttpDelete => Outcome(Detail(204, "deleted"), Removed(customers, id))
      case _ => UpdateSpec(customers, row, Sanitized(body), salt, saveSalt)
  }

  /** The `setattr` loop of the update, on the instance `obj`. */
  method CopyColumns(obj: Customer, data: map<string, Option<string>>)
    modifies obj
    ensures obj.Snapshot() == SetColumns(old(obj.Snapshot()), data, DetailColumns)
  {
    ghost var start := obj.Snapshot();
    var k := 0;
    while k < |DetailColumns|
      invariant 0 <= k <= |DetailColumns|
      invariant obj.Snapshot() == SetColumns(start, data, DetailColumns[..k])
    {
      var col := DetailColumns[k];
      assert DetailColumns[..k + 1][..k] == DetailColumns[..k];
      if col in data {
        obj.SetAttr(col, data[col]);
      }
      k := k + 1;
    }
    assert DetailColumns[..k] == DetailColumns;
  }

  /** The `obj.save()` that ends an update. */
  method SaveEdited(store: Store, obj: Customer, saveSalt: nat) returns (res: Response<map<string, JsonValue>>)
    requires store.Valid()
    requires obj.customerId.Some? && obj.customerId.value < store.nextId
    modifies store, obj
    ensures Outcome(res, store.customers) == SaveOutcome(old(store.customers), old(obj.Snapshot()), old(obj.customerId.value), saveSalt)
    ensures store.Valid()
    ensures store.nextId == old(store.nextId) && store.revoked == old(store.revoked)
  {
    var id := obj.customerId.value;
    ghost var after := obj.Snapshot().(password := HashOnSave(obj.password, saveSalt));
    if obj.firstName.None? {
      var _ := obj.Save(store, saveSalt);
      return ServerError;
    }
    UpsertValid(store.customers, RowOf(after, id), store.nextId);
    var _ := obj.Save(store, saveSalt);
    assert obj.Snapshot() == after;
    res := Json(200, PublicFields(RowOf(obj.Snapshot(), id)));
  }

  /** PUT or PATCH on the instance `obj` of customer `row`. */
  method UpdateCustomer(store: Store, obj: Customer, row: CustomerRow, data: map<string, Option<string>>,
                        salt: nat, saveSalt: nat) returns (res: Response<map<string, JsonValue>>)
    requires store.Valid() && row in store.customers
    requires obj.Snapshot() == InstanceOf(row)
    modifies store, obj
    ensures Outcome(res, store.customers) == UpdateSpec(old(store.customers), row, data, salt, saveSalt)
    ensures store.Valid()
    ensures store.nextId == old(store.nextId) && store.revoked == old(store.revoked)
  {
    var id := row.customerId;
    ghost var before := obj.Snapshot();
    if "user_name" in data {
      var newName := Strip(OrEmpty(data["user_name"]));
      if newName == "" {
        return Detail(400, "user_name cannot be empty");
      }
      if Where(Where(store.customers, OtherThan(id)), UserNameIs(newName)) != [] {
        return Detail(400, "user_name already exists");
      }
      obj.userName := newName;
    }
    assert obj.Snapshot() == Renamed(before, data);
    if "password" in data {
      var raw := Strip(OrEmpty(data["password"]));
      if raw == "" {
        return Detail(400, "password cannot be empty");
      }
      if !obj.CheckPassword(raw) {
        obj.SetPassword(raw, salt);
      }
    }
    assert obj.Snapshot() == Repassworded(Renamed(before, data), data, salt);
    assert UpdateCheck(store.customers, id, data).None?;
    CopyColumns(obj, data);
    SetColumnsKeeps(Repassworded(Renamed(before, data), data, salt), data, DetailColumns);
    assert obj.Snapshot() == Edited(row, data, salt);
    assert row.customerId < store.nextId;
    res := SaveEdited(store, obj, saveSalt);
  }

  /** `customer_admin_detail` on customer `id`. */
  method AdminDetail(store: Store, id: nat, verb: Verb, body: map<string, Option<string>>, salt: nat, saveSalt: nat)
    returns (res: Response<map<string, JsonValue>>)
    requires store.Valid()
    modifies store
    ensures store.Valid()
    ensures Outcome(res, store.customers) == DetailSpec(old(store.customers), id, verb, body, salt, saveSalt)
    ensures store.nextId == old(store.nextId) && store.revoked == old(store.revoked)
  {
    var found := ById(store.customers, id);
    if found.None? {
      return Detail(404, "Not found");
    }
    var obj := new Customer.FromRow(found.value);

    if verb == HttpGet {
      return Json(200, PublicFields(found.value));
    }

    if verb == HttpPut || verb == HttpPatch {
      var data := SanitizeUpdate(body);
      res := UpdateCustomer(store, obj, found.value, data, salt, saveSalt);
      return;
    }

    RemovedValid(store.customers, id, store.nextId);
    store.customers := Removed(store.customers, id);
    return Detail(204, "deleted");
  }

  // ----- Properties of the detail view -----

  /** The edited instance: each detail column the request carries takes
      its value and the others keep theirs. */
  lemma EditedColumns(row: CustomerRow, data: map<string, Option<string>>, salt: nat)
    ensures forall k :: k in DetailColumns ==>
              ColumnOf(Edited(row, data, salt), k) == if k in data then data[k] else ColumnOf(InstanceOf(row), k)
  {
    var r := Repassworded(Renamed(InstanceOf(row), data), data, salt);
    forall k | k in DetailColumns
      ensures ColumnOf(Edited(row, data, salt), k) == if k in data then data[k] else ColumnOf(InstanceOf(row), k)
    {
      SetColumnsAt(r, data, DetailColumns, k);
      assert ColumnOf(r, k) == ColumnOf(InstanceOf(row), k);
    }
  }

  /** The edited instance keeps the id and the email flag, has the new
      user name when one is given, and a password that checks against the
      new one when one is given and is the stored one otherwise or when
      the new one already checked. */
  lemma EditedFixed(row: CustomerRow, data: map<string, Option<string>>, salt: nat)
    ensures var e := Edited(row, data, salt);
            && e.customerId == Some(row.customerId) && e.isEmailVerified == row.isEmailVerified
            && e.userName == (if "user_name" in data then Strip(OrEmpty(data["user_name"])) else row.userName)
            && ("password" in data ==> CheckPassword(Strip(OrEmpty(data["password"])), e.password))
            && ("password" !in data || CheckPassword(Strip(OrEmpty(data["password"])), row.password) ==>
                  e.password == row.password)
  {
    SetColumnsKeeps(Repassworded(Renamed(InstanceOf(row), data), data, salt), data, DetailColumns);
  }

  /** A successful update rewrites exactly the customer's own row: the id
      and the email flag stay, the user name is the stripped new one when
      given, every detail column the request carries takes its value and
      the others keep theirs; a password in the request is the one that
      now checks, and one that already checked is not hashed again. */
  lemma UpdatedRow(customers: seq<CustomerRow>, row: CustomerRow, data: map<string, Option<string>>,
                   salt: nat, saveSalt: nat) returns (n: CustomerRow)
    requires UpdateCheck(customers, row.customerId, data).None?
    requires "first_name" in data ==> data["first_name"].Some?
    ensures UpdateSpec(customers, row, data, salt, saveSalt) == Outcome(Json(200, PublicFields(n)), Upsert(customers, n))
    ensures n.customerId == row.customerId && n.isEmailVerified == row.isEmailVerified
    ensures n.userName == if "user_name" in data then Strip(OrEmpty(data["user_name"])) else row.userName
    ensures forall k :: k in DetailColumns ==>
              ColumnOf(InstanceOf(n), k) == if k in data then data[k] else ColumnOf(InstanceOf(row), k)
    ensures "password" in data ==> CheckPassword(Strip(OrEmpty(data["password"])), n.password)
    ensures "password" in data && CheckPassword(Strip(OrEmpty(data["password"])), row.password) ==> n.password == row.password
    ensures "password" !in data ==> n.password == HashOnSave(row.password, saveSalt)
  {
    var e := Edited(row, data, salt);
    EditedColumns(row, data, salt);
    EditedFixed(row, data, salt);
    assert "first_name" in DetailColumns;
    var saved := e.(password := HashOnSave(e.password, saveSalt));
    n := RowOf(saved, row.customerId);
    SavedColumns(e, saved, n, row.customerId);
  }

  /** The row a save stores carries the instance's detail columns. */
  lemma SavedColumns(e: Instance, saved: Instance, n: CustomerRow, id: nat)
    requires saved.firstName.Some?
    requires saved == e.(password := saved.password) && n == RowOf(saved, id)
    ensures forall k :: k in DetailColumns ==> ColumnOf(InstanceOf(n), k) == ColumnOf(e, k)
  {
    assert InstanceOf(n) == saved.(customerId := Some(id));
  }

  /** An update that sets the first name to null passes its checks but
      fails at the save, which leaves the table as it was. */
  lemma NullFirstNameFails(customers: seq<CustomerRow>, row: CustomerRow, data: map<string, Option<string>>,
                           salt: nat, saveSalt: nat)
    requires UpdateCheck(customers, row.customerId, data).None?
    requires "first_name" in data && data["first_name"].None?
    ensures UpdateSpec(customers, row, data, salt, saveSalt) == Outcome(ServerError, customers)
  {
    var r := Repassworded(Renamed(InstanceOf(row), data), data, salt);
    SetColumnsAt(r, data, DetailColumns, "first_name");
  }

  /** Replacing row `i` by one whose user name matches no other row keeps
      user names unique. */
  lemma ReplaceUnique(rows: seq<CustomerRow>, i: int, r: CustomerRow)
    requires UniqueUserNames(rows) && 0 <= i < |rows|
    requires forall j :: 0 <= j < |rows| && j != i ==> !IEquals(rows[j].userName, r.userName)
    ensures UniqueUserNames(rows[i := r])
  {
    var out := rows[i := r];
    forall a, b | 0 <= a < b < |out| ensures !IEquals(out[a].userName, out[b].userName) {
      if a == i {
        assert !IEquals(rows[b].userName, r.userName);
      } else if b == i {
        assert !IEquals(rows[a].userName, r.userName);
      }
    }
  }

  /** Replacing a row by one with the same id keeps ids distinct. */
  lemma ReplaceKeepsIds(rows: seq<CustomerRow>, i: int, r: CustomerRow)
    requires DistinctIds(rows) && 0 <= i < |rows| && r.customerId == rows[i].customerId
    ensures DistinctIds(rows[i := r])
  {
    var out := rows[i := r];
    forall a, b | 0 <= a < b < |out| ensures out[a].customerId != out[b].customerId {
      assert out[a].customerId == rows[a].customerId && out[b].customerId == rows[b].customerId;
    }
  }

  /** The user name an update that passed its checks leaves on row `i`
      matches no other row's, whatever the case. */
  lemma UpdatedNameFree(customers: seq<CustomerRow>, i: int, data: map<string, Option<string>>, u: string)
    requires DistinctIds(customers) && UniqueUserNames(customers) && 0 <= i < |customers|
    requires UpdateCheck(customers, customers[i].customerId, data).None?
    requires u == if "user_name" in data then Strip(OrEmpty(data["user_name"])) else customers[i].userName
    ensures forall j :: 0 <= j < |customers| && j != i ==> !IEquals(customers[j].userName, u)
  {
    forall j | 0 <= j < |customers| && j != i
      ensures !IEquals(customers[j].userName, u)
    {
      if "user_name" !in data {
        if j < i {
          assert !IEquals(customers[j].userName, customers[i].userName);
        } else {
          assert !IEquals(customers[i].userName, customers[j].userName);
        }
      } else {
        assert customers[j].customerId != customers[i].customerId;
        assert customers[j] in customers;
      }
    }
  }

  /** An update keeps ids distinct and user names unique whatever the
      case: the uniqueness check leaves out the customer's own row. */
  lemma UpdateKeepsUnique(customers: seq<CustomerRow>, row: CustomerRow, data: map<string, Option<string>>,
                          salt: nat, saveSalt: nat)
    requires DistinctIds(customers) && UniqueUserNames(customers) && row in customers
    ensures var o := UpdateSpec(customers, row, data, salt, saveSalt);
            DistinctIds(o.customers) && UniqueUserNames(o.customers)
  {
    if UpdateCheck(customers, row.customerId, data).None? && !("first_name" in data && data["first_name"].None?) {
      var n := UpdatedRow(customers, row, data, salt, saveSalt);
      var i := IndexOfId(customers, row.customerId);
      assert Upsert(customers, n) == customers[i := n];
      assert customers[i] == row by {
        SameIdSameRow(customers, customers[i], row);
      }
      UpdatedNameFree(customers, i, data, n.userName);
      ReplaceUnique(customers, i, n);
      ReplaceKeepsIds(customers, i, n);
    } else if UpdateCheck(customers, row.customerId, data).None? {
      NullFirstNameFails(customers, row, data, salt, saveSalt);
    }
  }

  /** The detail view keeps ids distinct and user names unique, whatever
      the verb. */
  lemma DetailKeepsUnique(customers: seq<CustomerRow>, id: nat, verb: Verb, body: map<string, Option<string>>,
                          salt: nat, saveSalt: nat)
    requires DistinctIds(customers) && UniqueUserNames(customers)
    ensures var o := DetailSpec(customers, id, verb, body, salt, saveSalt);
            DistinctIds(o.customers) && UniqueUserNames(o.customers)
  {
    var found := ById(customers, id);
    if found.Some? {
      if verb == HttpDelete {
        WhereDistinctIds(customers, OtherThan(id));
        WhereUnique(customers, OtherThan(id));
      } else if verb != HttpGet {
        UpdateKeepsUnique(customers, found.value, Sanitized(body), salt, saveSalt);
      }
    }
  }

  /** A customer just created is found under its new id, and the detail
      view returns the same fields the create replied with. */
  lemma CreateThenGet(customers: seq<CustomerRow>, nextId: nat, body: map<string, Option<string>>,
                      salt: nat, saveSalt: nat, getBody: map<string, Option<string>>)
    requires forall i :: 0 <= i < |customers| ==> customers[i].customerId < nextId
    requires CreateCheck(customers, ReadNewCustomer(body)).None?
    ensures var row := CreatedRow(ReadNewCustomer(body), nextId, salt);
            DetailSpec(customers + [row], nextId, HttpGet, getBody, salt, saveSalt)
              == Outcome(Json(200, PublicFields(row)), customers + [row])
  {
    var row := CreatedRow(ReadNewCustomer(body), nextId, salt);
    var rows := customers + [row];
    var found := ById(rows, nextId);
    assert found.Some?;
    forall x | x in customers ensures x.customerId != nextId {
      var j :| 0 <= j < |customers| && customers[j] == x;
    }
    assert found.value == row;
  }
}
