/** The category admin views (`category_admin_list`, `category_admin_detail`):
    list, create, read, rename and delete rows of the category table, whose
    names are meant to be unique whatever their case. */
module CategoryAdmin {
  import opened Base
  import opened Text
  import opened Sorting
  import opened Filtering
  import opened Catalogue

  /** What a request answers, and the category table it leaves. */
  datatype Outcome = Outcome(res: Response<map<string, JsonValue>>, rows: seq<NamedRow>)

  predicate DistinctIds(rows: seq<NamedRow>) {
    forall i, j :: 0 <= i < j < |rows| ==> rows[i].id != rows[j].id
  }

  /** No two categories have names equal up to case. */
  predicate UniqueNames(rows: seq<NamedRow>) {
    forall i, j :: 0 <= i < j < |rows| ==> !IEquals(rows[i].name, rows[j].name)
  }

  /** The category table: its rows and the id the next insert receives. */
  class CategoryTable {
    var rows: seq<NamedRow>
    var nextId: nat

    ghost predicate Valid()
      reads this
    {
      && DistinctIds(rows)
      && (forall i :: 0 <= i < |rows| ==> rows[i].id < nextId)
    }

    constructor ()
      ensures rows == [] && nextId == 1
      ensures Valid()
    {
      rows := [];
      nextId := 1;
    }
  }

  /** The position of the row with id `id`, or -1. */
  function IndexOfId(rows: seq<NamedRow>, id: nat): (i: int)
    ensures -1 <= i < |rows|
    ensures i >= 0 ==> rows[i].id == id
    ensures i < 0 <==> forall j :: 0 <= j < |rows| ==> rows[j].id != id
  {
    if rows == [] then -1
    else if rows[0].id == id then 0
    else
      var k := IndexOfId(rows[1..], id);
      if k < 0 then -1 else k + 1
  }

  /** `Category.objects.get(pk=id)`. */
  function ById(rows: seq<NamedRow>, id: nat): (r: Option<NamedRow>)
    ensures r.Some? ==> r.value in rows && r.value.id == id
    ensures r.None? <==> forall x :: x in rows ==> x.id != id
  {
    var i := IndexOfId(rows, id);
    if i >= 0 then Some(rows[i]) else None
  }

  function OtherThan(id: nat): NamedRow -> bool {
    (x: NamedRow) => x.id != id
  }

  /** `category_name__iexact=name`. */
  function NameIs(name: string): NamedRow -> bool {
    (x: NamedRow) => IEquals(x.name, name)
  }

  /** The table after `obj.delete()`. */
  function Removed(rows: seq<NamedRow>, id: nat): (out: seq<NamedRow>)
    ensures forall x :: x in out <==> x in rows && x.id != id
  {
    Where(rows, OtherThan(id))
  }

  /** The table after `obj.save()` writes `r` over the row with its id;
      a row that is gone is inserted again. */
  function Upsert(rows: seq<NamedRow>, r: NamedRow): (out: seq<NamedRow>)
    ensures |out| >= |rows|
    ensures IndexOfId(rows, r.id) >= 0 ==> |out| == |rows| && out[IndexOfId(rows, r.id)] == r
    ensures forall j :: 0 <= j < |rows| && rows[j].id != r.id ==> out[j] == rows[j]
  {
    var i := IndexOfId(rows, r.id);
    if i >= 0 then rows[i := r] else rows + [r]
  }

  // ----- List -----

  function CreatedKey(r: NamedRow): SortKey {
    Num(r.createdAt)
  }

  /** The rows the list returns: with a non-empty `name` parameter (taken
      as given, not stripped) those whose name contains it whatever the
      case, newest first. */
  function AdminListed(rows: seq<NamedRow>, name: Option<string>): (s: seq<NamedRow>)
    ensures multiset(s) == multiset(Matching(rows, OrEmpty(name)))
    ensures SortedBy(s, CreatedKey, true)
  {
    SortBy(Matching(rows, OrEmpty(name)), CreatedKey, true)
  }

  /** `category_admin_list` on GET: the listed rows as
      `values("category_id", "category_name", "created_at", "updated_at")`. */
  function AdminList(rows: seq<NamedRow>, name: Option<string>): (out: seq<map<string, JsonValue>>)
    ensures |out| == |AdminListed(rows, name)|
    ensures forall k :: 0 <= k < |out| ==> out[k] == CategoryValues(AdminListed(rows, name)[k])
  {
    var listed := AdminListed(rows, name);
    seq(|listed|, k requires 0 <= k < |listed| => CategoryValues(listed[k]))
  }

  /** A listed category is a stored one whose name contains the `name`
      parameter whatever the case; with no parameter, or an empty one,
      every category is listed, each once; the newest come first. */
  lemma AdminListedRows(rows: seq<NamedRow>, name: Option<string>)
    ensures forall x :: x in AdminListed(rows, name) <==> x in rows && (!Truthy(name) || IContains(x.name, name.value))
    ensures !Truthy(name) ==> multiset(AdminListed(rows, name)) == multiset(rows)
    ensures forall i, j :: 0 <= i < j < |AdminListed(rows, name)| ==>
              AdminListed(rows, name)[i].createdAt >= AdminListed(rows, name)[j].createdAt
  {
    var s := AdminListed(rows, name);
    forall x ensures x in s <==> x in Matching(rows, OrEmpty(name)) {
      assert x in s <==> x in multiset(s);
      assert x in Matching(rows, OrEmpty(name)) <==> x in multiset(Matching(rows, OrEmpty(name)));
    }
    forall i, j | 0 <= i < j < |s| ensures s[i].createdAt >= s[j].createdAt {
      assert Ordered(CreatedKey(s[i]), CreatedKey(s[j]), true);
    }
  }

  // ----- Create -----

  /** The name a create or an update reads: the stripped `category_name`. */
  function NameOf(v: Option<string>): (n: string)
    ensures Trimmed(n)
  {
    Strip(OrEmpty(v))
  }

  /** The checks of the create, in order. */
  function CreateCheck(rows: seq<NamedRow>, name: string): (e: Option<string>)
    ensures e == Some("category_name is required") <==> name == ""
    ensures e == Some("category_name already exists") <==>
              name != "" && exists x :: x in rows && IEquals(x.name, name)
    ensures e.None? <==> name != "" && forall x :: x in rows ==> !IEquals(x.name, name)
  {
    WhereEmpty(rows, NameIs(name));
    if name == "" then Some("category_name is required")
    else if Where(rows, NameIs(name)) != [] then Some("category_name already exists")
    else None
  }

  /** Adding a row whose name matches no stored one, whatever the case,
      keeps names unique. */
  lemma AppendUnique(rows: seq<NamedRow>, r: NamedRow)
    requires forall x :: x in rows ==> !IEquals(x.name, r.name)
    ensures UniqueNames(rows) ==> UniqueNames(rows + [r])
  {
    var out := rows + [r];
    if UniqueNames(rows) {
      forall i, j | 0 <= i < j < |out| ensures !IEquals(out[i].name, out[j].name) {
        if j == |rows| {
          assert out[i] in rows;
        } else {
          assert out[i] == rows[i] && out[j] == rows[j];
        }
      }
    }
  }

  /** `category_admin_list` on POST: a failed check is a 400 that stores
      nothing; otherwise the stripped name is stored under the next id,
      both timestamps set to `now`, and returned with a 201. */
  method CreateCategory(table: CategoryTable, body: map<string, Option<string>>, now: int)
    returns (res: Response<map<string, JsonValue>>)
    requires table.Valid()
    modifies table
    ensures table.Valid()
    ensures var name := NameOf(Get(body, "category_name"));
            var e := CreateCheck(old(table.rows), name);
            var r := NamedRow(old(table.nextId), name, now, now);
            && (e.Some? ==> res == Detail(400, e.value) && table.rows == old(table.rows)
                            && table.nextId == old(table.nextId))
            && (e.None? ==> res == Json(201, CategoryValues(r)) && table.rows == old(table.rows) + [r]
                            && table.nextId == old(table.nextId) + 1)
    ensures UniqueNames(old(table.rows)) ==> UniqueNames(table.rows)
  {
    var name := NameOf(Get(body, "category_name"));
    if name == "" {
      return Detail(400, "category_name is required");
    }
    if Where(table.rows, NameIs(name)) != [] {
      return Detail(400, "category_name already exists");
    }
    var r := NamedRow(table.nextId, name, now, now);
    AppendUnique(table.rows, r);
    table.rows := table.rows + [r];
    table.nextId := table.nextId + 1;
    res := Json(201, CategoryValues(r));
  }

  // ----- Detail -----

  /** The update's check on the `category_name` it carries, if any. */
  function UpdateCheck(rows: seq<NamedRow>, id: nat, name: Option<string>): (e: Option<string>)
    ensures name.None? ==> e.None?
    ensures e == Some("category_name cannot be empty") <==> name.Some? && NameOf(name) == ""
    ensures e == Some("category_name already exists") <==>
              name.Some? && NameOf(name) != "" && exists x :: x in rows && x.id != id && IEquals(x.name, NameOf(name))
    ensures e.None? <==>
              name.Some? ==> NameOf(name) != "" && forall x :: x in rows && x.id != id ==> !IEquals(x.name, NameOf(name))
  {
    WhereEmpty(Where(rows, OtherThan(id)), NameIs(NameOf(name)));
    if name.None? then None
    else if NameOf(name) == "" then Some("category_name cannot be empty")
    else if Where(Where(rows, OtherThan(id)), NameIs(NameOf(name))) != [] then Some("category_name already exists")
    else None
  }

  /** The category after an update that passed its check. */
  function Updated(r: NamedRow, name: Option<string>, now: int): NamedRow {
    r.(name := if name.Some? then NameOf(name) else r.name, updatedAt := now)
  }

  /** `category_admin_detail` on category `id`: an unknown id is a 404
      whatever the verb; GET returns the category, PUT and PATCH rename it
      and touch `updated_at`, DELETE removes it. */
  function DetailSpec(rows: seq<NamedRow>, id: nat, verb: Verb, body: map<string, Option<string>>,
                      now: int): (o: Outcome)
    ensures ById(rows, id).None? ==> o == Outcome(Detail(404, "Not found"), rows)
    ensures verb == HttpGet || o.res.Status() == 400 ==> o.rows == rows
    ensures verb == HttpDelete && ById(rows, id).Some? ==> o == Outcome(Detail(204, "deleted"), Removed(rows, id))
    ensures verb == HttpGet && ById(rows, id).Some? ==>
              o == Outcome(Json(200, CategoryValues(ById(rows, id).value)), rows)
    ensures (verb == HttpPut || verb == HttpPatch) && ById(rows, id).Some? ==>
              var e := UpdateCheck(rows, id, Get(body, "category_name"));
              e.Some? ==> o == Outcome(Detail(400, e.value), rows)
  {
    match ById(rows, id)
    case None => Outcome(Detail(404, "Not found"), rows)
    case Some(r) =>
      match verb
      case HttpGet => Outcome(Json(200, CategoryValues(r)), rows)
      case HttpDelete => Outcome(Detail(204, "deleted"), Removed(rows, id))
      case _ =>
        var name := Get(body, "category_name");
        var e := UpdateCheck(rows, id, name);
        if e.Some? then Outcome(Detail(400, e.value), rows)
        else
          var u := Updated(r, name, now);
          Outcome(Json(200, CategoryValues(u)), Upsert(rows, u))
  }

  /** A category instance loaded for the detail view. */
  class Category {
    var id: nat
    var name: string
    var createdAt: int
    var updatedAt: int

    function Row(): NamedRow
      reads this
    {
      NamedRow(id, name, createdAt, updatedAt)
    }

    constructor FromRow(r: NamedRow)
      ensures Row() == r
    {
      id, name, createdAt, updatedAt := r.id, r.name, r.createdAt, r.updatedAt;
    }

    /** `save()`: the instance's fields are written over its row. */
    method Save(table: CategoryTable)
      modifies table
      ensures table.rows == Upsert(old(table.rows), Row())
      ensures table.nextId == old(table.nextId)
    {
      table.rows := Upsert(table.rows, Row());
    }
  }

  /** PUT or PATCH on the instance `obj` of category `r`. */
  method UpdateCategory(table: CategoryTable, obj: Category, r: NamedRow, body: map<string, Option<string>>, now: int)
    returns (res: Response<map<string, JsonValue>>)
    requires table.Valid() && r in table.rows && obj.Row() == r
    modifies table, obj
    ensures table.Valid() && table.nextId == old(table.nextId)
    ensures Outcome(res, table.rows) == DetailSpec(old(table.rows), r.id, HttpPut, body, now)
  {
    assert ById(table.rows, r.id).Some?;
    assert ById(table.rows, r.id) == Some(r) by {
      var i := IndexOfId(table.rows, r.id);
      var j :| 0 <= j < |table.rows| && table.rows[j] == r;
      assert i == j;
    }
    var name := Get(body, "category_name");
    if name.Some? {
      var stripped := NameOf(name);
      if stripped == "" {
        return Detail(400, "category_name cannot be empty");
      }
      if Where(Where(table.rows, OtherThan(obj.id)), NameIs(stripped)) != [] {
        return Detail(400, "category_name already exists");
      }
      obj.name := stripped;
    }
    obj.updatedAt := now;
    assert obj.Row() == Updated(r, name, now);
    UpsertValid(table.rows, obj.Row(), table.nextId);
    obj.Save(table);
    res := Json(200, CategoryValues(obj.Row()));
  }

  /** Writing a row over the one with its id keeps ids distinct and below
      the next id. */
  lemma UpsertValid(rows: seq<NamedRow>, r: NamedRow, nextId: nat)
    requires DistinctIds(rows) && (forall i :: 0 <= i < |rows| ==> rows[i].id < nextId)
    requires IndexOfId(rows, r.id) >= 0
    ensures var out := Upsert(rows, r);
            DistinctIds(out) && forall i :: 0 <= i < |out| ==> out[i].id < nextId
  {
    var out := Upsert(rows, r);
    var k := IndexOfId(rows, r.id);
    forall i, j | 0 <= i < j < |out| ensures out[i].id != out[j].id {
      if i != k && j != k {
        assert out[i] == rows[i] && out[j] == rows[j];
      }
    }
  }

  /** `category_admin_detail` on category `id`. */
  method AdminDetail(table: CategoryTable, id: nat, verb: Verb, body: map<string, Option<string>>, now: int)
    returns (res: Response<map<string, JsonValue>>)
    requires table.Valid()
    modifies table
    ensures table.Valid() && table.nextId == old(table.nextId)
    ensures Outcome(res, table.rows) == DetailSpec(old(table.rows), id, verb, body, now)
  {
    var found := ById(table.rows, id);
    if found.None? {
      return Detail(404, "Not found");
    }
    var obj := new Category.FromRow(found.value);

    if verb == HttpGet {
      return Json(200, CategoryValues(obj.Row()));
    }

    if verb == HttpPut || verb == HttpPatch {
      res := UpdateCategory(table, obj, found.value, body, now);
      return;
    }

    WherePairwise(table.rows, OtherThan(id), (a: NamedRow, b: NamedRow) => a.id != b.id);
    table.rows := Removed(table.rows, id);
    return Detail(204, "deleted");
  }

  // ----- Properties of the detail view -----

  /** An update without `category_name` touches only `updated_at` of the
      category's own row. */
  lemma UpdateWithoutName(rows: seq<NamedRow>, id: nat, verb: Verb, body: map<string, Option<string>>, now: int)
    requires verb == HttpPut || verb == HttpPatch
    requires ById(rows, id).Some? && Get(body, "category_name").None?
    ensures var i := IndexOfId(rows, id);
            DetailSpec(rows, id, verb, body, now)
              == Outcome(Json(200, CategoryValues(rows[i].(updatedAt := now))), rows[i := rows[i].(updatedAt := now)])
  {
  }

  /** An update carrying a non-empty `category_name` that no other
      category has, whatever the case, stores the stripped name and `now`
      in the category's own row, returns that row and keeps every other
      row. */
  lemma UpdatedCategory(rows: seq<NamedRow>, id: nat, verb: Verb, body: map<string, Option<string>>, now: int)
    requires verb == HttpPut || verb == HttpPatch
    requires ById(rows, id).Some? && Get(body, "category_name").Some?
    requires NameOf(Get(body, "category_name")) != ""
    requires forall x :: x in rows && x.id != id ==> !IEquals(x.name, NameOf(Get(body, "category_name")))
    ensures var i := IndexOfId(rows, id);
            var u := rows[i].(name := NameOf(Get(body, "category_name")), updatedAt := now);
            var o := DetailSpec(rows, id, verb, body, now);
            && o.res == Json(200, CategoryValues(u))
            && |o.rows| == |rows| && o.rows[i] == u
            && forall j :: 0 <= j < |rows| && j != i ==> o.rows[j] == rows[j]
  {
  }

  /** Renaming a category to a case variant of its own name is allowed
      when names are unique. */
  lemma RenameToOwnCase(rows: seq<NamedRow>, id: nat, body: map<string, Option<string>>, now: int)
    requires DistinctIds(rows) && UniqueNames(rows)
    requires ById(rows, id).Some?
    requires Get(body, "category_name").Some? && NameOf(Get(body, "category_name")) != ""
    requires IEquals(NameOf(Get(body, "category_name")), ById(rows, id).value.name)
    ensures DetailSpec(rows, id, HttpPut, body, now).res.Status() == 200
  {
    var r := ById(rows, id).value;
    var name := NameOf(Get(body, "category_name"));
    forall x | x in rows && x.id != id ensures !IEquals(x.name, name) {
      var i :| 0 <= i < |rows| && rows[i] == x;
      var k := IndexOfId(rows, id);
      assert rows[k] == r;
      if i < k {
        assert !IEquals(rows[i].name, rows[k].name);
      } else {
        assert i != k;
        assert !IEquals(rows[k].name, rows[i].name);
      }
    }
  }

  /** Create, update and delete keep names unique whatever the case, and
      ids distinct. */
  lemma DetailKeepsUnique(rows: seq<NamedRow>, id: nat, verb: Verb, body: map<string, Option<string>>, now: int)
    requires DistinctIds(rows) && UniqueNames(rows)
    ensures var o := DetailSpec(rows, id, verb, body, now);
            DistinctIds(o.rows) && UniqueNames(o.rows)
  {
    var o := DetailSpec(rows, id, verb, body, now);
    if ById(rows, id).Some? {
      if verb == HttpDelete {
        WherePairwise(rows, OtherThan(id), (a: NamedRow, b: NamedRow) => a.id != b.id);
        WherePairwise(rows, OtherThan(id), (a: NamedRow, b: NamedRow) => !IEquals(a.name, b.name));
      } else if verb != HttpGet && o.res.Status() == 200 {
        var k := IndexOfId(rows, id);
        var name := Get(body, "category_name");
        var u := Updated(rows[k], name, now);
        assert o.rows == rows[k := u];
        forall i, j | 0 <= i < j < |o.rows| ensures o.rows[i].id != o.rows[j].id && !IEquals(o.rows[i].name, o.rows[j].name) {
          if i == k {
            assert rows[j] in rows && rows[j].id != id;
            if name.None? {
              assert !IEquals(rows[k].name, rows[j].name);
            }
          } else if j == k {
            assert rows[i] in rows && rows[i].id != id;
            if name.None? {
              assert !IEquals(rows[i].name, rows[k].name);
            }
          }
        }
      }
    }
  }

  /** A category just created is found under its new id. */
  lemma CreateThenGet(rows: seq<NamedRow>, nextId: nat, body: map<string, Option<string>>, now: int,
                      getBody: map<string, Option<string>>, later: int)
    requires forall i :: 0 <= i < |rows| ==> rows[i].id < nextId
    requires CreateCheck(rows, NameOf(Get(body, "category_name"))).None?
    ensures var r := NamedRow(nextId, NameOf(Get(body, "category_name")), now, now);
            DetailSpec(rows + [r], nextId, HttpGet, getBody, later) == Outcome(Json(200, CategoryValues(r)), rows + [r])
  {
    var r := NamedRow(nextId, NameOf(Get(body, "category_name")), now, now);
    forall x | x in rows ensures x.id != nextId {
      var j :| 0 <= j < |rows| && rows[j] == x;
    }
    assert ById(rows + [r], nextId).value == r;
  }
}
