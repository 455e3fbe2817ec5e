/** The brand and category repositories (`list_brands`, `list_categories`):
    both tables are a name with its id and timestamps, filtered by a name
    query and ordered by name. */
module Catalogue {
  import opened Base
  import opened Text
  import opened Sorting
  import opened Filtering

  /** A brand or a category. Timestamps are numbers. */
  datatype NamedRow = NamedRow(id: nat, name: string, createdAt: int, updatedAt: int)

  /** The query parameters `name` and `order`. */
  datatype NameParams = NameParams(name: Option<string>, order: Option<string>)

  /** The name query: the parameter stripped, "" when absent. */
  function NameQuery(p: NameParams): string {
    Strip(OrEmpty(p.name))
  }

  /** `order` lower-cased (but not stripped), "desc" by default; only the
      exact text "desc" orders downwards. */
  function Descending(p: NameParams): bool {
    Lower(OrDefault(p.order, "desc")) == "desc"
  }

  function NameContains(query: string): NamedRow -> bool {
    (r: NamedRow) => IContains(r.name, query)
  }

  /** The rows the name query keeps: all rows for an empty query, else those
      whose name contains it whatever the case. */
  function Matching(rows: seq<NamedRow>, query: string): (m: seq<NamedRow>)
    ensures forall x :: x in m <==> x in rows && (query == "" || IContains(x.name, query))
    ensures query == "" ==> m == rows
  {
    if query != "" then Where(rows, NameContains(query)) else rows
  }

  function NameKey(r: NamedRow): SortKey {
    Str(r.name)
  }

  /** The matching rows ordered by name, descending exactly when `order`
      lower-cases to "desc". */
  function Listed(rows: seq<NamedRow>, p: NameParams): (s: seq<NamedRow>)
    ensures multiset(s) == multiset(Matching(rows, NameQuery(p)))
    ensures SortedBy(s, NameKey, Descending(p))
  {
    SortBy(Matching(rows, NameQuery(p)), NameKey, Descending(p))
  }

  /** A brand as `values('brand_id', 'brand_name', 'created_at', 'updated_at')` gives it. */
  function BrandValues(r: NamedRow): (m: map<string, JsonValue>)
    ensures m.Keys == {"brand_id", "brand_name", "created_at", "updated_at"}
    ensures m["brand_id"] == JInt(r.id) && m["brand_name"] == JStr(r.name)
    ensures m["created_at"] == JInt(r.createdAt) && m["updated_at"] == JInt(r.updatedAt)
  {
    map["brand_id" := JInt(r.id), "brand_name" := JStr(r.name),
        "created_at" := JInt(r.createdAt), "updated_at" := JInt(r.updatedAt)]
  }

  /** A category as `values('category_id', 'category_name', 'created_at', 'updated_at')` gives it. */
  function CategoryValues(r: NamedRow): (m: map<string, JsonValue>)
    ensures m.Keys == {"category_id", "category_name", "created_at", "updated_at"}
    ensures m["category_id"] == JInt(r.id) && m["category_name"] == JStr(r.name)
    ensures m["created_at"] == JInt(r.createdAt) && m["updated_at"] == JInt(r.updatedAt)
  {
    map["category_id" := JInt(r.id), "category_name" := JStr(r.name),
        "created_at" := JInt(r.createdAt), "updated_at" := JInt(r.updatedAt)]
  }

  /** `list_brands(params)`: the listed brands, each carrying exactly its
      id, name and timestamps. */
  function ListBrands(rows: seq<NamedRow>, p: NameParams): (out: seq<map<string, JsonValue>>)
    ensures |out| == |Listed(rows, p)|
    ensures forall k :: 0 <= k < |out| ==>
              var r := Listed(rows, p)[k];
              && out[k].Keys == {"brand_id", "brand_name", "created_at", "updated_at"}
              && out[k]["brand_id"] == JInt(r.id) && out[k]["brand_name"] == JStr(r.name)
              && out[k]["created_at"] == JInt(r.createdAt) && out[k]["updated_at"] == JInt(r.updatedAt)
  {
    var listed := Listed(rows, p);
    seq(|listed|, k requires 0 <= k < |listed| => BrandValues(listed[k]))
  }

  /** `list_categories(params)`: the listed categories, each carrying
      exactly its id, name and timestamps. */
  function ListCategories(rows: seq<NamedRow>, p: NameParams): (out: seq<map<string, JsonValue>>)
    ensures |out| == |Listed(rows, p)|
    ensures forall k :: 0 <= k < |out| ==>
              var r := Listed(rows, p)[k];
              && out[k].Keys == {"category_id", "category_name", "created_at", "updated_at"}
              && out[k]["category_id"] == JInt(r.id) && out[k]["category_name"] == JStr(r.name)
              && out[k]["created_at"] == JInt(r.createdAt) && out[k]["updated_at"] == JInt(r.updatedAt)
  {
    var listed := Listed(rows, p);
    seq(|listed|, k requires 0 <= k < |listed| => CategoryValues(listed[k]))
  }

  /** A listed row is a row of the table whose name contains the trimmed
      query, whatever the case; with an empty or absent query the listing
      holds every row of the table, each once. */
  lemma ListedRows(rows: seq<NamedRow>, p: NameParams)
    ensures forall x :: x in Listed(rows, p) <==> x in rows && (NameQuery(p) == "" || IContains(x.name, NameQuery(p)))
    ensures NameQuery(p) == "" ==> multiset(Listed(rows, p)) == multiset(rows)
  {
    var s := Listed(rows, p);
    forall x ensures x in s <==> x in Matching(rows, NameQuery(p)) {
      assert x in s <==> x in multiset(s);
      assert x in Matching(rows, NameQuery(p)) <==> x in multiset(Matching(rows, NameQuery(p)));
    }
  }
}
