/** The product repository (`list_products`): it narrows the products by a
    name query, brand and category id lists and inclusive price and year
    bounds; orders them by one allow-listed column; cuts one page out of
    them, by page/page_size or by offset/limit; and renames the joined keys
    of each row it returns. */
module ProductListing {
  import opened Base
  import opened Text
  import opened Sorting
  import opened Filtering
  import opened Paging

  /** A product joined with its brand and its category, both optional
      foreign keys. Prices are whole numbers in the model. */
  datatype ProductRow = ProductRow(
    productId: nat, productName: string,
    brandId: Option<nat>, brandName: Option<string>,
    categoryId: Option<nat>, categoryName: Option<string>,
    modelYear: nat, listPrice: int)

  /** The query parameters of a listing. A numeric bound is None when its
      parameter is absent or empty. */
  datatype ProductParams = ProductParams(
    name: Option<string>, brandId: Option<string>, categoryId: Option<string>,
    minPrice: Option<int>, maxPrice: Option<int>, minYear: Option<int>, maxYear: Option<int>,
    orderBy: Option<string>, order: Option<string>,
    page: Option<string>, pageSize: Option<string>, offset: Option<string>, limit: Option<string>)

  // ----- Id lists -----

  /** `int(t)` is taken of token `t`, and gives `x`: its stripped form is
      all digits and spells `x`. */
  predicate ReadsAs(t: string, x: nat) {
    IsDigits(Strip(t)) && DigitsValue(Strip(t)) == x
  }

  /** The numbers of the tokens whose stripped form is all digits, in order;
      `int(x)` reads a token with its surrounding white space. */
  function DigitTokens(tokens: seq<string>): (ids: seq<nat>)
    ensures |ids| <= |tokens|
  {
    if tokens == [] then []
    else
      var t := Strip(tokens[0]);
      (if IsDigits(t) then [DigitsValue(t)] else []) + DigitTokens(tokens[1..])
  }

  /** A number is read from a list of tokens exactly when one of the
      tokens is read as it. */
  lemma {:induction false} DigitTokensMembers(tokens: seq<string>)
    ensures forall x :: x in DigitTokens(tokens) <==> exists k :: 0 <= k < |tokens| && ReadsAs(tokens[k], x)
  {
    if tokens != [] {
      DigitTokensMembers(tokens[1..]);
      var t := Strip(tokens[0]);
      var head := if IsDigits(t) then [DigitsValue(t)] else [];
      assert DigitTokens(tokens) == head + DigitTokens(tokens[1..]);
      forall x ensures x in DigitTokens(tokens) <==> exists k :: 0 <= k < |tokens| && ReadsAs(tokens[k], x) {
        if x in DigitTokens(tokens) && !ReadsAs(tokens[0], x) {
          assert x in DigitTokens(tokens[1..]);
          var k :| 0 <= k < |tokens[1..]| && ReadsAs(tokens[1..][k], x);
          assert tokens[1..][k] == tokens[k + 1];
        }
        if exists k :: 0 <= k < |tokens| && ReadsAs(tokens[k], x) {
          var k :| 0 <= k < |tokens| && ReadsAs(tokens[k], x);
          if k > 0 {
            assert tokens[1..][k - 1] == tokens[k];
          }
        }
      }
    }
  }

  /** The numbers of two lists of tokens, one after the other, are the
      numbers of the first list followed by those of the second. */
  lemma {:induction false} DigitTokensAppend(a: seq<string>, b: seq<string>)
    ensures DigitTokens(a + b) == DigitTokens(a) + DigitTokens(b)
  {
    if a == [] {
      assert a + b == b;
    } else {
      var t := Strip(a[0]);
      var head := if IsDigits(t) then [DigitsValue(t)] else [];
      assert (a + b)[0] == a[0] && (a + b)[1..] == a[1..] + b;
      assert DigitTokens(a + b) == head + DigitTokens(a[1..] + b);
      DigitTokensAppend(a[1..], b);
      assert head + (DigitTokens(a[1..]) + DigitTokens(b)) == (head + DigitTokens(a[1..])) + DigitTokens(b);
    }
  }

  /** `_csv_ints(s)`: the numbers among the comma-separated tokens of `s`;
      none for an absent or empty value. */
  function CsvInts(s: Option<string>): (ids: seq<nat>)
    ensures !Truthy(s) ==> ids == []
    ensures Truthy(s) ==> |ids| <= |Split(s.value, ',')|
    ensures Truthy(s) ==> forall x :: x in ids <==>
              exists k :: 0 <= k < |Split(s.value, ',')| && ReadsAs(Split(s.value, ',')[k], x)
  {
    if Truthy(s) then
      DigitTokensMembers(Split(s.value, ','));
      DigitTokens(Split(s.value, ','))
    else []
  }

  /** An empty value and the tokens of its split agree: both read no ids. */
  lemma CsvIntsTokens(s: string)
    ensures CsvInts(Some(s)) == DigitTokens(Split(s, ','))
  {
    if s == "" {
      assert Split(s, ',') == [""];
      assert Strip("") == "";
      assert DigitTokens([""]) == [] + DigitTokens([]);
    }
  }

  /** A value without commas is one token: its number if it is read as
      one, else nothing. */
  lemma CsvIntsOne(t: string)
    requires ',' !in t
    ensures CsvInts(Some(t)) == (if IsDigits(Strip(t)) then [DigitsValue(Strip(t))] else [])
  {
    CsvIntsTokens(t);
    SplitPiece(t, [], ',');
    assert t + [] == t;
    assert Split(t, ',') == [t];
    assert [t][1..] == [];
  }

  /** `_csv_ints` keeps the order of the list: the ids of `a,b` are the ids
      of `a` followed by the ids of `b`. With `CsvIntsOne` this fixes the
      result on every input. */
  lemma CsvIntsConcat(a: string, b: string)
    ensures CsvInts(Some(a + "," + b)) == CsvInts(Some(a)) + CsvInts(Some(b))
  {
    CsvIntsTokens(a);
    CsvIntsTokens(b);
    CsvIntsTokens(a + "," + b);
    SplitAtSep(a, b, ',');
    DigitTokensAppend(Split(a, ','), Split(b, ','));
  }

  /** The decimal numerals of `ids`. */
  function Numerals(ids: seq<nat>): (parts: seq<string>)
    ensures |parts| == |ids|
    ensures forall k :: 0 <= k < |ids| ==> parts[k] == NatToDigits(ids[k])
  {
    seq(|ids|, k requires 0 <= k < |ids| => NatToDigits(ids[k]))
  }

  lemma DigitTokensNumeral(tokens: seq<string>)
    requires tokens != [] && IsDigits(tokens[0]) && Strip(tokens[0]) == tokens[0]
    ensures DigitTokens(tokens) == [DigitsValue(tokens[0])] + DigitTokens(tokens[1..])
  {
  }

  lemma {:induction false} DigitTokensNumerals(ids: seq<nat>)
    ensures DigitTokens(Numerals(ids)) == ids
  {
    if ids != [] {
      var parts := Numerals(ids);
      assert parts[1..] == Numerals(ids[1..]);
      DigitsStrip(parts[0]);
      DigitsRoundTrip(ids[0]);
      DigitTokensNumerals(ids[1..]);
      DigitTokensNumeral(parts);
      assert ids == [ids[0]] + ids[1..];
    }
  }

  /** Writing ids as a comma-separated list and reading it back with
      `_csv_ints` gives the same ids in the same order. */
  lemma CsvIntsRoundTrip(ids: seq<nat>)
    requires ids != []
    ensures CsvInts(Some(Join(Numerals(ids), ','))) == ids
  {
    var parts := Numerals(ids);
    forall k | 0 <= k < |parts| ensures ',' !in parts[k] {
      assert forall i :: 0 <= i < |parts[k]| ==> IsDigit(parts[k][i]);
    }
    SplitJoin(parts, ',');
    DigitTokensNumerals(ids);
    assert |Join(parts, ',')| >= |parts[0]| > 0;
  }

  /** Tokens with the same stripped forms give the same numbers. */
  lemma {:induction false} DigitTokensStripped(a: seq<string>, b: seq<string>)
    requires |a| == |b|
    requires forall k :: 0 <= k < |a| ==> Strip(a[k]) == Strip(b[k])
    ensures DigitTokens(a) == DigitTokens(b)
  {
    if a != [] {
      DigitTokensStripped(a[1..], b[1..]);
    }
  }

  /** The pieces of a comma list with comma-free text added in front and
      behind: the first piece gains the front, the last the back. */
  lemma SplitAround(pre: string, t: string, suf: string)
    requires ',' !in pre && ',' !in suf
    ensures var p, r := Split(t, ','), Split(pre + t + suf, ',');
            && |r| == |p|
            && forall k :: 0 <= k < |p| ==>
                 r[k] == (if k == 0 then pre else "") + p[k] + (if k == |p| - 1 then suf else "")
  {
    var p := Split(t, ',');
    var n := |p|;
    SplitSuffix(t, suf, ',');
    var q := Split(t + suf, ',');
    assert q == p[..n - 1] + [p[n - 1] + suf];
    SplitPiece(pre, t + suf, ',');
    assert pre + (t + suf) == pre + t + suf;
    var r := Split(pre + t + suf, ',');
    assert r == [pre + q[0]] + q[1..];
    forall k | 0 <= k < n
      ensures r[k] == (if k == 0 then pre else "") + p[k] + (if k == n - 1 then suf else "")
    {
      if k == 0 && n == 1 {
        assert r[k] == pre + (p[0] + suf);
      } else if k == 0 {
        assert r[k] == pre + p[0];
      } else if k == n - 1 {
        assert r[k] == q[k] == p[k] + suf;
      } else {
        assert r[k] == q[k] == p[k];
      }
    }
  }

  /** Splitting a list padded with white space gives the pieces of the bare
      list, padded: each piece strips to the same text. */
  lemma SplitPadded(pre: string, t: string, suf: string)
    requires AllSpace(pre) && AllSpace(suf)
    ensures |Split(pre + t + suf, ',')| == |Split(t, ',')|
    ensures forall k :: 0 <= k < |Split(t, ',')| ==>
              Strip(Split(pre + t + suf, ',')[k]) == Strip(Split(t, ',')[k])
  {
    assert ',' !in pre && ',' !in suf by {
      assert !IsSpace(',');
    }
    SplitAround(pre, t, suf);
    var p, r := Split(t, ','), Split(pre + t + suf, ',');
    forall k | 0 <= k < |p| ensures Strip(r[k]) == Strip(p[k]) {
      StripPadded(if k == 0 then pre else "", p[k], if k == |p| - 1 then suf else "");
    }
  }

  /** A list of nothing but white space holds no ids. */
  lemma CsvIntsBlank(s: string)
    requires AllSpace(s)
    ensures CsvInts(Some(s)) == []
  {
    assert ',' !in s by {
      assert !IsSpace(',');
    }
    SplitPiece(s, [], ',');
    assert s + [] == s;
    assert Split(s, ',') == [s];
    StripCore([], [], s);
    assert [] + [] + s == s;
    assert Strip(s) == [];
    assert [s][1..] == [];
    assert DigitTokens([s]) == [];
  }

  /** White space around the whole list does not change the ids read from
      it: stripping the parameter first, as the product view does, reads
      the same ids. */
  lemma CsvIntsStrip(s: string)
    ensures CsvInts(Some(Strip(s))) == CsvInts(Some(s))
  {
    var l := LStrip(s);
    LStripFrame(s);
    RStripFrame(l);
    var i := |s| - |l|;
    var t := RStrip(l);
    var j := i + |t|;
    var pre, suf := s[..i], s[j..];
    assert s[i..j] == t == Strip(s);
    assert suf == l[|t|..];
    assert s == pre + t + suf;
    if t == [] {
      assert s == pre + suf;
      AllSpaceConcat(pre, suf);
      CsvIntsBlank(s);
    } else {
      SplitPadded(pre, t, suf);
      DigitTokensStripped(Split(s, ','), Split(t, ','));
    }
  }

  // ----- Filters -----

  /** The conditions derived from the parameters. */
  datatype ProductFilter = ProductFilter(
    name: string, brandIds: seq<nat>, categoryIds: seq<nat>,
    minPrice: Option<int>, maxPrice: Option<int>, minYear: Option<int>, maxYear: Option<int>)

  function FilterOf(q: ProductParams): ProductFilter {
    ProductFilter(Strip(OrEmpty(q.name)), CsvInts(q.brandId), CsvInts(q.categoryId),
                  q.minPrice, q.maxPrice, q.minYear, q.maxYear)
  }

  /** `product_name__icontains=name`. */
  predicate NameMatches(name: string, r: ProductRow) {
    IContains(r.productName, name)
  }

  /** `<key>__in=ids`: a NULL foreign key is in no list. */
  predicate IdIn(ids: seq<nat>, id: Option<nat>) {
    id.Some? && id.value in ids
  }

  predicate AtLeast(bound: Option<int>, v: int) {
    bound.None? || v >= bound.value
  }

  predicate AtMost(bound: Option<int>, v: int) {
    bound.None? || v <= bound.value
  }

  /** `r` passes the first `k` of the seven conditions, in the order the
      listing applies them; an empty name or an empty id list is no
      condition at all. */
  predicate PassesFirst(f: ProductFilter, k: nat, r: ProductRow) {
    && (k > 0 && f.name != "" ==> NameMatches(f.name, r))
    && (k > 1 && f.brandIds != [] ==> IdIn(f.brandIds, r.brandId))
    && (k > 2 && f.categoryIds != [] ==> IdIn(f.categoryIds, r.categoryId))
    && (k > 3 ==> AtLeast(f.minPrice, r.listPrice))
    && (k > 4 ==> AtMost(f.maxPrice, r.listPrice))
    && (k > 5 ==> AtLeast(f.minYear, r.modelYear))
    && (k > 6 ==> AtMost(f.maxYear, r.modelYear))
  }

  /** `r` passes every condition of `f`. */
  predicate Admits(f: ProductFilter, r: ProductRow) {
    PassesFirst(f, 7, r)
  }

  function Passing(f: ProductFilter, k: nat): ProductRow -> bool {
    (r: ProductRow) => PassesFirst(f, k, r)
  }

  /** The rows that pass every condition, in table order. */
  function Filtered(rows: seq<ProductRow>, f: ProductFilter): (r: seq<ProductRow>)
    ensures |r| <= |rows|
    ensures forall x :: x in r <==> x in rows && Admits(f, x)
  {
    Where(rows, Passing(f, 7))
  }

  function NameFilter(name: string): ProductRow -> bool {
    (r: ProductRow) => NameMatches(name, r)
  }

  function BrandFilter(ids: seq<nat>): ProductRow -> bool {
    (r: ProductRow) => IdIn(ids, r.brandId)
  }

  function CategoryFilter(ids: seq<nat>): ProductRow -> bool {
    (r: ProductRow) => IdIn(ids, r.categoryId)
  }

  function PriceFloor(b: int): ProductRow -> bool {
    (r: ProductRow) => r.listPrice >= b
  }

  function PriceCeiling(b: int): ProductRow -> bool {
    (r: ProductRow) => r.listPrice <= b
  }

  function YearFloor(b: int): ProductRow -> bool {
    (r: ProductRow) => r.modelYear >= b
  }

  function YearCeiling(b: int): ProductRow -> bool {
    (r: ProductRow) => r.modelYear <= b
  }

  /** Applying the next condition, or skipping it when it is void, narrows
      the rows passing the first `k` conditions to those passing `k + 1`. */
  lemma Narrow(rows: seq<ProductRow>, f: ProductFilter, k: nat, next: nat,
               before: seq<ProductRow>, cond: ProductRow -> bool, applied: bool)
    requires next == k + 1
    requires before == Where(rows, Passing(f, k))
    requires forall x :: PassesFirst(f, next, x) == (PassesFirst(f, k, x) && (applied ==> cond(x)))
    ensures (if applied then Where(before, cond) else before) == Where(rows, Passing(f, next))
  {
    if applied {
      WhereWhere(rows, Passing(f, k), cond, Passing(f, next));
    } else {
      WhereAgree(rows, Passing(f, k), Passing(f, next));
    }
  }

  /** The filter chain shared by the listing and the product view: each
      condition that is not void narrows the rows in turn. */
  method NarrowRows(rows: seq<ProductRow>, name: string, brandIds: seq<nat>, categoryIds: seq<nat>,
                    minPrice: Option<int>, maxPrice: Option<int>, minYear: Option<int>, maxYear: Option<int>)
    returns (qs: seq<ProductRow>)
    ensures qs == Filtered(rows, ProductFilter(name, brandIds, categoryIds, minPrice, maxPrice, minYear, maxYear))
  {
    var f := ProductFilter(name, brandIds, categoryIds, minPrice, maxPrice, minYear, maxYear);
    qs := NarrowByKeys(rows, f);
    qs := NarrowByBounds(rows, f, qs);
  }

  /** The name, brand and category conditions of the chain. */
  method NarrowByKeys(rows: seq<ProductRow>, f: ProductFilter) returns (qs: seq<ProductRow>)
    ensures qs == Where(rows, Passing(f, 3))
  {
    qs := rows;
    WhereAll(rows, Passing(f, 0));
    ghost var before := qs;
    if f.name != "" {
      qs := Where(qs, NameFilter(f.name));
    }
    Narrow(rows, f, 0, 1, before, NameFilter(f.name), f.name != "");
    before := qs;
    if f.brandIds != [] {
      qs := Where(qs, BrandFilter(f.brandIds));
    }
    Narrow(rows, f, 1, 2, before, BrandFilter(f.brandIds), f.brandIds != []);
    before := qs;
    if f.categoryIds != [] {
      qs := Where(qs, CategoryFilter(f.categoryIds));
    }
    Narrow(rows, f, 2, 3, before, CategoryFilter(f.categoryIds), f.categoryIds != []);
  }

  /** The price and year bounds of the chain, after the first three. */
  method NarrowByBounds(rows: seq<ProductRow>, f: ProductFilter, keyed: seq<ProductRow>) returns (qs: seq<ProductRow>)
    requires keyed == Where(rows, Passing(f, 3))
    ensures qs == Where(rows, Passing(f, 7))
  {
    qs := keyed;
    ghost var before := qs;
    if f.minPrice.Some? {
      qs := Where(qs, PriceFloor(f.minPrice.value));
    }
    Narrow(rows, f, 3, 4, before, PriceFloor(if f.minPrice.Some? then f.minPrice.value else 0), f.minPrice.Some?);
    before := qs;
    if f.maxPrice.Some? {
      qs := Where(qs, PriceCeiling(f.maxPrice.value));
    }
    Narrow(rows, f, 4, 5, before, PriceCeiling(if f.maxPrice.Some? then f.maxPrice.value else 0), f.maxPrice.Some?);
    before := qs;
    if f.minYear.Some? {
      qs := Where(qs, YearFloor(f.minYear.value));
    }
    Narrow(rows, f, 5, 6, before, YearFloor(if f.minYear.Some? then f.minYear.value else 0), f.minYear.Some?);
    before := qs;
    if f.maxYear.Some? {
      qs := Where(qs, YearCeiling(f.maxYear.value));
    }
    Narrow(rows, f, 6, 7, before, YearCeiling(if f.maxYear.Some? then f.maxYear.value else 0), f.maxYear.Some?);
  }

  // ----- Ordering -----

  /** The `order_by` values the listing accepts and the column each names. */
  const FieldMap: map<string, string> := map[
    "id" := "product_id", "product_id" := "product_id",
    "name" := "product_name", "product_name" := "product_name",
    "price" := "list_price", "list_price" := "list_price",
    "year" := "model_year", "model_year" := "model_year",
    "brand" := "brand__brand_name", "brand_name" := "brand__brand_name",
    "brand_id" := "brand_id",
    "category" := "category__category_name", "category_name" := "category__category_name",
    "category_id" := "category_id"]

  /** `order_by`, stripped, without leading '+', lower-cased; "id" by default. */
  function OrderKeyOf(q: ProductParams): string {
    Lower(LStripChar(Strip(OrDefault(q.orderBy, "id")), '+'))
  }

  /** `order`, stripped and lower-cased; "desc" by default. */
  function DirectionOf(q: ProductParams): string {
    Lower(Strip(OrDefault(q.order, "desc")))
  }

  /** The column to order by: an unknown key falls back to the product id. */
  function OrderField(key: string): (field: string)
    ensures key in FieldMap ==> field == FieldMap[key]
    ensures key !in FieldMap ==> field == "product_id"
    ensures field in FieldMap.Values
  {
    if key in FieldMap then FieldMap[key] else
      assert FieldMap["id"] == "product_id";
      "product_id"
  }

  /** The value of column `field` in `r`; a NULL foreign key or joined name
      is `Null`. */
  function ColumnValue(field: string, r: ProductRow): SortKey {
    if field == "product_name" then Str(r.productName)
    else if field == "list_price" then Num(r.listPrice)
    else if field == "model_year" then Num(r.modelYear)
    else if field == "brand__brand_name" then (if r.brandName.Some? then Str(r.brandName.value) else Null)
    else if field == "brand_id" then (if r.brandId.Some? then Num(r.brandId.value) else Null)
    else if field == "category__category_name" then (if r.categoryName.Some? then Str(r.categoryName.value) else Null)
    else if field == "category_id" then (if r.categoryId.Some? then Num(r.categoryId.value) else Null)
    else Num(r.productId)
  }

  function Column(field: string): ProductRow -> SortKey {
    (r: ProductRow) => ColumnValue(field, r)
  }

  /** The filtered rows in the requested order: descending only when the
      direction is exactly "desc". */
  function OrderedRows(rows: seq<ProductRow>, q: ProductParams): (r: seq<ProductRow>)
    ensures multiset(r) == multiset(Filtered(rows, FilterOf(q)))
    ensures SortedBy(r, Column(OrderField(OrderKeyOf(q))), DirectionOf(q) == "desc")
  {
    SortBy(Filtered(rows, FilterOf(q)), Column(OrderField(OrderKeyOf(q))), DirectionOf(q) == "desc")
  }

  // ----- Pagination -----

  /** The paging parameters of the listing. */
  function PagingOf(q: ProductParams): PageParams {
    PageParams(q.page, q.pageSize, q.offset, q.limit)
  }

  // ----- Returned rows -----

  function IntOrNull(v: Option<nat>): JsonValue {
    if v.Some? then JInt(v.value) else JNull
  }

  function StrOrNull(v: Option<string>): JsonValue {
    if v.Some? then JStr(v.value) else JNull
  }

  /** A row as `values(...)` produces it: the joined names under
      `brand__brand_name` and `category__category_name`. */
  function ValuesRow(r: ProductRow): map<string, JsonValue> {
    map["product_id" := JInt(r.productId), "product_name" := JStr(r.productName),
        "brand_id" := IntOrNull(r.brandId), "brand__brand_name" := StrOrNull(r.brandName),
        "category_id" := IntOrNull(r.categoryId), "category__category_name" := StrOrNull(r.categoryName),
        "model_year" := JInt(r.modelYear), "list_price" := JInt(r.listPrice)]
  }

  /** A row as the listing returns it. */
  function ItemOf(r: ProductRow): map<string, JsonValue> {
    map["product_id" := JInt(r.productId), "product_name" := JStr(r.productName),
        "brand_id" := IntOrNull(r.brandId), "brand_name" := StrOrNull(r.brandName),
        "category_id" := IntOrNull(r.categoryId), "category_name" := StrOrNull(r.categoryName),
        "model_year" := JInt(r.modelYear), "list_price" := JInt(r.listPrice)]
  }

  /** A returned row carries the joined names under `brand_name` and
      `category_name` instead of the joined keys, and every other value of
      `values(...)` unchanged. */
  lemma ItemRenamesJoinedKeys(r: ProductRow)
    ensures var d, v := ItemOf(r), ValuesRow(r);
            && "brand__brand_name" !in d && "category__category_name" !in d
            && d["brand_name"] == v["brand__brand_name"]
            && d["category_name"] == v["category__category_name"]
            && d.Keys == v.Keys - {"brand__brand_name", "category__category_name"} + {"brand_name", "category_name"}
            && (forall k :: k in v && k in d ==> d[k] == v[k])
  {
  }

  /** `d[to] = d.pop(from, None)`. */
  function Pop(d: map<string, JsonValue>, from: string, to: string): map<string, JsonValue> {
    (d - {from})[to := if from in d then d[from] else JNull]
  }

  /** Popping both joined keys of `values(...)` gives the returned row. */
  lemma PopJoinedKeys(r: ProductRow)
    ensures Pop(Pop(ValuesRow(r), "brand__brand_name", "brand_name"), "category__category_name", "category_name") == ItemOf(r)
  {
    var half := map["product_id" := JInt(r.productId), "product_name" := JStr(r.productName),
        "brand_id" := IntOrNull(r.brandId), "brand_name" := StrOrNull(r.brandName),
        "category_id" := IntOrNull(r.categoryId), "category__category_name" := StrOrNull(r.categoryName),
        "model_year" := JInt(r.modelYear), "list_price" := JInt(r.listPrice)];
    assert Pop(ValuesRow(r), "brand__brand_name", "brand_name") == half;
  }

  /** The loop that replaces each joined key by its short name, as
      `d[new] = d.pop(old, None)`. */
  method RenameJoinedKeys(rows: seq<ProductRow>) returns (items: seq<map<string, JsonValue>>)
    ensures |items| == |rows|
    ensures forall k :: 0 <= k < |rows| ==> items[k] == ItemOf(rows[k])
  {
    items := seq(|rows|, k requires 0 <= k < |rows| => ValuesRow(rows[k]));
    var i := 0;
    while i < |items|
      invariant 0 <= i <= |items| == |rows|
      invariant forall k :: 0 <= k < i ==> items[k] == ItemOf(rows[k])
      invariant forall k :: i <= k < |items| ==> items[k] == ValuesRow(rows[k])
    {
      var d := items[i];
      d := Pop(d, "brand__brand_name", "brand_name");
      d := Pop(d, "category__category_name", "category_name");
      PopJoinedKeys(rows[i]);
      items := items[i := d];
      i := i + 1;
    }
  }

  // ----- The listing -----

  datatype Ordering = Ordering(orderBy: string, direction: string)

  /** The direction the listing reports: always "asc" or "desc", and "asc"
      only for the direction "asc". */
  function ReportedDirection(q: ProductParams): (d: string)
    ensures d == "asc" || d == "desc"
    ensures d == "asc" <==> DirectionOf(q) == "asc"
  {
    var direction := DirectionOf(q);
    if direction == "asc" || direction == "desc" then direction else "desc"
  }

  datatype Listing = Listing(items: seq<map<string, JsonValue>>, pagination: Pagination, ordering: Ordering)

  /** `list_products(params)` over the product table `rows`. */
  method ListProducts(rows: seq<ProductRow>, q: ProductParams) returns (res: Listing)
    ensures var ordered := OrderedRows(rows, q);
            var w := Window(PagingOf(q), ordered);
            && res.pagination == Paginate(PagingOf(q), |ordered|)
            && |res.items| == |w|
            && (forall k :: 0 <= k < |w| ==> res.items[k] == ItemOf(w[k]))
    ensures res.pagination.total == |Filtered(rows, FilterOf(q))|
    ensures |res.items| <= res.pagination.total
    ensures res.ordering == Ordering(OrderKeyOf(q), ReportedDirection(q))
  {
    var name := Strip(OrEmpty(q.name));
    var brandIds := CsvInts(q.brandId);
    var categoryIds := CsvInts(q.categoryId);
    var qs := NarrowRows(rows, name, brandIds, categoryIds, q.minPrice, q.maxPrice, q.minYear, q.maxYear);

    var orderKey := Lower(LStripChar(Strip(OrDefault(q.orderBy, "id")), '+'));
    var direction := Lower(Strip(OrDefault(q.order, "desc")));
    var field := if orderKey in FieldMap then FieldMap[orderKey] else "product_id";
    qs := SortBy(qs, Column(field), direction == "desc");
    SortByKeeps(Filtered(rows, FilterOf(q)), Column(field), direction == "desc");

    var selected, pagination := CutPage(qs, PagingOf(q));
    var items := RenameJoinedKeys(selected);
    var reported := if direction == "asc" || direction == "desc" then direction else "desc";
    res := Listing(items, pagination, Ordering(orderKey, reported));
  }

  // ----- Properties of the listing -----

  /** Every returned row is a product of the table that passes every
      condition: its name contains the trimmed query whatever the case, its
      brand and category are in the parsed id lists when those are not
      empty, and its price and year lie within the given bounds. */
  lemma ListedRowsQualify(rows: seq<ProductRow>, q: ProductParams)
    ensures forall x :: x in Window(PagingOf(q), OrderedRows(rows, q)) ==> x in rows && Admits(FilterOf(q), x)
  {
    var f := FilterOf(q);
    forall x | x in Window(PagingOf(q), OrderedRows(rows, q)) ensures x in rows && Admits(f, x) {
      assert x in multiset(OrderedRows(rows, q));
      assert x in multiset(Filtered(rows, f));
    }
  }

  /** The returned rows are in the requested order: by the chosen column,
      descending only for the direction "desc". */
  lemma ListedRowsSorted(rows: seq<ProductRow>, q: ProductParams)
    ensures SortedBy(Window(PagingOf(q), OrderedRows(rows, q)), Column(OrderField(OrderKeyOf(q))), DirectionOf(q) == "desc")
  {
    WindowSorted(PagingOf(q), OrderedRows(rows, q), Column(OrderField(OrderKeyOf(q))), DirectionOf(q) == "desc");
  }

  /** With no name, no ids and no bounds, every product of the table is
      listed. */
  lemma NoConditionKeepsAll(rows: seq<ProductRow>, f: ProductFilter)
    requires f.name == "" && f.brandIds == [] && f.categoryIds == []
    requires f.minPrice.None? && f.maxPrice.None? && f.minYear.None? && f.maxYear.None?
    ensures Filtered(rows, f) == rows
  {
    WhereAll(rows, Passing(f, 7));
  }
}
