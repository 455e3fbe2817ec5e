/** The product view `get_all`: the listing's filters and ordering without
    any pagination. It strips the whole brand and category parameters
    before reading their ids. */
module ProductView {
  import opened Base
  import opened Text
  import opened Sorting
  import opened ProductListing

  /** The view's reading of an id list: the parameter is stripped first, and
      ids are read only from a non-empty stripped text. */
  function ViewIds(v: Option<string>): (ids: seq<nat>)
    ensures Strip(OrEmpty(v)) == "" ==> ids == []
  {
    var t := Strip(OrEmpty(v));
    if t != "" then DigitTokens(Split(t, ',')) else []
  }

  /** The view reads the same ids as the repository's `_csv_ints`, so an id
      condition applies exactly when the stripped parameter has at least one
      all-digit token. */
  lemma ViewIdsAgree(v: Option<string>)
    ensures ViewIds(v) == CsvInts(v)
  {
    if v.Some? {
      CsvIntsStrip(v.value);
      var t := Strip(v.value);
      if t == "" {
        assert CsvInts(Some(t)) == [];
      }
    } else {
      StripCore([], [], []);
      assert [] + [] + [] == "";
    }
  }

  /** `get_all(request)` over the product table `rows`: exactly the
      filtered rows, in the listing's order, each with its joined keys
      renamed. */
  method GetAll(rows: seq<ProductRow>, q: ProductParams) returns (data: seq<map<string, JsonValue>>)
    ensures |data| == |OrderedRows(rows, q)|
    ensures forall k :: 0 <= k < |data| ==> data[k] == ItemOf(OrderedRows(rows, q)[k])
  {
    var name := Strip(OrEmpty(q.name));

    var brandIds: seq<nat> := [];
    var brandText := Strip(OrEmpty(q.brandId));
    if brandText != "" {
      brandIds := DigitTokens(Split(brandText, ','));
    }
    var categoryIds: seq<nat> := [];
    var categoryText := Strip(OrEmpty(q.categoryId));
    if categoryText != "" {
      categoryIds := DigitTokens(Split(categoryText, ','));
    }
    ViewIdsAgree(q.brandId);
    ViewIdsAgree(q.categoryId);
    var qs := NarrowRows(rows, name, brandIds, categoryIds, q.minPrice, q.maxPrice, q.minYear, q.maxYear);

    var orderKey := Lower(LStripChar(Strip(OrDefault(q.orderBy, "id")), '+'));
    var direction := Lower(Strip(OrDefault(q.order, "desc")));
    var field := if orderKey in FieldMap then FieldMap[orderKey] else "product_id";
    qs := SortBy(qs, Column(field), direction == "desc");

    data := RenameJoinedKeys(qs);
  }
}
