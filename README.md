# qldt shop back end: a verified model of its request logic

This project models, in Dafny, the request-handling core of the qldt
Django back end for a bicycle shop. It covers five areas:

- **Catalogue listing.** The product listing filters by name, brand ids,
  category ids and inclusive price and year bounds. It orders by one
  allow-listed field and pages in two modes: page/page_size and
  offset/limit. The plain product view does the same filtering and
  ordering without paging. Brands and categories are listed by name.
- **Admin CRUD.** Customers can be listed, searched, created, read,
  updated and deleted. Categories can be listed, created, read, updated
  and deleted.
- **Customer account.** This covers registration with an email
  confirmation token, confirmation, and resending the confirmation.
- **Authentication.** Login issues a signed token. "me" checks a bearer
  token, and logout records the token's fingerprint in a revocation table.
  There is also a password reset, by request and then confirmation.
- **Model rules.** The Customer and Staff models hash the password on
  save, and format a display name.

Each piece of state is modelled as follows:

- **The database.** Two classes stand for it. `CustomerModel.Store` holds
  the customer table, the next id and the revoked-token table.
  `CategoryAdmin.CategoryTable` holds the category table. A table is a
  sequence of rows, in insertion order.
- **ORM instances.** `CustomerModel.Customer`, `CategoryAdmin.Category`
  and `StaffModel.Staff` are classes whose fields the views assign before
  calling `Save`.
- **Views that change the database.** They are methods. Each is proved
  equal to a specification function: for instance
  `Outcome(res, store.customers) == DetailSpec(old(store.customers), ...)`.
  The lemmas about what the view promises are proved of that function.
- **Read-only views and helpers.** These are functions.
- **Step-by-step code in the source.** The filter chains reassign a
  queryset one condition at a time; they are methods that reassign a
  local sequence. The key-renaming loop, the `_sanitize_update` loop and
  the `setattr` loop are methods with `while` loops. Each is proved equal
  to a function of its inputs. `_to_int` has no loop and is the function
  `Paging.ToInt`.

Cryptography is abstract:

- A password hash is the symbolic value `Hashed(salt, raw)`.
  `check_password` is true exactly for the raw text that was hashed.
- A SHA-256 fingerprint is the free term `Sha256(token)`.
- A signed token is produced by `Signing.Dumps`. This is an injective,
  keyless text encoding of the salt, the payload and the signing time.
  `Signing.Loads` gives `Valid`, `Expired` or `Bad`.
- The wall clock is a `now` parameter.
- The random salt of `make_password` is a parameter.
- Sent email is returned as a `Mail` value.

Request bodies are already-parsed maps from keys to optional strings, and
`None` stands for JSON `null`. Query strings are maps from keys to strings.

The views read `is_email_verified` and the `RevokedAuthToken` table, but
the Customer model file (`api/customer/models.py:4-38`) declares neither.
The model treats them as existing state:

- a boolean column `isEmailVerified` on every customer row, defaulting
  to false: the admin create view (`api/customer/views_admin.py:151-158`)
  does not set it, so its new rows are unverified, as registered ones are;
- a map from fingerprint to expiry time in `Store.revoked`.

Some behaviour is modelled exactly as the code has it:

- **Confirmation expiry** (`api/customer/views.py:96-100`). The first
  `except` names `BadSignature`. In Django's signing library
  `SignatureExpired` is a subclass of it. So an expired confirmation token
  is answered "invalid token", and the "token expired" answer is never
  given (`CustomerAccount.ConfirmSpec`).
- **Reported direction.** The listings sort descending only for "desc"
  and ascending for any other value. The response reports "desc" for
  every value other than "asc" and "desc", so an order of "up" sorts
  ascending but is reported as "desc" (`ProductListing.ReportedDirection`).
- **Admin create without an email.** It looks for `email__iexact=None`,
  which Django turns into `email IS NULL`. So the create is refused with
  "email already exists" whenever some stored customer has no email
  (`CustomerAdmin.CreateCheck`).
- **Failed saves.** `first_name` is NOT NULL. An update that sets it to
  JSON `null` makes `save()` fail, and the model answers `ServerError`
  with the table unchanged (`CustomerAdmin.NullFirstNameFails`).
- **Duplicate matches.** `get()` raises `MultipleObjectsReturned` when
  several rows match case-insensitively. That is an unhandled error,
  modelled as `ServerError`.

## Model

| member | source | states |
|---|---|---|
| Base.OrEmpty | repository/product_repository.py:33 | `(x or '')` on an optional string: the value when present, else the empty string |
| Base.OrDefault | repository/product_repository.py:61-62 | `(x or default)`: the value when it is a non-empty string, else the default |
| Base.OrNone | api/customer/views.py:45-51 | `x or None`: a result is present exactly when the input is a non-empty string, and is then that string |
| Base.Get | api/customer/views.py:42 | `body.get(k)`: absent keys read as None, present ones as their value |
| Base.Param | repository/product_repository.py:61 | `params.get(k)` on the query string: present exactly when the key is, with its value |
| Text.Strip | repository/product_repository.py:33 | the stripped string neither starts nor ends with whitespace |
| Text.StripFrames | repository/product_repository.py:33 | the stripped string is a slice of the input with only whitespace cut from either end |
| Text.StripPadded | repository/product_repository.py:33 | stripping ignores any whitespace padding around a string |
| Text.Lower | repository/product_repository.py:61-62 | lower-casing keeps the length and lower-cases each character |
| Text.LowerIdempotent | api/customer/views.py:46 | lower-casing twice is lower-casing once |
| Text.ContainsIff | repository/product_repository.py:35 | substring containment holds exactly when the query occurs at some position |
| Text.Split | repository/product_repository.py:19 | `str.split(sep)` gives at least one part and no part contains the separator |
| Text.JoinSplit | repository/product_repository.py:19 | joining the split parts with the separator gives the input back |
| Text.SplitAtSep | repository/product_repository.py:19 | splitting `a` + separator + `b` gives the pieces of `a` followed by those of `b` |
| Text.SplitJoin | repository/product_repository.py:19 | splitting a join of separator-free parts gives the parts back |
| Text.DigitsRoundTrip | repository/product_repository.py:19 | the decimal numeral of a natural number reads back as that number |
| Text.ParseFormatted | repository/product_repository.py:21-24 | `int()` of an integer's decimal text is that integer |
| Text.ParseInt | repository/product_repository.py:21-24 | `int()` succeeds only on text that is not blank after stripping |
| Text.LStripChar | repository/product_repository.py:61 | `lstrip('+')` drops exactly the leading plus signs |
| Filtering.Where | repository/product_repository.py:35-59 | a queryset filter keeps exactly the rows satisfying the condition, in order |
| Filtering.WhereWhere | repository/product_repository.py:35-59 | two successive filters equal one filter by the conjunction |
| Filtering.WhereEmpty | api/customer/views.py:60-63 | `.exists()` is false exactly when no row satisfies the condition |
| Filtering.WherePairwise | api/customer/views_admin.py:63-84 | a relation that holds between each row and every later row still holds after filtering |
| Sorting.StrLeTotal | repository/product_repository.py:66 | string ordering is total |
| Sorting.StrLeTrans | repository/product_repository.py:66 | string ordering is transitive |
| Sorting.SortBy | repository/product_repository.py:61-66 | `order_by` returns a permutation of the rows, sorted by the key, ascending or descending |
| Sorting.InsertSorted | repository/product_repository.py:66 | inserting a row into a sorted sequence keeps it sorted |
| Sorting.SortByKeeps | repository/product_repository.py:66 | ordering keeps the same rows and count |
| Paging.Clamp | repository/product_repository.py:25-27 | the result is at most `max_val` and, when `min_val <= max_val`, at least `min_val`; an in-bounds value is kept |
| Paging.ToInt | repository/product_repository.py:21-28 | `_to_int` is the default when unparseable, clamped to the bounds |
| Paging.CeilDiv | repository/product_repository.py:74 | `ceil(total / size)` is the least page count covering the rows |
| Paging.Slice | repository/product_repository.py:77 | a queryset slice holds the rows from start to stop that exist, in order |
| Paging.PageMode | repository/product_repository.py:68-79 | page mode: offset = (page-1)*page_size, total_pages = ceil, has_next iff page < total_pages, has_prev iff page > 1 |
| Paging.OffsetMode | repository/product_repository.py:80-91 | offset mode: page_size = limit or total or 1, has_next iff offset+page_size < total, has_prev iff offset > 0 |
| Paging.CeilDivAbove | repository/product_repository.py:78 | a page lies below the page count exactly when it starts before the end of the rows |
| Paging.PageAgreesWithOffset | repository/product_repository.py:75-85 | page p of size s reports the same pagination and slice as offset (p-1)*s with limit s |
| Paging.PageModeRows | repository/product_repository.py:75-77 | a page holds at most page_size rows, the ones from the page's offset |
| Paging.NoLimitReturnsAll | repository/product_repository.py:83-87 | limit 0 returns every row whatever the offset, with page_size = total or 1 |
| Paging.PageOf | repository/product_repository.py:71 | the page is at least 1 |
| Paging.PageSizeOf | repository/product_repository.py:72 | the page size is between 1 and 100 |
| Paging.OffsetOf | repository/product_repository.py:81 | the offset is at least 0 |
| Paging.LimitOf | repository/product_repository.py:82 | the limit is between 0 and 100 |
| Paging.Window | repository/product_repository.py:68-91 | the returned window is a contiguous run of the ordered rows |
| Paging.CutPage | repository/product_repository.py:68-91 | the paging step returns the window and the pagination of the ordered rows |
| Paging.WindowSorted | repository/product_repository.py:66-91 | a window of sorted rows is sorted |
| Paging.PageModeListing | repository/product_repository.py:68-79 | with page parameters: page >= 1, 1 <= page_size <= 100, at most page_size items, from (page-1)*page_size |
| Paging.OffsetModeListing | repository/product_repository.py:80-91 | without them: limit in [0,100]; limit 0 gives every row; otherwise at most limit rows from the offset |
| Paging.PageEqualsOffset | repository/product_repository.py:75-85 | for 1 <= s <= 100, page p with size s selects the same rows as offset (p-1)*s with limit s |
| Paging.WindowsAgree | repository/product_repository.py:75-85 | a page request and an offset request starting at that page's first row, with the same size, select the same rows |
| Paging.PaginationsAgree | repository/product_repository.py:75-85 | the same two requests report the same pagination block |
| Hashing.MakePassword | api/customer/models.py:29-30 | `make_password` gives a hash of exactly the raw text |
| Hashing.HashOnSave | api/customer/models.py:35-37 | save hashes a non-empty password without `$`, and leaves any other as it is |
| Hashing.SaveIdempotent | api/customer/models.py:36 | saving a saved password again changes nothing |
| Hashing.SetThenCheck | api/customer/models.py:29-33 | after `set_password(raw)` and a save, `check_password` accepts raw and nothing else |
| Hashing.SaveRawPassword | api/customer/models.py:35-37 | a raw password saved without `$` is checked by itself; an empty one or one with `$` is accepted for no input |
| Hashing.Fingerprint | api/customer/views_auth.py:27-28 | the fingerprint of a token is shared by no other token |
| Signing.Dumps | api/customer/views_auth.py:19-20 | a signed token is non-empty and made of token characters only |
| Signing.Loads | api/customer/views_auth.py:39-46 | loads is Valid with the payload when the token reads under the same salt and its age is at most max_age, Expired when the age is more, Bad otherwise |
| Signing.UnsignDumps | api/customer/views_auth.py:19-20 | reading a signed token gives back its salt, payload and signing time |
| Signing.LoadsDumps | api/customer/views_auth.py:39-44 | a token loads to its payload until max_age seconds after signing, and is Expired after that |
| Signing.SaltSeparation | api/customer/views_password.py:76-77 | a token signed under one salt is Bad under any other salt |
| Signing.TokenStrip | api/customer/views_auth.py:25 | a signed token has no whitespace, so stripping leaves it intact |
| Catalogue.Matching | repository/brand_repository.py:6-8 | a non-empty query keeps exactly the rows whose name contains it case-insensitively; an empty one keeps all |
| Catalogue.Listed | repository/brand_repository.py:10-14 | the listing is a permutation of the matching rows, sorted by name, descending iff the order is "desc" |
| Catalogue.ListBrands | repository/brand_repository.py:4-16 | one item per listed brand, in listing order, carrying exactly brand_id, brand_name, created_at and updated_at with that brand's own values |
| Catalogue.ListCategories | repository/category_repository.py:4-16 | one item per listed category, in listing order, carrying exactly category_id, category_name, created_at and updated_at with that category's own values |
| Catalogue.ListedRows | repository/category_repository.py:6-8 | a row is listed iff it matches the stripped name query; with no query every row is listed |
| ProductListing.CsvInts | repository/product_repository.py:16-19 | `_csv_ints` is empty for None or ""; otherwise a number is in the result exactly when some comma token strips to all digits spelling it, with at most one id per token |
| ProductListing.DigitTokensMembers | repository/product_repository.py:19 | a number is read from the tokens exactly when one token strips to all digits spelling it |
| ProductListing.DigitTokensAppend | repository/product_repository.py:19 | the numbers of two token lists in a row are the numbers of the first followed by those of the second |
| ProductListing.CsvIntsTokens | repository/product_repository.py:16-19 | reading an empty value and reading the tokens of its split agree |
| ProductListing.CsvIntsOne | repository/product_repository.py:16-19 | a comma-free value gives its number when it strips to all digits, and nothing otherwise |
| ProductListing.CsvIntsConcat | repository/product_repository.py:16-19 | the ids of `a,b` are the ids of `a` followed by the ids of `b`: tokens are read in order and none is dropped or added |
| ProductListing.DigitTokensNumerals | repository/product_repository.py:19 | all-digit tokens are read back to the ids they spell, in order |
| ProductListing.CsvIntsRoundTrip | repository/product_repository.py:16-19 | the comma-joined numerals of any id list parse back to that list |
| ProductListing.CsvIntsBlank | repository/product_repository.py:16-19 | a whitespace-only parameter parses to no ids |
| ProductListing.CsvIntsStrip | repository/product_repository.py:19 | stripping the parameter first changes no parsed id |
| ProductListing.Filtered | repository/product_repository.py:33-59 | a row survives the filters iff it passes every applied condition |
| ProductListing.Narrow | repository/product_repository.py:33-59 | applying one more filter step extends the conjunction of conditions by that step |
| ProductListing.NarrowRows | repository/product_repository.py:33-59 | rebinding `qs` filter by filter leaves exactly the filtered rows |
| ProductListing.NarrowByKeys | repository/product_repository.py:33-42 | after the name, brand and category filters the rows are those passing the first three conditions |
| ProductListing.NarrowByBounds | repository/product_repository.py:44-59 | after the price and year bounds the rows are those passing all seven conditions |
| ProductListing.OrderField | repository/product_repository.py:61-63 | a known key maps to its column; an unknown one falls back to product_id |
| ProductListing.OrderedRows | repository/product_repository.py:61-66 | the ordered rows are a permutation of the filtered rows, sorted by the chosen column, descending iff the direction is "desc" |
| ProductListing.ItemRenamesJoinedKeys | repository/product_repository.py:93-103 | each item has brand_name and category_name in place of the joined keys, with the other values kept |
| ProductListing.PopJoinedKeys | repository/product_repository.py:101-103 | the two pop-and-set steps turn the values row into the renamed item |
| ProductListing.RenameJoinedKeys | repository/product_repository.py:101-103 | the renaming loop turns every row into its renamed item, in order |
| ProductListing.ReportedDirection | repository/product_repository.py:119 | the reported direction is "asc" or "desc", and "asc" exactly when the requested direction is "asc" |
| ProductListing.ListProducts | repository/product_repository.py:30-121 | items are the window of the ordered rows, renamed; total counts the filtered rows before slicing, so there are no more items than total |
| ProductListing.ListedRowsQualify | repository/product_repository.py:33-59 | every listed row is a stored row passing every applied filter |
| ProductListing.ListedRowsSorted | repository/product_repository.py:61-91 | the listed rows are sorted by the chosen column and direction |
| ProductListing.NoConditionKeepsAll | repository/product_repository.py:33-59 | with no filter applied every row is kept, in order |
| ProductView.ViewIds | api/product/views.py:11-21 | a blank id parameter applies no id filter |
| ProductView.ViewIdsAgree | api/product/views.py:11-21 | the view's id parsing agrees with `_csv_ints` |
| ProductView.GetAll | api/product/views.py:4-77 | the result is exactly the filtered rows sorted by the chosen column, each with the joined keys renamed |
| CustomerModel.InstanceOf | api/customer/models.py:4-17 | an instance loaded from a row carries its id and columns |
| CustomerModel.RowOf | api/customer/models.py:4-17 | the row stored for an instance loads back as that instance with its id |
| CustomerModel.DisplayNameParts | api/customer/models.py:26-27 | `__str__` is "first last" for trimmed names, and the stripped first name when the last is None or empty |
| CustomerModel.IndexOfId | api/customer/views_admin.py:174-175 | the index of the row with the primary key, or -1 exactly when no row has it |
| CustomerModel.ById | api/customer/views_admin.py:174-177 | `get(pk=id)` finds a stored row with that id, or fails exactly when none has it |
| CustomerModel.Upsert | api/customer/views_admin.py:212 | saving stores the row, keeps every row of another id, and adds nothing else |
| CustomerModel.Removed | api/customer/views_admin.py:221-222 | deleting keeps exactly the rows of other ids |
| CustomerModel.GetOne | api/customer/views_auth.py:62-65 | `get()` fails with DoesNotExist for no match, finds the single match, or raises for several |
| CustomerModel.PublicFields | api/customer/views_auth.py:93-101 | the customer JSON carries the id, user name, names, email, phone and address, and never the password |
| CustomerModel.SameIdSameRow | api/customer/models.py:5 | with distinct primary keys, two stored rows of one id are the same row |
| CustomerModel.AppendUnique | api/customer/models.py:7 | adding a row whose user name matches none preserves case-insensitive user-name uniqueness |
| CustomerModel.AtMostOneWithId | api/customer/models.py:5 | with distinct primary keys at most one row has a given id |
| CustomerModel.Store.constructor | api/customer/models.py:4-17 | an empty store, next id 1, no revoked tokens |
| CustomerModel.Customer.constructor | api/customer/views.py:65-73 | `Customer(...)` builds an unsaved instance with the given columns and an empty password |
| CustomerModel.Customer.FromRow | api/customer/views_admin.py:175 | an instance fetched from a stored row |
| CustomerModel.Customer.Str | api/customer/models.py:26-27 | `__str__` is the stripped first name when there is no last name, "first last" for trimmed first and last names, and "None" when both are null |
| CustomerModel.Customer.SetPassword | api/customer/models.py:29-30 | `set_password` replaces only the password, with `make_password(raw)` |
| CustomerModel.Customer.SetAttr | api/customer/views_admin.py:208-210 | `setattr` replaces one column and nothing else |
| CustomerModel.Customer.Save | api/customer/models.py:35-38 | save hashes a raw password, inserts under the next id or replaces the row with the instance's id, and fails leaving the table unchanged when first_name is NULL |
| CustomerModel.Customer.SaveOnly | api/customer/views.py:112-113 | `save(update_fields=[c])` writes only that column of the stored row |
| CustomerModel.UpsertValid | api/customer/views_admin.py:212 | saving a row keeps primary keys distinct and below the next id |
| CustomerModel.WhereDistinctIds | api/customer/views_admin.py:63-84 | filtering keeps primary keys distinct |
| CustomerModel.WhereUnique | api/customer/views_admin.py:63-84 | filtering keeps user names unique |
| CustomerModel.RemovedValid | api/customer/views_admin.py:221-222 | deleting a row keeps the table well-formed |
| CustomerModel.SameIdsValid | api/customer/views.py:111-112 | rewriting rows in place with their ids kept keeps the table well-formed |
| StaffModel.StaffName | api/staff/models.py:33-35 | `__str__` is the stripped "first last" when non-empty, else the username |
| StaffModel.StaffNameFallback | api/staff/models.py:33-35 | an all-blank name falls back to the username; a trimmed first name without a last name is shown as is |
| StaffModel.BlankName | api/staff/models.py:33-35 | a first name of white space only, with no last name or an all-blank one, gives an empty display name |
| StaffModel.Staff.constructor | api/staff/models.py:33-46 | a staff instance with the given username, password and names |
| StaffModel.Staff.Str | api/staff/models.py:33-35 | a blank name shows the username, a trimmed first name alone shows itself, trimmed first and last names show "first last"; empty only for an empty username |
| StaffModel.Staff.SetPassword | api/staff/models.py:37-38 | `set_password` replaces only the password, with `make_password(raw)` |
| StaffModel.Staff.Save | api/staff/models.py:43-46 | save applies the hash guard to the password and changes nothing else |
| CustomerAdmin.SanitizeUpdate | api/customer/views_admin.py:40-51 | the output keys are exactly the allow-listed keys present in the body, values copied, never customer_id |
| CustomerAdmin.Filtered | api/customer/views_admin.py:63-84 | a row is kept iff it matches q in one of the five columns and each of the username, email and phone filters |
| CustomerAdmin.NarrowCustomers | api/customer/views_admin.py:63-84 | rebinding `qs` filter by filter leaves exactly the filtered rows |
| CustomerAdmin.OrderField | api/customer/views_admin.py:87-90 | a known key maps to its column; an unknown one falls back to customer_id |
| CustomerAdmin.OrderedRows | api/customer/views_admin.py:87-92 | a permutation of the filtered rows sorted by the chosen column, descending iff "desc" |
| CustomerAdmin.ReportedDirection | api/customer/views_admin.py:127 | the reported order is "asc" or "desc", and "asc" exactly when "asc" was asked |
| CustomerAdmin.Items | api/customer/views_admin.py:112-120 | one public item per selected row, in order |
| CustomerAdmin.ListCustomers | api/customer/views_admin.py:57-128 | the items are the window of the ordered rows; total counts the filtered rows; the reported key and order |
| CustomerAdmin.ListedRowsQualify | api/customer/views_admin.py:63-84 | every listed customer is stored and passes every filter |
| CustomerAdmin.ListedRowsSorted | api/customer/views_admin.py:87-110 | the listed customers are sorted by the chosen column and direction |
| CustomerAdmin.NoConditionKeepsAll | api/customer/views_admin.py:63-84 | with no search and no filter every customer is kept |
| CustomerAdmin.ReadNewCustomer | api/customer/views_admin.py:130-141 | user name, password and first name are stripped; the other columns are taken as given |
| CustomerAdmin.CreateCheck | api/customer/views_admin.py:142-149 | the first failing check in order: empty user name, empty password, duplicate user name (any case), duplicate email (any case, NULL matching NULL) |
| CustomerAdmin.CreateCustomer | api/customer/views_admin.py:130-168 | a failed check is a 400 that stores nothing; otherwise exactly one row is added under the next id and a 201 returned; uniqueness kept |
| CustomerAdmin.StoreNew | api/customer/views_admin.py:151-160 | the new row is appended under the next id and the id advances |
| CustomerAdmin.OthersNamed | api/customer/views_admin.py:197 | empty exactly when no customer other than this one has the user name, whatever the case |
| CustomerAdmin.UpdateCheck | api/customer/views_admin.py:193-204 | each error exactly when its condition holds and no earlier check fails: an empty user name, then a user name taken (ignoring case) by another customer, then an empty password; no error exactly when none of these holds |
| CustomerAdmin.SetColumnsKeeps | api/customer/views_admin.py:208-210 | the `setattr` loop leaves id, user name, password and verification flag alone |
| CustomerAdmin.SetColumnsAt | api/customer/views_admin.py:208-210 | after the loop, each listed column present in the data has the data's value; every other column is unchanged |
| CustomerAdmin.SaveOutcome | api/customer/views_admin.py:212-219 | saving fails with a 500 and no change exactly when first_name is NULL |
| CustomerAdmin.UpdateSpec | api/customer/views_admin.py:189-219 | a failed check is a 400 with the table unchanged; otherwise the edited instance is saved |
| CustomerAdmin.DetailSpec | api/customer/views_admin.py:173-225 | a missing id is a 404 with no change, for every method; GET returns the stored customer's public fields with a 200 and changes nothing; PUT and PATCH have the outcome of the update on the allow-listed body; DELETE removes exactly that customer |
| CustomerAdmin.CopyColumns | api/customer/views_admin.py:208-210 | the loop sets the listed columns present in the data |
| CustomerAdmin.SaveEdited | api/customer/views_admin.py:212-219 | saving the edited instance has the outcome of the save specification |
| CustomerAdmin.UpdateCustomer | api/customer/views_admin.py:189-219 | the update path meets its specification and keeps the store well-formed |
| CustomerAdmin.AdminDetail | api/customer/views_admin.py:173-225 | `customer_admin_detail` meets its specification for every method |
| CustomerAdmin.EditedColumns | api/customer/views_admin.py:208-210 | the edited instance has the data's value for every listed column present, the old one otherwise |
| CustomerAdmin.EditedFixed | api/customer/views_admin.py:193-210 | editing keeps the id and flag, sets the stripped user name, and rehashes only a non-matching password |
| CustomerAdmin.UpdatedRow | api/customer/views_admin.py:189-219 | a passing update stores one row: id and flag kept, user name and allow-listed columns from the data, a password checked by the new raw one and not rehashed when it already matched |
| CustomerAdmin.SavedColumns | api/customer/views_admin.py:212 | the stored row keeps every listed column of the saved instance |
| CustomerAdmin.NullFirstNameFails | api/customer/views_admin.py:208-212 | an update setting first_name to null fails on save with the table unchanged |
| CustomerAdmin.ReplaceUnique | api/customer/views_admin.py:197-199 | replacing a row with a user name no other row has keeps uniqueness |
| CustomerAdmin.UpdateKeepsUnique | api/customer/views_admin.py:193-212 | an update keeps primary keys distinct and user names unique |
| CustomerAdmin.DetailKeepsUnique | api/customer/views_admin.py:173-225 | every detail request keeps user names unique |
| CustomerAdmin.CreateThenGet | api/customer/views_admin.py:151-187 | a customer created by the admin is then returned by GET on its id |
| CategoryAdmin.CategoryTable.constructor | api/category/views_admin.py:21-44 | an empty table, next id 1 |
| CategoryAdmin.IndexOfId | api/category/views_admin.py:50-53 | the index of the row with the id, or -1 exactly when none has it |
| CategoryAdmin.ById | api/category/views_admin.py:50-53 | `get(pk=id)` finds the stored row with that id, or fails exactly when none has it |
| CategoryAdmin.Removed | api/category/views_admin.py:79-81 | deleting keeps exactly the rows of other ids |
| CategoryAdmin.Upsert | api/category/views_admin.py:73 | saving replaces the row with that id and leaves every other row in place |
| CategoryAdmin.AdminListed | api/category/views_admin.py:22-29 | a permutation of the matching categories, sorted by created_at descending |
| CategoryAdmin.AdminList | api/category/views_admin.py:27-30 | one item per listed category, with id, name and timestamps |
| CategoryAdmin.AdminListedRows | api/category/views_admin.py:22-30 | a category is listed iff its name contains the query case-insensitively; all are listed without one; created_at descending |
| CategoryAdmin.NameOf | api/category/views_admin.py:34 | the name read from the body is stripped |
| CategoryAdmin.CreateCheck | api/category/views_admin.py:35-38 | an empty name, then a name equal to a stored one in any case, are refused; nothing else |
| CategoryAdmin.AppendUnique | api/category/views_admin.py:37-39 | adding a name that matches none keeps case-insensitive name uniqueness |
| CategoryAdmin.CreateCategory | api/category/views_admin.py:33-44 | a failed check is a 400 storing nothing; otherwise one category with the stripped name is added under the next id and a 201 returned; uniqueness kept |
| CategoryAdmin.UpdateCheck | api/category/views_admin.py:63-71 | no name refuses nothing; an empty stripped name, then a name another category has in any case, are refused |
| CategoryAdmin.DetailSpec | api/category/views_admin.py:49-83 | a missing id is a 404 for every method; GET returns the stored category with a 200 and changes nothing; a PUT or PATCH whose name check fails is a 400 with that check's message and changes nothing; DELETE removes exactly that category |
| CategoryAdmin.UpdatedCategory | api/category/views_admin.py:61-77 | an update with a non-empty name no other category has, ignoring case, stores the stripped name and `now` in that category's row, returns that row with a 200 and keeps every other row |
| CategoryAdmin.Category.FromRow | api/category/views_admin.py:51 | an instance fetched from a stored row |
| CategoryAdmin.Category.Save | api/category/views_admin.py:73 | save replaces the stored row with the instance's |
| CategoryAdmin.UpdateCategory | api/category/views_admin.py:61-77 | the update path meets its specification |
| CategoryAdmin.UpsertValid | api/category/views_admin.py:73 | saving a category keeps ids distinct and below the next id |
| CategoryAdmin.AdminDetail | api/category/views_admin.py:49-83 | `category_admin_detail` meets its specification for every method |
| CategoryAdmin.UpdateWithoutName | api/category/views_admin.py:61-73 | an update without category_name changes only updated_at |
| CategoryAdmin.RenameToOwnCase | api/category/views_admin.py:64-71 | renaming a category to a case variant of its own name succeeds |
| CategoryAdmin.DetailKeepsUnique | api/category/views_admin.py:49-83 | every detail request keeps category names unique, whatever the case |
| CategoryAdmin.CreateThenGet | api/category/views_admin.py:39-59 | a created category is then returned by GET on its id |
| CustomerAccount.ReadRegistration | api/customer/views.py:42-51 | user name, password and first name stripped; email stripped and lower-cased; last name and phone stripped, empty as None |
| CustomerAccount.RegisterCheck | api/customer/views.py:53-63 | the first failing check in order: user name, password, email required, then user name taken, then email in use, both case-insensitively |
| CustomerAccount.Register | api/customer/views.py:39-88 | a failed check is a 400 storing nothing; otherwise one unverified customer is added and mailed its confirmation token; uniqueness kept |
| CustomerAccount.CreateCustomer | api/customer/views.py:65-75 | the new unverified row, with its password hashed, is appended under the next id |
| CustomerAccount.ReadClaim | api/customer/views.py:92-103 | no token, a token loads refuses (expired included), or the token's id and lower-cased email |
| CustomerAccount.ConfirmFor | api/customer/views.py:102-114 | never a 400; a 404 "customer not found" exactly when no id was claimed or no customer has that id and, ignoring case, that email, and then nothing changes; only an unverified customer with the claimed id (and, as ids are a primary key, the claimed email) can have its flag set, and then the answer is "email verified successfully" |
| CustomerAccount.ConfirmSpec | api/customer/views.py:91-114 | missing token is a 400, a refused token "invalid token", "token expired" is never answered, and no 400 changes anything |
| CustomerAccount.ConfirmEmail | api/customer/views.py:91-114 | `customer_confirm_email` meets its specification and keeps the table well-formed |
| CustomerAccount.ConfirmSpecValid | api/customer/views.py:91-114 | confirming keeps every id in place, so distinct ids below the next id stay so |
| CustomerAccount.MailedTokenClaim | api/customer/views.py:26-35 | a mailed token names its customer for three days and is refused after that |
| CustomerAccount.ConfirmForCustomer | api/customer/views.py:104-114 | an unverified customer is confirmed by its own id and email, whatever the case |
| CustomerAccount.ConfirmMailedToken | api/customer/views.py:91-114 | the mailed token confirms its customer for three days; later it is "invalid token" |
| CustomerAccount.MailedTokenFresh | api/customer/views.py:91-114 | a mailed token at most three days old is answered by the lookup on its id and email |
| CustomerAccount.MailedTokenExpired | api/customer/views.py:91-114 | an older mailed token is answered 400 "invalid token" and leaves the customers as they were |
| CustomerAccount.ConfirmForIdempotent | api/customer/views.py:109-114 | confirming twice changes nothing more, and the second answer is "email already verified" |
| CustomerAccount.ClaimLater | api/customer/views.py:96 | a token refused now is refused later; one accepted later names the same customer now |
| CustomerAccount.ConfirmIdempotent | api/customer/views.py:91-114 | confirming again with the same token changes nothing more |
| CustomerAccount.ResendMatches | api/customer/views.py:126-130 | the user name is looked up when given, else the email, both case-insensitively |
| CustomerAccount.Resend | api/customer/views.py:118-141 | 400 without user name and email; the same 200 for an unknown account; a server error for several; a mail exactly when one unverified account with an email is found |
| CustomerAccount.ResendFoundAnswers | api/customer/views.py:131-135 | one found account without an email is a 400 "Account has no email to send to"; a verified one is "email already verified" |
| CustomerAccount.ResendTo | api/customer/views.py:131-141 | a found account: 400 without email, "email already verified" when verified, else mailed its confirmation token |
| CustomerAccount.ResendUserName | api/customer/views.py:120 | the user name is read stripped |
| CustomerAccount.ResendEmail | api/customer/views.py:121 | the email is read stripped and lower-cased |
| CustomerAccount.ResendUserNameFirst | api/customer/views.py:127-128 | with a user name given, the email plays no part |
| CustomerAccount.ResendThenConfirm | api/customer/views.py:118-141 | the resent token confirms the account within three days |
| CustomerAuth.IssueToken | api/customer/views_auth.py:19-20 | an issued token is non-empty and has no whitespace |
| CustomerAuth.IssuedTokenLoads | api/customer/views_auth.py:19-20 | an issued token loads to its id and issue time for seven days, and is expired after |
| CustomerAuth.AfterFirst | api/customer/views_auth.py:25 | `split(" ", 1)[1]` exists exactly when the separator occurs |
| CustomerAuth.AfterFirstAt | api/customer/views_auth.py:25 | it is the text after the first separator |
| CustomerAuth.BearerPrefix | api/customer/views_auth.py:23-25 | after a "bearer " prefix, the text after the first space starts at position 7 |
| CustomerAuth.BearerToken | api/customer/views_auth.py:21-25 | a token exactly when the lower-cased header starts with "bearer ", and it is the rest stripped |
| CustomerAuth.BearerOf | api/customer/views_auth.py:21-25 | "Bearer" in any case, a space and a trimmed token give that token |
| CustomerAuth.BearerOfIssued | api/customer/views_auth.py:19-25 | an issued token sent as a bearer header is read back unchanged |
| CustomerAuth.CustomerFromToken | api/customer/views_auth.py:30-46 | missing token, then revoked fingerprint before decoding, then expired, then invalid; an accepted token names a stored customer, and an unrevoked token that loads with the id of a stored customer is accepted as that customer |
| CustomerAuth.Login | api/customer/views_auth.py:50-86 | 400 for a missing field; the same 401 for an unknown user and a wrong password; 403 only after the password matched; a 200 with a token for that customer, seven days and its public fields exactly when both fields are given, one customer's user name matches ignoring case, the password checks and the email is verified |
| CustomerAuth.Me | api/customer/views_auth.py:88-101 | the token check's refusal as a 401, or the customer's public fields |
| CustomerAuth.GetOrCreate | api/customer/views_auth.py:128-131 | an existing entry is kept as it is; a new one gets the given expiry |
| CustomerAuth.Logout | api/customer/views_auth.py:105-132 | 401 without token; expired or bad tokens 200 with nothing stored; a valid one revoked until iat + 7 days (or now + 7 days); the customer table is untouched |
| CustomerAuth.RevokedUntilExpiry | api/customer/views_auth.py:35-37 | a recorded fingerprint is refused as revoked until its expiry time |
| CustomerAuth.LogoutLifecycle | api/customer/views_auth.py:105-132 | after logout, the token is refused as revoked before iat + 7 days and as expired after; at exactly iat + 7 days it is accepted again |
| CustomerAuth.LoginThenMe | api/customer/views_auth.py:50-101 | the token from a successful login makes "me" return that customer for seven days unless revoked |
| CustomerAuth.IssuedAuthenticates | api/customer/views_auth.py:30-46 | an issued, unrevoked, unexpired token of a stored customer authenticates it |
| CustomerPassword.ResetRequest | api/customer/views_password.py:38-56 | 400 without user name and email; the user name first; the same 200 whether or not the account exists; a mail only to a found account with an email |
| CustomerPassword.RequestUserNameFirst | api/customer/views_password.py:44-47 | with a user name given, the email plays no part |
| CustomerPassword.ReadResetForm | api/customer/views_password.py:63-65 | both passwords are stripped |
| CustomerPassword.BodyTokenFirst | api/customer/views_password.py:63 | a token in the body wins over the query's |
| CustomerPassword.FormCheck | api/customer/views_password.py:67-74 | missing token, short new password, missing confirmation, mismatch, in that order; none exactly when all pass |
| CustomerPassword.ResetFor | api/customer/views_password.py:78-92 | an unknown id or a disagreeing email is "invalid token" with no change; otherwise only that customer's password becomes a hash of the new one |
| CustomerPassword.ResetSpec | api/customer/views_password.py:60-92 | form checks before decoding; expired is "token expired", bad is "invalid token"; nothing changes unless it succeeds |
| CustomerPassword.ResetConfirm | api/customer/views_password.py:60-92 | `password_reset_confirm` meets its specification and keeps the table well-formed |
| CustomerPassword.ResetWith | api/customer/views_password.py:78-92 | the lookup and save after a valid token meet their specification and keep the table well-formed |
| CustomerPassword.ResetForValid | api/customer/views_password.py:78-92 | a reset keeps every id in place, so the table stays well-formed |
| CustomerPassword.ResetSpecValid | api/customer/views_password.py:60-92 | every outcome of the reset confirmation keeps the table well-formed |
| CustomerPassword.RequestMailsRow | api/customer/views_password.py:50-52 | a reset mail goes to a stored customer with an email and carries its token |
| CustomerPassword.ResetForRow | api/customer/views_password.py:78-90 | a valid token of a stored customer resets its password, then checked by exactly the new one |
| CustomerPassword.ResetTokenLoads | api/customer/views_password.py:22-26 | a reset token names its customer for an hour and is expired after |
| CustomerPassword.ResetWithValid | api/customer/views_password.py:60-92 | a token loading to a customer's id and email resets that customer's password |
| CustomerPassword.ResetWithToken | api/customer/views_password.py:60-92 | a customer's reset token works for an hour, and is "token expired" after that |
| CustomerPassword.ResetWithExpired | api/customer/views_password.py:84-85 | an expired token with a complete form is "token expired", with no change |
| CustomerPassword.RequestThenReset | api/customer/views_password.py:38-92 | the token a reset request mails lets its customer set a new password for an hour |

## Left out

- Unicode: case-insensitive comparison and lower-casing fold ASCII letters only. Whitespace is the ASCII whitespace of `str.strip`. `str.isdigit` accepts ASCII digits only.
- Text.ParseInt: `int()` is modelled for surrounding whitespace, an optional sign and ASCII digits. Digit-group underscores and non-ASCII digits are not modelled.
- Price and year bounds: these are integers. Fractional prices and malformed bounds are not modelled; the ORM raises on those.
- Ordering: the database's order among rows with equal sort keys is left as unspecified. NULL sorts first. Text keys are compared by character code, case-sensitively, which is one fixed collation; the database's collation decides the real order, and a case-insensitive one (MySQL's default, for instance) orders names differently: ascending, the model puts "Banana" before "apple", such a collation the reverse. This holds for the brand, category, product and customer listings.
- Cryptography: the HMAC of Django's signer and the password hasher are symbolic. Forgery resistance is assumed, not modelled. A stored plain-text password that happens to contain `$` is treated as already hashed, as the source does.
- Signing times: the signer's own timestamp is the issue time; the token's `iat` and the timestamp are both `now`.
- Email and URLs: `send_mail`, `reverse` and `build_absolute_uri` are out of scope. A sent email is a `Mail` value holding the address and the token.
- JSON: body parsing and values that are not strings are not modelled. A malformed body is an empty map.
- Column lengths: `max_length` of the CharFields is not enforced, as `save()` does not enforce it.
- Concurrency: transactions and the race between a uniqueness check and the insert are out of scope; requests run one at a time.
- Framework plumbing: the 405 answers of the method decorators, CSRF, `_staff_required` and routing are out of scope.
- Staff persistence: the staff table is not modelled, only the model methods on an instance.
- User-name uniqueness: the database's unique constraint is not modelled as a save failure. Uniqueness is proved as an invariant the views preserve.
- Revocation boundary: this is modelled as written, not left out. A revocation entry applies only while `expires_at > now`, and the signer refuses a token only when its age is more than `max_age`. So at exactly iat + 7 days a logged-out token is accepted again (`CustomerAuth.LogoutLifecycle`). With whole-second issue times this is a single instant.
- Category create: the two `now()` calls for created_at and updated_at are one `now` parameter.
- Unhandled errors: `MultipleObjectsReturned`, a NOT NULL violation and similar errors are one `ServerError` response, not a traceback.
