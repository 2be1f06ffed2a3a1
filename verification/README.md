# Admin list API — item service model

A Dafny model of the in-memory item service of the admin list API
(`server/index.js`). The service keeps one ordered array of items and a
counter for the next id, and it answers five kinds of request:

- list with validation, filter, sort and pagination (`GET /items`);
- fetch one item (`GET /items/:id`);
- create (`POST /items`);
- partial update (`PATCH /items/:id`);
- delete (`DELETE /items/:id`).

Every handler is a pure function here. The store is the value
`Store(items, nextId)`, and a request maps one store to the next store and
a response (`ItemStore.Handle`).

Modules, leaf to root:

| file | module | contents |
|---|---|---|
| wrappers.dfy | Wrappers | `Option`, `Result` |
| text.dfy | Text | `trim`, ASCII `toLowerCase`, `includes`, string `<`, `includesInsensitive` |
| items.dfy | Items | the `Status`/`Category` enumerations, `Item`, raw request values, `normalizeString`, the error taxonomy with messages and HTTP statuses |
| sorting.dfy | Sorting | sort fields, orders, the list comparator, a stable insertion sort |
| query.dfy | ListQuery | page/limit clamping and the ordered parameter checks of `GET /items` |
| pipeline.dfy | Pipeline | filtering, pagination metadata, the whole list handler |
| store.dfy | ItemStore | the store invariant, get/create/update/delete, request dispatch |

Modelling choices:

- A request field is `Raw`: `Missing` (undefined), `Str(s)`, or
  `NonString` (any other JSON value). `normalizeString` turns a
  non-string into "". `PATCH` tests `!== undefined`, so it treats a
  `NonString` field as supplied and blank.
- `page`, `limit` and the path id arrive already converted by
  `Number(...)`, as `Option<int>`. For `page` and `limit`, `None` stands
  for NaN only: `Infinity` and `-Infinity` are truthy, so the clamp sends
  them to the upper or lower end, and the model writes them as `Some` of a
  value past that end. For the path id, `None` stands for any value that
  is not finite (NaN or either infinity), which `Number.isFinite` refuses.
- `createdAt` is an integer number of milliseconds. Create takes the
  current instant as a parameter `now`. The source sorts by
  `new Date(createdAt).getTime()`, which is that number.
- Status and category are datatypes. Validation maps their exact names
  onto them, so a stored item can never hold a value outside the
  enumerations.
- A failed request returns no new store, so it leaves the store as it
  was. Listing and fetching never return a changed store. `Handle`
  states both facts.

## Model

| member | source | states |
|---|---|---|
| Text.Trim | server/index.js:11 | trim leaves no white space at either end; it cuts only white space margins off the input; the result is empty exactly when the input is all white space; already-trimmed input is unchanged |
| Text.Lower | server/index.js:13 | lower-casing keeps the length and maps every character through the ASCII case mapping |
| Text.IncludesIffOccurs | server/index.js:13 | `includes` succeeds exactly when the needle occurs at some offset of the haystack |
| Text.IncludesInsensitive | server/index.js:13 | the empty needle is always found, a needle equal to the haystack up to case is found, and a found needle is no longer than the haystack |
| Text.IncludesInsensitiveIff | server/index.js:13 | `includesInsensitive` succeeds exactly when some window of the haystack equals the needle up to case |
| Text.StrLessIrreflexive | server/index.js:126-127 | no string is less than itself under JavaScript's string `<` |
| Text.StrLessTransitive | server/index.js:126-127 | string `<` is transitive |
| Text.StrLessTotal | server/index.js:126-127 | two different strings are always ordered one way or the other |
| Items.ParseStatus | server/index.js:8 | a text names a status exactly when it is one of "active", "paused", "archived", and the status's name is that text |
| Items.ParseCategory | server/index.js:9 | a text names a category exactly when it is one of "general", "work", "personal", and the category's name is that text |
| Items.StatusRoundTrip | server/index.js:8 | every status is read back from its own name |
| Items.CategoryRoundTrip | server/index.js:9 | every category is read back from its own name |
| Items.Normalize | server/index.js:11 | a string field is trimmed; anything else becomes ""; the result is always trimmed |
| Items.Message | server/index.js:87-214 | each of the eight errors is sent with its own text, and that text with no other error: "Invalid id", "Item not found", "name is required", "name cannot be empty", "Invalid status", "Invalid category", "Invalid sort field", "Invalid order" |
| Items.HttpStatus | server/index.js:146-151 | "Item not found" is answered with 404 and every other error with 400 |
| Items.MessageInjective | server/index.js:148-151 | different errors carry different messages |
| Sorting.PrecedesMeaning | server/index.js:114-129 | under `asc` an item may precede another exactly when its key is not greater; under `desc`, exactly when it is not smaller |
| Sorting.Compare | server/index.js:114-129 | the comparator answers -1, 0 or 1; 0 exactly when the two sort keys are equal; a negative answer exactly when the first key is smaller under `asc`, or larger under `desc` |
| Sorting.CompareAntisymmetric | server/index.js:126-128 | swapping the two items negates the comparator's answer |
| Sorting.PrecedesTotal | server/index.js:114-129 | the comparator orders every pair one way or the other |
| Sorting.PrecedesTransitive | server/index.js:114-129 | the comparator's "goes no later than" relation is transitive |
| Sorting.Insert | server/index.js:114-129 | inserting into a sorted list keeps it sorted and adds exactly the one item |
| Sorting.SortItems | server/index.js:114-129 | the sorted list is a permutation of the input and respects the comparator at every pair of positions |
| Sorting.SortedByCreatedAt | server/index.js:118-120 | sorted by `createdAt`, ascending output never goes back in time and descending output never goes forward |
| Sorting.SortedByText | server/index.js:121-124 | sorted by name or status, the lower-cased keys are non-decreasing for `asc` and non-increasing for `desc` |
| Sorting.KeyOf | server/index.js:115-124 | the key is the creation time exactly when sorting by `createdAt`; otherwise it is the lower-cased name (sorting by `name`) or the lower-cased status name (sorting by `status`) |
| ListQuery.Clamp | server/index.js:85-86 | the result lies in the range; NaN and 0 give the fallback; an in-range value is kept; values past either end give that end |
| ListQuery.PageOf | server/index.js:85 | the page is in [1, 9999]; it is 1 when absent, zero, not numeric or negative; a requested page in range is kept; a larger one becomes 9999 |
| ListQuery.LimitOf | server/index.js:86 | the limit is in [1, 100]; it is 10 when absent, zero or not numeric, and 1 when negative; a requested limit in range is kept; a larger one becomes 100 |
| ListQuery.ParseSortField | server/index.js:95-98 | a sort text is accepted exactly when it is "createdAt", "name" or "status", matched case-sensitively |
| ListQuery.ParseOrder | server/index.js:99-101 | a lower-cased order text is accepted exactly when it is "asc" or "desc" |
| ListQuery.NormaliseQuery | server/index.js:77-86 | `q`, `status` and `category` are the trimmed inputs, empty when absent or not strings; a blank sort becomes "createdAt", otherwise the trimmed sort; a blank order becomes "desc", otherwise the lower-cased trimmed order; page and limit are the clamped inputs |
| ListQuery.Check | server/index.js:87-101 | the first failing check decides the error, in the order status, category, sort field, order, each error arising exactly when its check fails and all earlier ones pass; an empty status or category is no filter; on success the query holds the text, the named filters, the sort field, the order, page and limit |
| ListQuery.Validate | server/index.js:77-101 | on the normalised parameters, the first failing check decides the error, in the order status, category, sort field, order, each error arising exactly when its check fails and all earlier ones pass; a valid query searches for the trimmed `q`, filters by the named status and category (no filter when blank), sorts by the trimmed sort (createdAt when blank) in the lower-cased order (desc when blank), and carries the clamped page and limit |
| ListQuery.UnknownSortRefused | server/index.js:95-98 | `?sort=invalid` gives "Invalid sort field" |
| ListQuery.ValidateDefaults | server/index.js:82-86 | with no parameters the query is no filter, createdAt, desc, page 1, limit 10 |
| ListQuery.OrderIgnoresCase | server/index.js:82-101 | any casing of "asc" or "desc", once the earlier checks pass, selects that direction |
| ListQuery.UpperCaseAscAccepted | server/index.js:82-101 | `?order=ASC` gives the default query in ascending order |
| Pipeline.Filter | server/index.js:105-111 | a filter keeps each element as often as it occurs when the predicate holds, and never otherwise |
| Pipeline.FilterCount | server/index.js:140 | a filter keeps as many elements as satisfy the predicate |
| Pipeline.FilterAppend | server/index.js:105-111 | filtering a concatenation is the concatenation of the filtered parts, so a filter keeps the kept elements in their original order |
| Pipeline.TextMatches | server/index.js:108-111 | the free-text test accepts every item for an empty query and any item whose name or notes equal the query up to case; an accepted query is no longer than the name or the notes (the full substring characterisation is `Pipeline.TextMatchesIff`) |
| Pipeline.TextMatchesIff | server/index.js:108-111 | an item passes the free-text test exactly when the query occurs, up to case, at some offset of its name or at some offset of its notes |
| Pipeline.Matches | server/index.js:104-111 | an item matches exactly when it has the requested status (if one is given), the requested category (if one is given) and passes the free-text test (if the text is non-empty); with no filter every item matches |
| Pipeline.Select | server/index.js:103-112 | the three successive filters keep each stored item exactly when it matches the status filter, the category filter and the free-text filter |
| Pipeline.SelectSoundComplete | server/index.js:103-112 | an item is selected exactly when it is stored and matches |
| Pipeline.SelectCount | server/index.js:140 | the number selected is the number of stored items that match |
| Pipeline.CeilDiv | server/index.js:141 | the result is the least number of `b`-sized groups that hold `a` |
| Pipeline.TotalPages | server/index.js:141 | `totalPages` is at least 1; for a non-empty result it is the ceiling of total over limit; for an empty one it is 1 |
| Pipeline.Window | server/index.js:131-133 | the slice holds the results from `start` on: `limit` of them when that many remain, all that remain otherwise, none when `start` is at or past the end |
| Pipeline.Paginate | server/index.js:131-143 | the page echoes `page` and `limit`; `total` counts every result; `totalPages` is the ceiling rule; the data are the results from `(page - 1) * limit` on, in order: exactly `limit` of them when that many remain, all that remain on a partial last page, and none once the start is past the end |
| Pipeline.PageNonEmptyIff | server/index.js:131-141 | a page has items exactly when there are results and the page number is at most `totalPages` |
| Pipeline.PagesCover | server/index.js:131-133 | result `i` is item `i % limit` of page `i / limit + 1`, a page within `totalPages` |
| Pipeline.SecondPageOfNine | server/index.js:131-141 | nine results, page 2 of limit 5: the last four results, total 9, 2 pages |
| Pipeline.PageOfSorted | server/index.js:131-133 | a page of sorted results is sorted and holds only results |
| Pipeline.Ranked | server/index.js:103-129 | the ranked results are exactly the selected items, with multiplicity, in comparator order |
| Pipeline.List | server/index.js:77-144 | listing fails exactly when validation does, with its error; otherwise the answer is page `page` of the ranked selection: at most `limit` items, all stored and matching, in comparator order; it is empty exactly when nothing matches or the page is past `totalPages`; `total` is the number of stored items that match and `totalPages` follows the ceiling rule from it |
| ItemStore.FindIndex | server/index.js:209 | the index found holds the id and no earlier index does; no index is found only when no item has the id |
| ItemStore.FindIndexUnique | server/index.js:150 | in a valid store, looking up a stored id finds its own position |
| ItemStore.Get | server/index.js:146-154 | a non-finite id gives "Invalid id"; a finite id with no item gives "Item not found"; the answer is an item exactly when the id is finite and some stored item has it, and then it is a stored item with that id |
| ItemStore.CreateStatusText | server/index.js:158 | the create status text is the trimmed `status`, or "active" when that is blank; it is never empty |
| ItemStore.CreateCategoryText | server/index.js:159 | the create category text is the trimmed `category`, or "general" when that is blank; it is never empty |
| ItemStore.GetStored | server/index.js:150-153 | in a valid store, fetching a stored item's id returns that item |
| ItemStore.Create | server/index.js:156-177 | a blank name fails first, then an unknown status (default active), then an unknown category (default general); on success the item has the old counter as id, the trimmed name and notes, the named status and category, and the given instant; it goes in front of the unchanged old items; the counter grows by one |
| ItemStore.PrependPreservesValid | server/index.js:166-175 | a well-formed item with id `nextId` put in front of a valid store, with the counter advanced, gives a valid store |
| ItemStore.CreatePreservesValid | server/index.js:166-175 | a create keeps the store valid and the new id differs from every stored id |
| ItemStore.CreateThenGet | server/index.js:150-175 | fetching a just-created item by its id returns the created record |
| ItemStore.CreateTrimsAndDefaults | server/index.js:157-173 | `{name: "  Task X  "}` creates "Task X", active, general, with empty notes and the next id |
| ItemStore.Supplied | server/index.js:186-189 | a field is supplied exactly when it is not undefined, and then holds its normalised text |
| ItemStore.CheckPatch | server/index.js:191-195 | a supplied blank name fails first, then a supplied unknown status, then a supplied unknown category; otherwise the patch is accepted |
| ItemStore.ApplyPatch | server/index.js:197-200 | supplied fields take their normalised values; every field not supplied, and always id and createdAt, stays as it was |
| ItemStore.Update | server/index.js:179-203 | a non-finite id gives "Invalid id", then an id with no item "Item not found", then the patch's own error; on success only the matched item changes, in place, and the counter is untouched |
| ItemStore.BlankNamePatchRefused | server/index.js:191 | patching a stored item with an empty name gives "name cannot be empty" |
| ItemStore.UpdatePreservesValid | server/index.js:197-200 | an update keeps the store valid |
| ItemStore.FindIndexSameIds | server/index.js:183 | the lookup depends only on the ids of the items |
| ItemStore.UpdateIdempotent | server/index.js:179-203 | sending the same patch twice leaves the store as the first send left it and returns the same item |
| ItemStore.Delete | server/index.js:205-214 | a non-finite id gives "Invalid id"; an id with no item gives "Item not found"; otherwise exactly the first item with the id is removed and returned, the rest keep their order and the counter is untouched |
| ItemStore.DeletePreservesValid | server/index.js:209-212 | a delete keeps the store valid |
| ItemStore.DeleteThenGet | server/index.js:146-151 | after a delete, fetching the deleted id gives "Item not found" |
| ItemStore.DeleteThenCreateFreshId | server/index.js:167 | an item created after a delete never receives the deleted item's id |
| ItemStore.Handle | server/index.js:77-214 | each request kind is answered from its operation: success gives 200 (201 for a create) with the item or the page and the operation's new store; failure gives the error's status (400 or 404) and message and leaves the store as it was; the code is always 200, 201, 400 or 404; listing and fetching never change the store; the counter never goes down |
| ItemStore.UnknownSortAnswered | server/index.js:95-98 | `GET /items?sort=invalid` is answered 400 with `{error: "Invalid sort field"}` and the store is untouched |
| ItemStore.BlankNamePatchAnswered | server/index.js:191 | `PATCH` with `{name: ""}` on a stored id is answered 400 with `{error: "name cannot be empty"}` and the store is untouched |
| ItemStore.HandlePreservesValid | server/index.js:70-71 | every request keeps a valid store valid and never lowers the counter |
| ItemStore.Run | server/index.js:70-71 | handling no requests leaves the store as it was; handling one request gives the store `Handle` leaves; the counter never goes down. With `ItemStore.RunAppend` this fixes the store after every sequence of requests |
| ItemStore.RunAppend | server/index.js:70-71 | handling two batches of requests one after the other is the same as handling them as one batch |
| ItemStore.RunPreservesValid | server/index.js:70-71 | the invariant and the counter's growth hold across any sequence of requests |

## Left out

- Express wiring, CORS, JSON body parsing, `app.listen`, the `PORT`
  setting, console logging and the `/health` route are transport only.
- `index.js` at the repository root is a placeholder app with a fixed empty list answer and no logic.
- `seedItems` and the initial store are not modelled, because they depend on `Date.now()`. `ItemStore.RunPreservesValid` holds from any valid starting store.
- `Number(...)` and `Number.isFinite` conversion of the id, `page` and `limit` is not modelled. The model takes their results as `Option<int>`. Fractional numbers are left out: a fractional page would be echoed in `meta.page` and truncated by `slice`, and a fractional id would never match.
- `new Date().toISOString()` is not modelled. `createdAt` is an integer instant supplied by the caller.
- `Text.Lower`: only ASCII letters are lower-cased, not the full Unicode case mapping of `toLowerCase`.
- `Text.StrLess`: compares whole characters, not UTF-16 code units. The two orders differ only for characters outside the Basic Multilingual Plane.
- `Text.IsSpace` follows the white space and line terminator sets of ECMA-262. Unicode database updates to the `Zs` category are not tracked.
- `Pipeline.CeilDiv` uses integer ceiling division in place of the floating-point `Math.ceil(total / limit)`. The two agree for the small counts involved.
- `Sorting.SortItems` is a stable insertion sort, as `Array.prototype.sort` is stable since ES2019. The model proves the output sorted and a permutation of the input. It does not prove that equal keys keep their input order.
- Item `notes` is always a string in the model, as every path that stores an item gives it one. So the `?? ''` fallback of the text search never applies.
- Concurrency is not modelled. The single-threaded event loop runs one handler at a time, and `ItemStore.Run` handles requests in sequence.
