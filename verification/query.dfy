/** Validation of the `GET /items` query string into a list query. */
module ListQuery {
  import opened Wrappers
  import opened Text
  import opened Items
  import opened Sorting

  /** The query parameters as received. `page` and `limit` are already
      converted with `Number(...)`: `None` stands for NaN (absent or not
      numeric). */
  datatype RawQuery = RawQuery(
    q: Raw,
    status: Raw,
    category: Raw,
    sort: Raw,
    order: Raw,
    page: Option<int>,
    limit: Option<int>)

  /** A validated list query. */
  datatype Query = Query(
    text: string,
    status: Option<Status>,
    category: Option<Category>,
    sort: SortField,
    order: Order,
    page: int,
    limit: int)

  /** The accepted `sort` values (`allowedSort`). */
  const SortFields: seq<string> := ["createdAt", "name", "status"]

  /** The accepted `order` values, after lower-casing. */
  const Orders: seq<string> := ["asc", "desc"]

  function SortFieldName(f: SortField): (name: string)
    ensures name in SortFields
  {
    match f
    case ByCreatedAt => "createdAt"
    case ByName => "name"
    case ByStatus => "status"
  }

  /** Reads a sort field from its exact, case-sensitive name. */
  function ParseSortField(text: string): (r: Option<SortField>)
    ensures r.Some? <==> text in SortFields
    ensures r.Some? ==> SortFieldName(r.value) == text
  {
    if text == "createdAt" then Some(ByCreatedAt)
    else if text == "name" then Some(ByName)
    else if text == "status" then Some(ByStatus)
    else None
  }

  function OrderName(o: Order): (name: string)
    ensures name in Orders
  {
    match o
    case Asc => "asc"
    case Desc => "desc"
  }

  /** Reads an order from its (already lower-cased) name. */
  function ParseOrder(text: string): (r: Option<Order>)
    ensures r.Some? <==> text in Orders
    ensures r.Some? ==> OrderName(r.value) == text
  {
    if text == "asc" then Some(Asc)
    else if text == "desc" then Some(Desc)
    else None
  }

  /** `Math.max(lo, Math.min(hi, n || fallback))`: NaN and 0 are falsy and
      give the fallback; anything else is clamped into [lo, hi]. */
  function Clamp(n: Option<int>, lo: int, hi: int, fallback: int): (r: int)
    requires lo <= fallback <= hi
    ensures lo <= r <= hi
    ensures (n.None? || n.value == 0) ==> r == fallback
    ensures n.Some? && n.value != 0 && lo <= n.value <= hi ==> r == n.value
    ensures n.Some? && n.value != 0 && n.value > hi ==> r == hi
    ensures n.Some? && n.value != 0 && n.value < lo ==> r == lo
  {
    var v := if n.None? || n.value == 0 then fallback else n.value;
    if v < lo then lo else if v > hi then hi else v
  }

  /** The page number: in [1, 9999], 1 when absent, zero or not numeric,
      the requested page when it is in range, the nearer end otherwise. */
  function PageOf(n: Option<int>): (r: int)
    ensures 1 <= r <= 9999
    ensures (n.None? || n.value == 0) ==> r == 1
    ensures n.Some? && 1 <= n.value <= 9999 ==> r == n.value
    ensures n.Some? && n.value > 9999 ==> r == 9999
    ensures n.Some? && n.value < 0 ==> r == 1
  {
    Clamp(n, 1, 9999, 1)
  }

  /** The page size: in [1, 100], 10 when absent, zero or not numeric,
      the requested size when it is in range, the nearer end otherwise. */
  function LimitOf(n: Option<int>): (r: int)
    ensures 1 <= r <= 100
    ensures (n.None? || n.value == 0) ==> r == 10
    ensures n.Some? && 1 <= n.value <= 100 ==> r == n.value
    ensures n.Some? && n.value > 100 ==> r == 100
    ensures n.Some? && n.value < 0 ==> r == 1
  {
    Clamp(n, 1, 100, 10)
  }

  /** The parameters once normalised: trimmed texts, the sort field and
      order defaulted (the order also lower-cased), page and limit clamped. */
  datatype Params = Params(
    q: string,
    status: string,
    category: string,
    sort: string,
    order: string,
    page: int,
    limit: int)

  /** The first lines of the list handler: `q`, `status` and `category` are
      the trimmed inputs (empty when absent or not strings); a blank sort or
      order falls back to "createdAt" or "desc"; the order is lower-cased;
      page and limit are brought into their ranges. */
  function NormaliseQuery(raw: RawQuery): (p: Params)
    ensures Trimmed(p.q) && Trimmed(p.status) && Trimmed(p.category)
    ensures p.q == Normalize(raw.q) && p.status == Normalize(raw.status)
            && p.category == Normalize(raw.category)
    ensures Normalize(raw.sort) == "" ==> p.sort == "createdAt"
    ensures Normalize(raw.sort) != "" ==> p.sort == Normalize(raw.sort)
    ensures Normalize(raw.order) == "" ==> p.order == "desc"
    ensures Normalize(raw.order) != "" ==> p.order == Lower(Normalize(raw.order))
    ensures p.page == PageOf(raw.page) && p.limit == LimitOf(raw.limit)
  {
    Params(Normalize(raw.q), Normalize(raw.status), Normalize(raw.category),
           OrDefault(Normalize(raw.sort), "createdAt"),
           Lower(OrDefault(Normalize(raw.order), "desc")),
           PageOf(raw.page), LimitOf(raw.limit))
  }

  /** The four checks, each independent of the others. An empty status or
      category means "no filter" and is never rejected. */
  predicate BadStatus(p: Params) { p.status != "" && p.status !in Statuses }
  predicate BadCategory(p: Params) { p.category != "" && p.category !in Categories }
  predicate BadSort(p: Params) { p.sort !in SortFields }
  predicate BadOrder(p: Params) { p.order !in Orders }

  /** The list handler's parameter checks. The first failing check decides
      the error, in the order status, category, sort field, order; when none
      fails the query carries the parameters, an empty status or category
      standing for no filter. */
  function Check(p: Params): (r: Result<Query, Error>)
    ensures r == Err(InvalidStatus) <==> BadStatus(p)
    ensures r == Err(InvalidCategory) <==> !BadStatus(p) && BadCategory(p)
    ensures r == Err(InvalidSortField) <==> !BadStatus(p) && !BadCategory(p) && BadSort(p)
    ensures r == Err(InvalidOrder) <==> !BadStatus(p) && !BadCategory(p) && !BadSort(p) && BadOrder(p)
    ensures r.Ok? <==> !BadStatus(p) && !BadCategory(p) && !BadSort(p) && !BadOrder(p)
    ensures r.Ok? ==>
      && r.value.text == p.q
      && (r.value.status.None? <==> p.status == "")
      && (r.value.status.Some? ==> StatusName(r.value.status.value) == p.status)
      && (r.value.category.None? <==> p.category == "")
      && (r.value.category.Some? ==> CategoryName(r.value.category.value) == p.category)
      && SortFieldName(r.value.sort) == p.sort
      && OrderName(r.value.order) == p.order
      && r.value.page == p.page && r.value.limit == p.limit
  {
    var status := ParseStatus(p.status);
    var category := ParseCategory(p.category);
    if p.status != "" && status.None? then Err(InvalidStatus)
    else if p.category != "" && category.None? then Err(InvalidCategory)
    else
      match ParseSortField(p.sort)
      case None => Err(InvalidSortField)
      case Some(sort) =>
        match ParseOrder(p.order)
        case None => Err(InvalidOrder)
        case Some(order) =>
          Ok(Query(p.q,
                   if p.status == "" then None else status,
                   if p.category == "" then None else category,
                   sort, order, p.page, p.limit))
  }

  /** Validation of the raw query: normalise, then check. A valid query
      searches for the trimmed `q`, sorts by the trimmed `sort` (createdAt
      when blank) in the lower-cased `order` (desc when blank), and asks for
      the clamped page and limit. */
  function Validate(raw: RawQuery): (r: Result<Query, Error>)
    ensures r.Err? <==> var p := NormaliseQuery(raw);
              BadStatus(p) || BadCategory(p) || BadSort(p) || BadOrder(p)
    ensures r == Err(InvalidStatus) <==> BadStatus(NormaliseQuery(raw))
    ensures r == Err(InvalidCategory)
            <==> !BadStatus(NormaliseQuery(raw)) && BadCategory(NormaliseQuery(raw))
    ensures r == Err(InvalidSortField)
            <==> !BadStatus(NormaliseQuery(raw)) && !BadCategory(NormaliseQuery(raw))
                 && BadSort(NormaliseQuery(raw))
    ensures r == Err(InvalidOrder)
            <==> !BadStatus(NormaliseQuery(raw)) && !BadCategory(NormaliseQuery(raw))
                 && !BadSort(NormaliseQuery(raw)) && BadOrder(NormaliseQuery(raw))
    ensures r.Ok? ==>
      && r.value.text == Normalize(raw.q)
      && (r.value.status.None? <==> Normalize(raw.status) == "")
      && (r.value.status.Some? ==> StatusName(r.value.status.value) == Normalize(raw.status))
      && (r.value.category.None? <==> Normalize(raw.category) == "")
      && (r.value.category.Some? ==> CategoryName(r.value.category.value) == Normalize(raw.category))
      && SortFieldName(r.value.sort) == OrDefault(Normalize(raw.sort), "createdAt")
      && OrderName(r.value.order) == Lower(OrDefault(Normalize(raw.order), "desc"))
      && r.value.page == PageOf(raw.page) && 1 <= r.value.page <= 9999
      && r.value.limit == LimitOf(raw.limit) && 1 <= r.value.limit <= 100
  {
    Check(NormaliseQuery(raw))
  }

  /** With every parameter absent the query lists everything, newest first,
      ten to a page, starting at page 1. */
  lemma ValidateDefaults()
    ensures Validate(RawQuery(Missing, Missing, Missing, Missing, Missing, None, None))
            == Ok(Query("", None, None, ByCreatedAt, Desc, 1, 10))
  {
  }

  /** `?sort=invalid` is refused as "Invalid sort field". */
  lemma UnknownSortRefused()
    ensures Validate(RawQuery(Missing, Missing, Missing, Str("invalid"), Missing, None, None))
            == Err(InvalidSortField)
  {
    var raw := RawQuery(Missing, Missing, Missing, Str("invalid"), Missing, None, None);
    assert Trimmed("invalid");
    assert NormaliseQuery(raw).sort == "invalid";
  }

  /** `order` is matched without regard to case: any casing of "asc" or
      "desc" selects that direction, once the earlier checks pass. */
  lemma OrderIgnoresCase(raw: RawQuery, s: string)
    requires raw.order == Str(s)
    requires Lower(Trim(s)) in Orders
    requires !BadStatus(NormaliseQuery(raw)) && !BadCategory(NormaliseQuery(raw)) && !BadSort(NormaliseQuery(raw))
    ensures Validate(raw).Ok?
    ensures Validate(raw).value.order == if Lower(Trim(s)) == "asc" then Asc else Desc
  {
  }

  /** `?order=ASC` lists in ascending order. */
  lemma UpperCaseAscAccepted()
    ensures Validate(RawQuery(Missing, Missing, Missing, Missing, Str("ASC"), None, None))
            == Ok(Query("", None, None, ByCreatedAt, Asc, 1, 10))
  {
    assert Trimmed("ASC");
    assert Lower("ASC") == "asc";
  }
}
