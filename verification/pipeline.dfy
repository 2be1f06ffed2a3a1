/** The `GET /items` pipeline: filter a copy of the store, sort it, cut out
    one page and describe the whole result with metadata. */
module Pipeline {
  import opened Wrappers
  import opened Text
  import opened Items
  import opened Sorting
  import opened ListQuery

  /** `Array.prototype.filter`: the elements of `s` that satisfy `p`, in order. */
  function Filter(s: seq<Item>, p: Item -> bool): (r: seq<Item>)
    ensures |r| <= |s|
    ensures forall x :: multiset(r)[x] == if p(x) then multiset(s)[x] else 0
  {
    if s == [] then []
    else
      assert s == [s[0]] + s[1..];
      (if p(s[0]) then [s[0]] else []) + Filter(s[1..], p)
  }

  /** Filtering a concatenation filters each part and keeps them in order,
      so the kept elements keep their relative order. */
  lemma {:induction false} FilterAppend(a: seq<Item>, b: seq<Item>, p: Item -> bool)
    ensures Filter(a + b, p) == Filter(a, p) + Filter(b, p)
    decreases |a|
  {
    if a == [] {
      assert a + b == b;
    } else {
      assert (a + b)[0] == a[0] && (a + b)[1..] == a[1..] + b;
      FilterAppend(a[1..], b, p);
    }
  }

  /** How many elements of `s` satisfy `p`, counted one by one. */
  function Count(s: seq<Item>, p: Item -> bool): nat {
    if s == [] then 0 else (if p(s[0]) then 1 else 0) + Count(s[1..], p)
  }

  /** A filter keeps as many elements as satisfy the predicate. */
  lemma {:induction false} FilterCount(s: seq<Item>, p: Item -> bool)
    ensures |Filter(s, p)| == Count(s, p)
  {
    if s != [] {
      FilterCount(s[1..], p);
    }
  }

  /** The source's free-text test: the query is a case-insensitive substring
      of the name or of the notes. */
  function TextMatches(it: Item, text: string): (r: bool)
    ensures text == "" ==> r
    ensures Lower(it.name) == Lower(text) || Lower(it.notes) == Lower(text) ==> r
    ensures r ==> |text| <= |it.name| || |text| <= |it.notes|
  {
    IncludesInsensitive(it.name, text) || IncludesInsensitive(it.notes, text)
  }

  /** The free-text test keeps an item exactly when the query occurs, up
      to case, somewhere in its name or somewhere in its notes. */
  lemma TextMatchesIff(it: Item, text: string)
    ensures TextMatches(it, text)
            <==> (exists i :: OccursInsensitiveAt(it.name, text, i))
                 || (exists i :: OccursInsensitiveAt(it.notes, text, i))
  {
    IncludesInsensitiveIff(it.name, text);
    IncludesInsensitiveIff(it.notes, text);
  }

  /** Everything the list handler asks of an item: the status filter when
      given, the category filter when given, and the free-text filter when
      the query text is non-empty. */
  function Matches(it: Item, q: Query): (r: bool)
    ensures q.status.None? && q.category.None? && q.text == "" ==> r
    ensures r && q.status.Some? ==> it.status == q.status.value
    ensures r && q.category.Some? ==> it.category == q.category.value
    ensures r && q.text != "" ==> TextMatches(it, q.text)
    ensures r <== (q.status.None? || it.status == q.status.value)
                  && (q.category.None? || it.category == q.category.value)
                  && (q.text == "" || TextMatches(it, q.text))
  {
    && (q.status.None? || it.status == q.status.value)
    && (q.category.None? || it.category == q.category.value)
    && (q.text == "" || TextMatches(it, q.text))
  }

  /** The three successive filters applied to a copy of the store. Exactly
      the matching items are kept, each as often as it is stored. */
  function Select(items: seq<Item>, q: Query): (r: seq<Item>)
    ensures forall x :: multiset(r)[x] == if Matches(x, q) then multiset(items)[x] else 0
  {
    var byStatus :=
      if q.status.Some? then Filter(items, (it: Item) => it.status == q.status.value) else items;
    var byCategory :=
      if q.category.Some? then Filter(byStatus, (it: Item) => it.category == q.category.value) else byStatus;
    if q.text != "" then Filter(byCategory, (it: Item) => TextMatches(it, q.text)) else byCategory
  }

  /** Filtering is sound and complete: an item is selected exactly when it is
      stored and matches. */
  lemma SelectSoundComplete(items: seq<Item>, q: Query, x: Item)
    ensures x in Select(items, q) <==> x in items && Matches(x, q)
  {
    assert x in Select(items, q) <==> x in multiset(Select(items, q));
    assert x in items <==> x in multiset(items);
  }

  /** The number of selected items is the number of stored items that match. */
  lemma SelectCount(items: seq<Item>, q: Query)
    ensures |Select(items, q)| == Count(items, (it: Item) => Matches(it, q))
  {
    var p := (it: Item) => Matches(it, q);
    var reference := Filter(items, p);
    assert multiset(Select(items, q)) == multiset(reference);
    FilterCount(items, p);
    assert |Select(items, q)| == |multiset(Select(items, q))| == |multiset(reference)| == |reference|;
  }

  /** Ceiling division of naturals, `Math.ceil(a / b)`. */
  function CeilDiv(a: nat, b: nat): (r: nat)
    requires b > 0
    ensures (r - 1) * b < a <= r * b || (a == 0 && r == 0)
  {
    (a + b - 1) / b
  }

  datatype Meta = Meta(page: int, limit: int, total: int, totalPages: int)

  /** The list response: one page of items and the pagination metadata. */
  datatype Page = Page(data: seq<Item>, meta: Meta)

  /** `Math.max(1, Math.ceil(total / limit))`: enough pages of `limit`
      items to hold `total` items, and never fewer than one. */
  function TotalPages(total: nat, limit: int): (t: int)
    requires limit >= 1
    ensures t >= 1
    ensures total > 0 ==> (t - 1) * limit < total <= t * limit
    ensures total == 0 ==> t == 1
  {
    var pages := CeilDiv(total, limit);
    if pages < 1 then 1 else pages
  }

  /** `results.slice(start, start + limit)` for a non-negative start: the
      results from `start` on, `limit` of them when that many remain, all
      that remain otherwise, none once `start` is past the end. */
  function Window(results: seq<Item>, start: nat, limit: nat): (w: seq<Item>)
    ensures |w| <= limit
    ensures w == [] || start + |w| <= |results|
    ensures forall k :: 0 <= k < |w| ==> w[k] == results[start + k]
    ensures start + limit <= |results| ==> |w| == limit
    ensures start <= |results| <= start + limit ==> |w| == |results| - start
    ensures start >= |results| ==> w == []
  {
    var from := if start < |results| then start else |results|;
    var to := if start + limit < |results| then start + limit else |results|;
    results[from..to]
  }

  /** The list response for page `page` of `results`: the window starting at
      `(page - 1) * limit`, and the metadata counting every result. */
  function Paginate(results: seq<Item>, page: int, limit: int): (p: Page)
    requires page >= 1 && limit >= 1
    ensures p.meta.page == page && p.meta.limit == limit && p.meta.total == |results|
    ensures p.meta.totalPages == TotalPages(|results|, limit)
    ensures |p.data| <= limit
    ensures forall k :: 0 <= k < |p.data| ==>
              (page - 1) * limit + k < |results| && p.data[k] == results[(page - 1) * limit + k]
    ensures (page - 1) * limit + limit <= |results| ==> |p.data| == limit
    ensures (page - 1) * limit <= |results| <= (page - 1) * limit + limit ==>
              |p.data| == |results| - (page - 1) * limit
    ensures (page - 1) * limit >= |results| ==> p.data == []
  {
    Page(Window(results, (page - 1) * limit, limit),
         Meta(page, limit, |results|, TotalPages(|results|, limit)))
  }

  lemma MulMonotone(a: int, b: int, c: int)
    requires a <= b && c >= 0
    ensures a * c <= b * c
  {
  }

  /** A page has items exactly when the results are non-empty and the page
      number is at most `totalPages`. */
  lemma PageNonEmptyIff(results: seq<Item>, page: int, limit: int)
    requires page >= 1 && limit >= 1
    ensures var p := Paginate(results, page, limit);
            p.data != [] <==> results != [] && page <= p.meta.totalPages
  {
    var p := Paginate(results, page, limit);
    var t := p.meta.totalPages;
    var start := (page - 1) * limit;
    if results != [] && page <= t {
      MulMonotone(page - 1, t - 1, limit);
      assert start < |results|;
    }
    if page > t {
      MulMonotone(t, page - 1, limit);
      assert start >= |results|;
    }
  }

  /** The pages cover the results: result `i` is item `i % limit` of page
      `i / limit + 1`, and that page is within `totalPages`. */
  lemma PagesCover(results: seq<Item>, limit: int, i: int)
    requires limit >= 1 && 0 <= i < |results|
    ensures var page := i / limit + 1;
            var p := Paginate(results, page, limit);
            && page <= p.meta.totalPages
            && i % limit < |p.data|
            && p.data[i % limit] == results[i]
  {
    var page := i / limit + 1;
    var start := (page - 1) * limit;
    assert start + i % limit == i;
    PageNonEmptyIff(results, page, limit);
  }

  /** Nine results, page 2 of 5 per page: the last four results, with
      total 9 and 2 pages. */
  lemma SecondPageOfNine(results: seq<Item>)
    requires |results| == 9
    ensures var p := Paginate(results, 2, 5);
            p.data == results[5..] && p.meta == Meta(2, 5, 9, 2)
  {
  }

  /** Every item of a window of `results` is one of the results, and a
      window of sorted results is sorted. */
  lemma WindowOfSorted(results: seq<Item>, start: nat, limit: nat, f: SortField, o: Order)
    requires Sorted(results, f, o)
    ensures forall x :: x in Window(results, start, limit) ==> x in results
    ensures Sorted(Window(results, start, limit), f, o)
  {
    var w := Window(results, start, limit);
    forall i, j | 0 <= i < j < |w| ensures Precedes(w[i], w[j], f, o) {
      assert w[i] == results[start + i] && w[j] == results[start + j];
    }
    forall x | x in w ensures x in results {
      var k :| 0 <= k < |w| && w[k] == x;
      assert x == results[start + k];
    }
  }

  /** Every item of a page of `results` is one of the results, and a page of
      sorted results is sorted. */
  lemma PageOfSorted(results: seq<Item>, page: int, limit: int, f: SortField, o: Order)
    requires page >= 1 && limit >= 1
    requires Sorted(results, f, o)
    ensures forall x :: x in Paginate(results, page, limit).data ==> x in results
    ensures Sorted(Paginate(results, page, limit).data, f, o)
  {
    var start: nat := (page - 1) * limit;
    WindowOfSorted(results, start, limit, f, o);
  }

  /** The matching items in the requested order: a sorted permutation of
      the selection. */
  function Ranked(items: seq<Item>, q: Query): (r: seq<Item>)
    ensures Sorted(r, q.sort, q.order)
    ensures multiset(r) == multiset(Select(items, q))
  {
    SortItems(Select(items, q), q.sort, q.order)
  }

  /** The sorted selection holds exactly the stored items that match. */
  lemma RankedSoundComplete(items: seq<Item>, q: Query, x: Item)
    requires x in Ranked(items, q)
    ensures x in items && Matches(x, q)
  {
    assert x in multiset(Ranked(items, q));
    SelectSoundComplete(items, q, x);
  }

  /** The whole `GET /items` handler over the store's items: validation first,
      then filter, sort and paginate. The store is only read. The answer is
      page `q.page` of the ranked selection: its metadata count every
      matching item, and it holds only matching items, in order. */
  function List(items: seq<Item>, raw: RawQuery): (r: Result<Page, Error>)
    ensures r.Err? <==> Validate(raw).Err?
    ensures r.Err? ==> r.error == Validate(raw).error
    ensures r.Ok? ==>
      var q := Validate(raw).value;
      && r.value == Paginate(Ranked(items, q), q.page, q.limit)
      && r.value.meta.page == q.page && r.value.meta.limit == q.limit
      && r.value.meta.total == Count(items, (it: Item) => Matches(it, q))
      && r.value.meta.totalPages == TotalPages(r.value.meta.total, q.limit)
      && (r.value.data != [] <==> r.value.meta.total > 0 && q.page <= r.value.meta.totalPages)
      && (forall x :: x in r.value.data ==> x in items && Matches(x, q))
      && Sorted(r.value.data, q.sort, q.order)
  {
    var q :- Validate(raw);
    var results := Ranked(items, q);
    PageOfSorted(results, q.page, q.limit, q.sort, q.order);
    PageNonEmptyIff(results, q.page, q.limit);
    forall x | x in results {
      RankedSoundComplete(items, q, x);
    }
    SelectCount(items, q);
    Ok(Paginate(results, q.page, q.limit))
  }
}
