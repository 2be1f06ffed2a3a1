/** The in-memory item store and the handlers that read and change it. */
module ItemStore {
  import opened Wrappers
  import opened Text
  import opened Items
  import opened ListQuery
  import opened Pipeline

  /** The service's state: the items, newest first, and the next id to hand
      out (`items` and `nextId`). */
  datatype Store = Store(items: seq<Item>, nextId: int)

  /** What every stored item satisfies: a positive id below `nextId`, a
      non-empty trimmed name and trimmed notes. Status and category are
      members of their enumerations by their types. */
  predicate WellFormed(it: Item, nextId: int) {
    1 <= it.id < nextId && it.name != "" && Trimmed(it.name) && Trimmed(it.notes)
  }

  /** The store invariant: the counter is positive, every item is well
      formed, no id is stored twice. */
  predicate Valid(s: Store) {
    && s.nextId >= 1
    && (forall i :: 0 <= i < |s.items| ==> WellFormed(s.items[i], s.nextId))
    && (forall i, j :: 0 <= i < j < |s.items| ==> s.items[i].id != s.items[j].id)
  }

  /** `items.findIndex(i => i.id === id)`: the first position holding `id`. */
  function FindIndex(items: seq<Item>, id: int): (r: Option<nat>)
    ensures r.Some? ==> r.value < |items| && items[r.value].id == id
    ensures r.Some? ==> forall j :: 0 <= j < r.value ==> items[j].id != id
    ensures r.None? ==> forall j :: 0 <= j < |items| ==> items[j].id != id
  {
    if items == [] then None
    else if items[0].id == id then Some(0)
    else
      match FindIndex(items[1..], id)
      case None => None
      case Some(k) => Some(k + 1)
  }

  /** In a valid store an id sits at one position only. */
  lemma FindIndexUnique(s: Store, k: nat)
    requires Valid(s) && k < |s.items|
    ensures FindIndex(s.items, s.items[k].id) == Some(k)
  {
  }

  /** `GET /items/:id`. The id arrives already converted with `Number(...)`;
      `None` stands for a value that is not finite. */
  function Get(s: Store, id: Option<int>): (r: Result<Item, Error>)
    ensures r == Err(InvalidId) <==> id.None?
    ensures r == Err(ItemNotFound) <==> id.Some? && forall it :: it in s.items ==> it.id != id.value
    ensures r.Ok? <==> id.Some? && exists it :: it in s.items && it.id == id.value
    ensures r.Ok? ==> r.value in s.items && r.value.id == id.value
  {
    if id.None? then Err(InvalidId)
    else
      match FindIndex(s.items, id.value)
      case None => Err(ItemNotFound)
      case Some(k) => Ok(s.items[k])
  }

  /** In a valid store, looking up a stored item's id yields that item. */
  lemma GetStored(s: Store, k: nat)
    requires Valid(s) && k < |s.items|
    ensures Get(s, Some(s.items[k].id)) == Ok(s.items[k])
  {
    FindIndexUnique(s, k);
  }

  /** The JSON body of `POST /items`. */
  datatype CreateBody = CreateBody(name: Raw, status: Raw, category: Raw, notes: Raw)

  /** The status and category texts a create uses: the normalised value, or
      the default when it is empty. */
  function CreateStatusText(b: CreateBody): (t: string)
    ensures Trimmed(t) && t != ""
    ensures Normalize(b.status) == "" ==> t == "active"
    ensures Normalize(b.status) != "" ==> t == Normalize(b.status)
  {
    OrDefault(Normalize(b.status), "active")
  }

  function CreateCategoryText(b: CreateBody): (t: string)
    ensures Trimmed(t) && t != ""
    ensures Normalize(b.category) == "" ==> t == "general"
    ensures Normalize(b.category) != "" ==> t == Normalize(b.category)
  {
    OrDefault(Normalize(b.category), "general")
  }

  /** `POST /items` at instant `now`. A blank name fails first, then an
      unknown status, then an unknown category. On success the new item takes
      the next id, the counter grows by one and the item goes in front of the
      unchanged old items. */
  function Create(s: Store, body: CreateBody, now: int): (r: Result<(Store, Item), Error>)
    ensures r == Err(NameRequired) <==> Normalize(body.name) == ""
    ensures r == Err(InvalidStatus)
            <==> Normalize(body.name) != "" && CreateStatusText(body) !in Statuses
    ensures r == Err(InvalidCategory)
            <==> Normalize(body.name) != "" && CreateStatusText(body) in Statuses
                 && CreateCategoryText(body) !in Categories
    ensures r.Ok? <==>
            Normalize(body.name) != "" && CreateStatusText(body) in Statuses
            && CreateCategoryText(body) in Categories
    ensures r.Ok? ==>
      var (s', it) := r.value;
      && it.id == s.nextId && s'.nextId == s.nextId + 1
      && s'.items == [it] + s.items
      && it.name == Normalize(body.name)
      && StatusName(it.status) == CreateStatusText(body)
      && CategoryName(it.category) == CreateCategoryText(body)
      && it.notes == Normalize(body.notes)
      && it.createdAt == now
  {
    var name := Normalize(body.name);
    if name == "" then Err(NameRequired)
    else
      match ParseStatus(CreateStatusText(body))
      case None => Err(InvalidStatus)
      case Some(status) =>
        match ParseCategory(CreateCategoryText(body))
        case None => Err(InvalidCategory)
        case Some(category) =>
          var created := Item(s.nextId, name, status, category, now, Normalize(body.notes));
          Ok((Store([created] + s.items, s.nextId + 1), created))
  }

  /** A create keeps the store valid, and its id was never used before. */
  lemma CreatePreservesValid(s: Store, body: CreateBody, now: int)
    requires Valid(s)
    requires Create(s, body, now).Ok?
    ensures Valid(Create(s, body, now).value.0)
    ensures forall it :: it in s.items ==> it.id != Create(s, body, now).value.1.id
  {
    var r := Create(s, body, now).value;
    PrependPreservesValid(s, r.1);
  }

  /** Putting a well-formed item with id `nextId` in front of a valid store
      and advancing the counter gives a valid store. */
  lemma PrependPreservesValid(s: Store, created: Item)
    requires Valid(s)
    requires created.id == s.nextId && WellFormed(created, s.nextId + 1)
    ensures Valid(Store([created] + s.items, s.nextId + 1))
    ensures forall it :: it in s.items ==> it.id != created.id
  {
    var s' := Store([created] + s.items, s.nextId + 1);
    forall i | 1 <= i < |s'.items|
      ensures s'.items[i] == s.items[i - 1] && WellFormed(s'.items[i], s'.nextId)
    {
      assert WellFormed(s.items[i - 1], s.nextId);
    }
  }

  /** Creating an item and then fetching it by the returned id yields the
      created record. */
  lemma CreateThenGet(s: Store, body: CreateBody, now: int)
    requires Valid(s)
    requires Create(s, body, now).Ok?
    ensures var (s', created) := Create(s, body, now).value;
            Get(s', Some(created.id)) == Ok(created)
  {
    CreatePreservesValid(s, body, now);
    var (s', created) := Create(s, body, now).value;
    GetStored(s', 0);
  }

  /** Trimming "  Task X  " gives "Task X". */
  lemma TrimTaskX()
    ensures Normalize(Str("  Task X  ")) == "Task X"
  {
    var padded := "  Task X  ";
    assert IsSpace(padded[0]) && IsSpace(padded[1]) && !IsSpace(padded[2]);
    assert SkipSpace(padded, 0) == SkipSpace(padded, 1) == SkipSpace(padded, 2) == 2;
    assert IsSpace(padded[9]) && IsSpace(padded[8]) && !IsSpace(padded[7]);
    assert SkipSpaceBack(padded, 2, 10) == SkipSpaceBack(padded, 2, 9) == SkipSpaceBack(padded, 2, 8) == 8;
    assert padded[2..8] == "Task X";
  }

  /** Creating `{name: "  Task X  "}` stores "Task X" as an active, general
      item with empty notes and the next id. */
  lemma CreateTrimsAndDefaults(s: Store, now: int)
    ensures var r := Create(s, CreateBody(Str("  Task X  "), Missing, Missing, Missing), now);
            r.Ok? && r.value.1 == Item(s.nextId, "Task X", Active, General, now, "")
  {
    var body := CreateBody(Str("  Task X  "), Missing, Missing, Missing);
    TrimTaskX();
    assert CreateStatusText(body) == "active";
    assert CreateCategoryText(body) == "general";
  }

  /** The JSON body of `PATCH /items/:id`; `Missing` fields are not supplied. */
  datatype Patch = Patch(name: Raw, status: Raw, category: Raw, notes: Raw)

  /** A supplied field's normalised text, `None` when it is not supplied. */
  function Supplied(v: Raw): (r: Option<string>)
    ensures r.None? <==> v.Missing?
    ensures r.Some? ==> r.value == Normalize(v)
  {
    if v.Missing? then None else Some(Normalize(v))
  }

  /** The patch's own checks, in the source's order: a supplied name must not
      be blank, a supplied status and category must be known. */
  function CheckPatch(p: Patch): (r: Result<(), Error>)
    ensures r == Err(NameCannotBeEmpty) <==> !p.name.Missing? && Normalize(p.name) == ""
    ensures r == Err(InvalidStatus)
            <==> !(!p.name.Missing? && Normalize(p.name) == "")
                 && !p.status.Missing? && Normalize(p.status) !in Statuses
    ensures r == Err(InvalidCategory)
            <==> !(!p.name.Missing? && Normalize(p.name) == "")
                 && !(!p.status.Missing? && Normalize(p.status) !in Statuses)
                 && !p.category.Missing? && Normalize(p.category) !in Categories
    ensures r.Ok? <==>
            && (p.name.Missing? || Normalize(p.name) != "")
            && (p.status.Missing? || Normalize(p.status) in Statuses)
            && (p.category.Missing? || Normalize(p.category) in Categories)
  {
    var name, status, category := Supplied(p.name), Supplied(p.status), Supplied(p.category);
    if name == Some("") then Err(NameCannotBeEmpty)
    else if status.Some? && ParseStatus(status.value).None? then Err(InvalidStatus)
    else if category.Some? && ParseCategory(category.value).None? then Err(InvalidCategory)
    else Ok(())
  }

  /** The item after a patch that passed `CheckPatch`: supplied fields
      replaced by their normalised values, every other field kept. */
  function ApplyPatch(prior: Item, p: Patch): (it: Item)
    requires CheckPatch(p).Ok?
    ensures it.id == prior.id && it.createdAt == prior.createdAt
    ensures it.name == if p.name.Missing? then prior.name else Normalize(p.name)
    ensures p.status.Missing? ==> it.status == prior.status
    ensures !p.status.Missing? ==> StatusName(it.status) == Normalize(p.status)
    ensures p.category.Missing? ==> it.category == prior.category
    ensures !p.category.Missing? ==> CategoryName(it.category) == Normalize(p.category)
    ensures it.notes == if p.notes.Missing? then prior.notes else Normalize(p.notes)
  {
    prior.(
      name := Supplied(p.name).GetOr(prior.name),
      status := if p.status.Missing? then prior.status else ParseStatus(Normalize(p.status)).value,
      category := if p.category.Missing? then prior.category else ParseCategory(Normalize(p.category)).value,
      notes := Supplied(p.notes).GetOr(prior.notes))
  }

  /** `PATCH /items/:id`: a non-finite id fails first, then an id with no
      item, then the patch's own checks. On success only the matched item
      changes, in place, and the counter is untouched. */
  function Update(s: Store, id: Option<int>, p: Patch): (r: Result<(Store, Item), Error>)
    ensures r == Err(InvalidId) <==> id.None?
    ensures r == Err(ItemNotFound) <==> id.Some? && forall it :: it in s.items ==> it.id != id.value
    ensures (id.Some? && FindIndex(s.items, id.value).Some?) ==>
              (r.Err? <==> CheckPatch(p).Err?) && (r.Err? ==> r.error == CheckPatch(p).error)
    ensures r.Ok? ==>
      var (s', it) := r.value;
      var k := FindIndex(s.items, id.value).value;
      && s'.nextId == s.nextId
      && |s'.items| == |s.items|
      && s'.items[k] == it
      && it == ApplyPatch(s.items[k], p)
      && (forall j :: 0 <= j < |s.items| && j != k ==> s'.items[j] == s.items[j])
  {
    if id.None? then Err(InvalidId)
    else
      match FindIndex(s.items, id.value)
      case None => Err(ItemNotFound)
      case Some(k) =>
        var _ :- CheckPatch(p);
        var updated := ApplyPatch(s.items[k], p);
        Ok((s.(items := s.items[k := updated]), updated))
  }

  /** Patching a stored item with `{name: ""}` is refused as
      "name cannot be empty". */
  lemma BlankNamePatchRefused(s: Store, k: nat)
    requires Valid(s) && k < |s.items|
    ensures Update(s, Some(s.items[k].id), Patch(Str(""), Missing, Missing, Missing))
            == Err(NameCannotBeEmpty)
  {
    FindIndexUnique(s, k);
  }

  /** An update keeps the store valid. */
  lemma UpdatePreservesValid(s: Store, id: Option<int>, p: Patch)
    requires Valid(s)
    requires Update(s, id, p).Ok?
    ensures Valid(Update(s, id, p).value.0)
  {
  }

  /** Sending the same patch twice changes nothing the second time. */
  lemma UpdateIdempotent(s: Store, id: Option<int>, p: Patch)
    requires Update(s, id, p).Ok?
    ensures var (s', it) := Update(s, id, p).value;
            Update(s', id, p) == Ok((s', it))
  {
    var (s', it) := Update(s, id, p).value;
    var k := FindIndex(s.items, id.value).value;
    assert ApplyPatch(it, p) == it;
    assert s'.items[k := it] == s'.items;
    assert forall j :: 0 <= j < |s.items| ==> s'.items[j].id == s.items[j].id;
    assert FindIndex(s'.items, id.value) == Some(k) by {
      FindIndexSameIds(s.items, s'.items, id.value);
    }
  }

  /** `FindIndex` only looks at ids. */
  lemma {:induction false} FindIndexSameIds(a: seq<Item>, b: seq<Item>, id: int)
    requires |a| == |b|
    requires forall j :: 0 <= j < |a| ==> a[j].id == b[j].id
    ensures FindIndex(a, id) == FindIndex(b, id)
  {
    if a != [] {
      FindIndexSameIds(a[1..], b[1..], id);
    }
  }

  /** `DELETE /items/:id`: a non-finite id fails first, then an id with no
      item. On success exactly the matched item is taken out and returned,
      the others keep their order and the counter is untouched. */
  function Delete(s: Store, id: Option<int>): (r: Result<(Store, Item), Error>)
    ensures r == Err(InvalidId) <==> id.None?
    ensures r == Err(ItemNotFound) <==> id.Some? && forall it :: it in s.items ==> it.id != id.value
    ensures r.Ok? <==> id.Some? && exists it :: it in s.items && it.id == id.value
    ensures r.Ok? ==>
      var (s', removed) := r.value;
      var k := FindIndex(s.items, id.value).value;
      && removed == s.items[k] && removed.id == id.value
      && s'.items == s.items[..k] + s.items[k + 1..]
      && multiset(s'.items) == multiset(s.items) - multiset{removed}
      && s'.nextId == s.nextId
  {
    if id.None? then Err(InvalidId)
    else
      match FindIndex(s.items, id.value)
      case None => Err(ItemNotFound)
      case Some(k) =>
        assert s.items == s.items[..k] + [s.items[k]] + s.items[k + 1..];
        Ok((s.(items := s.items[..k] + s.items[k + 1..]), s.items[k]))
  }

  /** A delete keeps the store valid. */
  lemma DeletePreservesValid(s: Store, id: Option<int>)
    requires Valid(s)
    requires Delete(s, id).Ok?
    ensures Valid(Delete(s, id).value.0)
  {
    var (s', _) := Delete(s, id).value;
    var k := FindIndex(s.items, id.value).value;
    forall i | 0 <= i < |s'.items| ensures s'.items[i] == s.items[if i < k then i else i + 1] {
    }
  }

  /** After a delete in a valid store, fetching the deleted id is not found. */
  lemma DeleteThenGet(s: Store, id: Option<int>)
    requires Valid(s)
    requires Delete(s, id).Ok?
    ensures Get(Delete(s, id).value.0, id) == Err(ItemNotFound)
  {
    var (s', removed) := Delete(s, id).value;
    var k := FindIndex(s.items, id.value).value;
    forall it | it in s'.items ensures it.id != id.value {
      var i :| 0 <= i < |s'.items| && s'.items[i] == it;
      if i < k {
        assert it == s.items[i];
      } else {
        assert it == s.items[i + 1];
      }
    }
  }

  /** Ids are never reused: an item created after a delete never gets the
      deleted item's id. */
  lemma DeleteThenCreateFreshId(s: Store, id: Option<int>, body: CreateBody, now: int)
    requires Valid(s)
    requires Delete(s, id).Ok?
    ensures var (s', gone) := Delete(s, id).value;
            Create(s', body, now).Ok? ==> Create(s', body, now).value.1.id != gone.id
  {
    var k := FindIndex(s.items, id.value).value;
    assert WellFormed(s.items[k], s.nextId);
  }

  /** A request the service handles. */
  datatype Request =
    | ListItems(query: RawQuery)
    | GetItem(id: Option<int>)
    | CreateItem(body: CreateBody, now: int)
    | UpdateItem(id: Option<int>, patch: Patch)
    | DeleteItem(id: Option<int>)

  /** A response body: one item, a page of items, or `{error: message}`. */
  datatype Body = One(item: Item) | Listing(page: Page) | Failure(message: string)

  datatype Response = Response(code: int, body: Body)

  /** The answer for a failed request. */
  function Reject(e: Error): Response {
    Response(HttpStatus(e), Failure(Message(e)))
  }

  /** One request against the store: the store after it and the answer.
      A failed request is answered with its error's status and message and
      leaves the store as it was; reads never change the store. */
  function Handle(s: Store, req: Request): (out: (Store, Response))
    ensures out.1.code in {200, 201, 400, 404}
    ensures out.0.nextId >= s.nextId
    ensures out.1.code >= 400 ==> out.0 == s && out.1.body.Failure?
    ensures out.1.code == 404 ==> out.1.body == Failure("Item not found")
    ensures (req.ListItems? || req.GetItem?) ==> out.0 == s
    ensures out.1.code == 201 <==> req.CreateItem? && Create(s, req.body, req.now).Ok?
    ensures req.ListItems? ==>
      var r := List(s.items, req.query);
      && (r.Ok? ==> out.1 == Response(200, Listing(r.value)))
      && (r.Err? ==> out.1 == Reject(r.error))
    ensures req.GetItem? ==>
      var r := Get(s, req.id);
      && (r.Ok? ==> out.1 == Response(200, One(r.value)))
      && (r.Err? ==> out.1 == Reject(r.error))
    ensures req.CreateItem? ==>
      var r := Create(s, req.body, req.now);
      && (r.Ok? ==> out == (r.value.0, Response(201, One(r.value.1))))
      && (r.Err? ==> out == (s, Reject(r.error)))
    ensures req.UpdateItem? ==>
      var r := Update(s, req.id, req.patch);
      && (r.Ok? ==> out == (r.value.0, Response(200, One(r.value.1))))
      && (r.Err? ==> out == (s, Reject(r.error)))
    ensures req.DeleteItem? ==>
      var r := Delete(s, req.id);
      && (r.Ok? ==> out == (r.value.0, Response(200, One(r.value.1))))
      && (r.Err? ==> out == (s, Reject(r.error)))
  {
    match req
    case ListItems(query) =>
      (match List(s.items, query)
       case Ok(page) => (s, Response(200, Listing(page)))
       case Err(e) => (s, Reject(e)))
    case GetItem(id) =>
      (match Get(s, id)
       case Ok(it) => (s, Response(200, One(it)))
       case Err(e) => (s, Reject(e)))
    case CreateItem(body, now) =>
      (match Create(s, body, now)
       case Ok((s', it)) => (s', Response(201, One(it)))
       case Err(e) => (s, Reject(e)))
    case UpdateItem(id, patch) =>
      (match Update(s, id, patch)
       case Ok((s', it)) => (s', Response(200, One(it)))
       case Err(e) => (s, Reject(e)))
    case DeleteItem(id) =>
      (match Delete(s, id)
       case Ok((s', it)) => (s', Response(200, One(it)))
       case Err(e) => (s, Reject(e)))
  }

  /** `GET /items?sort=invalid` is answered 400 with "Invalid sort field",
      whatever the store holds, and the store is untouched. */
  lemma UnknownSortAnswered(s: Store)
    ensures Handle(s, ListItems(RawQuery(Missing, Missing, Missing, Str("invalid"), Missing, None, None)))
            == (s, Response(400, Failure("Invalid sort field")))
  {
    UnknownSortRefused();
  }

  /** `PATCH /items/:id` with `{name: ""}` on a stored item is answered 400
      with "name cannot be empty", and the store is untouched. */
  lemma BlankNamePatchAnswered(s: Store, k: nat)
    requires Valid(s) && k < |s.items|
    ensures Handle(s, UpdateItem(Some(s.items[k].id), Patch(Str(""), Missing, Missing, Missing)))
            == (s, Response(400, Failure("name cannot be empty")))
  {
    BlankNamePatchRefused(s, k);
  }

  /** Every request keeps a valid store valid and never lowers the counter. */
  lemma HandlePreservesValid(s: Store, req: Request)
    requires Valid(s)
    ensures Valid(Handle(s, req).0)
    ensures Handle(s, req).0.nextId >= s.nextId
  {
    match req
    case CreateItem(body, now) =>
      if Create(s, body, now).Ok? { CreatePreservesValid(s, body, now); }
    case UpdateItem(id, patch) =>
      if Update(s, id, patch).Ok? { UpdatePreservesValid(s, id, patch); }
    case DeleteItem(id) =>
      if Delete(s, id).Ok? { DeletePreservesValid(s, id); }
    case _ =>
  }

  /** The store after a sequence of requests, handled one at a time. */
  function Run(s: Store, reqs: seq<Request>): (r: Store)
    ensures reqs == [] ==> r == s
    ensures |reqs| == 1 ==> r == Handle(s, reqs[0]).0
    ensures r.nextId >= s.nextId
    decreases |reqs|
  {
    if reqs == [] then s else Run(Handle(s, reqs[0]).0, reqs[1..])
  }

  /** Handling two batches of requests in turn is handling them as one. */
  lemma {:induction false} RunAppend(s: Store, a: seq<Request>, b: seq<Request>)
    ensures Run(s, a + b) == Run(Run(s, a), b)
    decreases |a|
  {
    if a != [] {
      assert (a + b)[0] == a[0] && (a + b)[1..] == a[1..] + b;
      RunAppend(Handle(s, a[0]).0, a[1..], b);
    } else {
      assert a + b == b;
    }
  }

  /** The invariant holds after any sequence of requests. */
  lemma {:induction false} RunPreservesValid(s: Store, reqs: seq<Request>)
    requires Valid(s)
    ensures Valid(Run(s, reqs))
    ensures Run(s, reqs).nextId >= s.nextId
    decreases |reqs|
  {
    if reqs != [] {
      HandlePreservesValid(s, reqs[0]);
      RunPreservesValid(Handle(s, reqs[0]).0, reqs[1..]);
    }
  }
}
