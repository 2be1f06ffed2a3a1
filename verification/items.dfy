/** The item record, its two enumerations, the raw request values handlers
    receive, and the errors they answer with. */
module Items {
  import opened Wrappers
  import opened Text

  /** The fixed status enumeration (`STATUSES`). */
  datatype Status = Active | Paused | Archived

  /** The status names in their declared order. */
  const Statuses: seq<string> := ["active", "paused", "archived"]

  function StatusName(s: Status): (name: string)
    ensures name in Statuses
  {
    match s
    case Active => "active"
    case Paused => "paused"
    case Archived => "archived"
  }

  /** Reads a status from its name; only the exact names are accepted. */
  function ParseStatus(text: string): (r: Option<Status>)
    ensures r.Some? <==> text in Statuses
    ensures r.Some? ==> StatusName(r.value) == text
  {
    if text == "active" then Some(Active)
    else if text == "paused" then Some(Paused)
    else if text == "archived" then Some(Archived)
    else None
  }

  /** Every status survives the trip through its name. */
  lemma StatusRoundTrip(s: Status)
    ensures ParseStatus(StatusName(s)) == Some(s)
  {
  }

  /** The fixed category enumeration (`CATEGORIES`). */
  datatype Category = General | Work | Personal

  /** The category names in their declared order. */
  const Categories: seq<string> := ["general", "work", "personal"]

  function CategoryName(c: Category): (name: string)
    ensures name in Categories
  {
    match c
    case General => "general"
    case Work => "work"
    case Personal => "personal"
  }

  /** Reads a category from its name; only the exact names are accepted. */
  function ParseCategory(text: string): (r: Option<Category>)
    ensures r.Some? <==> text in Categories
    ensures r.Some? ==> CategoryName(r.value) == text
  {
    if text == "general" then Some(General)
    else if text == "work" then Some(Work)
    else if text == "personal" then Some(Personal)
    else None
  }

  /** Every category survives the trip through its name. */
  lemma CategoryRoundTrip(c: Category)
    ensures ParseCategory(CategoryName(c)) == Some(c)
  {
  }

  /** One stored record. `createdAt` is the creation instant in milliseconds
      since the epoch, the number the source gets back from its ISO-8601
      string through `new Date(...).getTime()`. */
  datatype Item = Item(
    id: int,
    name: string,
    status: Status,
    category: Category,
    createdAt: int,
    notes: string)

  /** A request field as the handler sees it: absent (`undefined`), a
      string, or some other JSON value (number, boolean, null, array, object). */
  datatype Raw = Missing | Str(s: string) | NonString

  /** The source's `normalizeString`: a string is trimmed, anything else
      (absent included) becomes "". */
  function Normalize(v: Raw): (r: string)
    ensures Trimmed(r)
    ensures !v.Str? ==> r == ""
    ensures v.Str? ==> r == Trim(v.s)
  {
    match v
    case Str(s) => Trim(s)
    case _ => ""
  }

  /** JavaScript's `text || fallback` on strings: the empty string is falsy. */
  function OrDefault(text: string, fallback: string): (r: string)
    ensures text != "" ==> r == text
    ensures text == "" ==> r == fallback
  {
    if text == "" then fallback else text
  }

  /** The error taxonomy: every failure a handler answers with. */
  datatype Error =
    | InvalidId
    | ItemNotFound
    | NameRequired
    | NameCannotBeEmpty
    | InvalidStatus
    | InvalidCategory
    | InvalidSortField
    | InvalidOrder

  /** Every `error` text a handler sends. */
  const Messages: seq<string> := [
    "Invalid id", "Item not found", "name is required", "name cannot be empty",
    "Invalid status", "Invalid category", "Invalid sort field", "Invalid order"]

  /** The `error` text of the JSON body sent for `e`. */
  function Message(e: Error): (m: string)
    ensures m in Messages && m != ""
    ensures m == "Invalid id" <==> e == InvalidId
    ensures m == "Item not found" <==> e == ItemNotFound
    ensures m == "name is required" <==> e == NameRequired
    ensures m == "name cannot be empty" <==> e == NameCannotBeEmpty
    ensures m == "Invalid status" <==> e == InvalidStatus
    ensures m == "Invalid category" <==> e == InvalidCategory
    ensures m == "Invalid sort field" <==> e == InvalidSortField
    ensures m == "Invalid order" <==> e == InvalidOrder
  {
    match e
    case InvalidId => "Invalid id"
    case ItemNotFound => "Item not found"
    case NameRequired => "name is required"
    case NameCannotBeEmpty => "name cannot be empty"
    case InvalidStatus => "Invalid status"
    case InvalidCategory => "Invalid category"
    case InvalidSortField => "Invalid sort field"
    case InvalidOrder => "Invalid order"
  }

  /** The HTTP status sent for `e`: 404 for a well-formed id with no
      record, 400 for every validation failure. */
  function HttpStatus(e: Error): (code: int)
    ensures code == 404 <==> e == ItemNotFound
    ensures code == 400 <==> e != ItemNotFound
  {
    if e.ItemNotFound? then 404 else 400
  }

  /** Distinct errors are told apart by their messages alone. */
  lemma MessageInjective(e1: Error, e2: Error)
    requires Message(e1) == Message(e2)
    ensures e1 == e2
  {
  }
}
