/** The list handler's comparator and the sort it drives. */
module Sorting {
  import opened Text
  import opened Items

  /** The three accepted `sort` values: `createdAt`, `name`, `status`. */
  datatype SortField = ByCreatedAt | ByName | ByStatus

  /** The two accepted `order` values. */
  datatype Order = Asc | Desc

  /** What the comparator compares: a timestamp, or a lower-cased string. */
  datatype Key = Num(n: int) | Chars(s: string)

  /** The comparison key of `it` for field `f`: the numeric creation time,
      or the lower-cased name or status name. */
  function KeyOf(it: Item, f: SortField): (k: Key)
    ensures k.Num? <==> f == ByCreatedAt
    ensures k.Num? ==> k.n == it.createdAt
    ensures f == ByName ==> k == Chars(Lower(it.name))
    ensures f == ByStatus ==> k == Chars(Lower(StatusName(it.status)))
  {
    match f
    case ByCreatedAt => Num(it.createdAt)
    case ByName => Chars(Lower(it.name))
    case ByStatus => Chars(Lower(StatusName(it.status)))
  }

  /** JavaScript's `<` on the two kinds of key. Keys of one field always
      have the same kind; across kinds numbers are put first so that the
      relation is a strict total order on all keys. */
  predicate KeyLess(a: Key, b: Key) {
    match (a, b)
    case (Num(x), Num(y)) => x < y
    case (Chars(x), Chars(y)) => StrLess(x, y)
    case (Num(_), Chars(_)) => true
    case (Chars(_), Num(_)) => false
  }

  lemma KeyLessIrreflexive(a: Key)
    ensures !KeyLess(a, a)
  {
    if a.Chars? {
      StrLessIrreflexive(a.s);
    }
  }

  lemma KeyLessTransitive(a: Key, b: Key, c: Key)
    requires KeyLess(a, b) && KeyLess(b, c)
    ensures KeyLess(a, c)
  {
    if a.Chars? && b.Chars? && c.Chars? {
      StrLessTransitive(a.s, b.s, c.s);
    }
  }

  lemma KeyLessTotal(a: Key, b: Key)
    requires a != b
    ensures KeyLess(a, b) || KeyLess(b, a)
  {
    if a.Chars? && b.Chars? {
      StrLessTotal(a.s, b.s);
    }
  }

  lemma KeyLessAsymmetric(a: Key, b: Key)
    requires KeyLess(a, b)
    ensures !KeyLess(b, a)
  {
    if KeyLess(b, a) {
      KeyLessTransitive(a, b, a);
      KeyLessIrreflexive(a);
    }
  }

  /** Two keys are equal or ordered one way, and never both ways. */
  lemma KeyLessTrichotomy(a: Key, b: Key)
    ensures a == b <==> !KeyLess(a, b) && !KeyLess(b, a)
    ensures !(KeyLess(a, b) && KeyLess(b, a))
  {
    KeyLessIrreflexive(a);
    if a != b {
      KeyLessTotal(a, b);
    }
    if KeyLess(a, b) {
      KeyLessAsymmetric(a, b);
    }
  }

  /** The source's comparator: negative when `a` goes first, positive when
      `b` goes first, zero for equal keys. */
  function Compare(a: Item, b: Item, f: SortField, o: Order): (c: int)
    ensures c in {-1, 0, 1}
    ensures c == 0 <==> KeyOf(a, f) == KeyOf(b, f)
    ensures c < 0 <==> (if o == Asc then KeyLess(KeyOf(a, f), KeyOf(b, f))
                                    else KeyLess(KeyOf(b, f), KeyOf(a, f)))
  {
    var ka, kb := KeyOf(a, f), KeyOf(b, f);
    KeyLessTrichotomy(ka, kb);
    if KeyLess(ka, kb) then (if o == Asc then -1 else 1)
    else if KeyLess(kb, ka) then (if o == Asc then 1 else -1)
    else 0
  }

  /** Swapping the arguments negates the comparison. */
  lemma CompareAntisymmetric(a: Item, b: Item, f: SortField, o: Order)
    ensures Compare(b, a, f, o) == -Compare(a, b, f, o)
  {
    KeyLessTrichotomy(KeyOf(a, f), KeyOf(b, f));
  }

  /** `a` may stand before `b` in the sorted output. */
  predicate Precedes(a: Item, b: Item, f: SortField, o: Order) {
    Compare(a, b, f, o) <= 0
  }

  /** Under `Asc` an item precedes another exactly when its key is not
      greater; under `Desc` exactly when it is not smaller. */
  lemma PrecedesMeaning(a: Item, b: Item, f: SortField, o: Order)
    ensures o == Asc ==> (Precedes(a, b, f, o) <==> !KeyLess(KeyOf(b, f), KeyOf(a, f)))
    ensures o == Desc ==> (Precedes(a, b, f, o) <==> !KeyLess(KeyOf(a, f), KeyOf(b, f)))
  {
    var ka, kb := KeyOf(a, f), KeyOf(b, f);
    if KeyLess(ka, kb) {
      KeyLessAsymmetric(ka, kb);
    }
  }

  lemma PrecedesTotal(a: Item, b: Item, f: SortField, o: Order)
    ensures Precedes(a, b, f, o) || Precedes(b, a, f, o)
  {
    PrecedesMeaning(a, b, f, o);
    PrecedesMeaning(b, a, f, o);
    var ka, kb := KeyOf(a, f), KeyOf(b, f);
    if ka != kb {
      KeyLessTotal(ka, kb);
      if KeyLess(ka, kb) { KeyLessAsymmetric(ka, kb); } else { KeyLessAsymmetric(kb, ka); }
    } else {
      KeyLessIrreflexive(ka);
    }
  }

  lemma PrecedesTransitive(a: Item, b: Item, c: Item, f: SortField, o: Order)
    requires Precedes(a, b, f, o) && Precedes(b, c, f, o)
    ensures Precedes(a, c, f, o)
  {
    PrecedesMeaning(a, b, f, o);
    PrecedesMeaning(b, c, f, o);
    PrecedesMeaning(a, c, f, o);
    var ka, kb, kc := KeyOf(a, f), KeyOf(b, f), KeyOf(c, f);
    // "not less" is transitive because the key order is total.
    if o == Asc && KeyLess(kc, ka) {
      if kb != ka { KeyLessTotal(ka, kb); KeyLessTransitive(kc, ka, kb); }
    } else if o == Desc && KeyLess(ka, kc) {
      if kb != ka { KeyLessTotal(ka, kb); KeyLessTransitive(kb, ka, kc); }
    }
  }

  /** Every pair of `s`, taken in order, respects the comparator. */
  predicate Sorted(s: seq<Item>, f: SortField, o: Order) {
    forall i, j :: 0 <= i < j < |s| ==> Precedes(s[i], s[j], f, o)
  }

  /** `x` may precede every element of `s`. */
  predicate PrecedesAll(x: Item, s: seq<Item>, f: SortField, o: Order) {
    forall k :: 0 <= k < |s| ==> Precedes(x, s[k], f, o)
  }

  /** A sorted list with an element in front that precedes all of it is sorted. */
  lemma SortedCons(x: Item, s: seq<Item>, f: SortField, o: Order)
    requires Sorted(s, f, o) && PrecedesAll(x, s, f, o)
    ensures Sorted([x] + s, f, o)
  {
    var r := [x] + s;
    forall i, j | 0 <= i < j < |r| ensures Precedes(r[i], r[j], f, o) {
      assert r[j] == s[j - 1];
      if i == 0 {
        assert r[i] == x && Precedes(x, s[j - 1], f, o);
      } else {
        assert r[i] == s[i - 1] && Precedes(s[i - 1], s[j - 1], f, o);
      }
    }
  }

  /** An element that precedes the head of a sorted list precedes all of it. */
  lemma PrecedesHead(x: Item, s: seq<Item>, f: SortField, o: Order)
    requires Sorted(s, f, o) && s != [] && Precedes(x, s[0], f, o)
    ensures PrecedesAll(x, s, f, o)
  {
    forall k | 0 <= k < |s| ensures Precedes(x, s[k], f, o) {
      if k > 0 { PrecedesTransitive(x, s[0], s[k], f, o); }
    }
  }

  /** The head of a sorted list precedes anything built from its tail and
      an element the head precedes. */
  lemma HeadPrecedesInsert(h: Item, x: Item, tail: seq<Item>, rest: seq<Item>, f: SortField, o: Order)
    requires Sorted([h] + tail, f, o) && Precedes(h, x, f, o)
    requires multiset(rest) == multiset(tail) + multiset{x}
    ensures PrecedesAll(h, rest, f, o)
  {
    forall k | 0 <= k < |rest| ensures Precedes(h, rest[k], f, o) {
      var y := rest[k];
      assert y in multiset(rest);
      if y != x {
        assert y in multiset(tail);
        var m :| 0 <= m < |tail| && tail[m] == y;
        assert ([h] + tail)[0] == h && ([h] + tail)[m + 1] == y;
      }
    }
  }

  /** Places `x` in front of the first element it may precede. */
  function Insert(x: Item, s: seq<Item>, f: SortField, o: Order): (r: seq<Item>)
    requires Sorted(s, f, o)
    ensures Sorted(r, f, o)
    ensures multiset(r) == multiset(s) + multiset{x}
  {
    if s == [] then [x]
    else if Precedes(x, s[0], f, o) then
      PrecedesHead(x, s, f, o);
      SortedCons(x, s, f, o);
      [x] + s
    else
      assert s == [s[0]] + s[1..];
      var rest := Insert(x, s[1..], f, o);
      PrecedesTotal(x, s[0], f, o);
      HeadPrecedesInsert(s[0], x, s[1..], rest, f, o);
      SortedCons(s[0], rest, f, o);
      [s[0]] + rest
  }

  /** The list handler's `results.sort(...)`: a stable insertion sort, so
      items with equal keys keep their relative order, as in ES2019 and later.
      The result holds the same items and respects the comparator. */
  function SortItems(s: seq<Item>, f: SortField, o: Order): (r: seq<Item>)
    ensures Sorted(r, f, o)
    ensures multiset(r) == multiset(s)
  {
    if s == [] then []
    else
      assert s == [s[0]] + s[1..];
      Insert(s[0], SortItems(s[1..], f, o), f, o)
  }

  /** Read on timestamps: ascending output never goes back in time,
      descending output never goes forward. */
  lemma SortedByCreatedAt(s: seq<Item>, o: Order, i: int, j: int)
    requires Sorted(s, ByCreatedAt, o)
    requires 0 <= i < j < |s|
    ensures o == Asc ==> s[i].createdAt <= s[j].createdAt
    ensures o == Desc ==> s[i].createdAt >= s[j].createdAt
  {
    PrecedesMeaning(s[i], s[j], ByCreatedAt, o);
  }

  /** Read on string keys: ascending output is non-decreasing in the
      lower-cased key, descending output non-increasing. */
  lemma SortedByText(s: seq<Item>, f: SortField, o: Order, i: int, j: int)
    requires f != ByCreatedAt
    requires Sorted(s, f, o)
    requires 0 <= i < j < |s|
    ensures o == Asc ==> !StrLess(KeyOf(s[j], f).s, KeyOf(s[i], f).s)
    ensures o == Desc ==> !StrLess(KeyOf(s[i], f).s, KeyOf(s[j], f).s)
  {
    PrecedesMeaning(s[i], s[j], f, o);
  }
}
