/** The string primitives the item service relies on: JavaScript's
    `String.prototype.trim`, `toLowerCase`, `includes` and the `<` operator on
    strings, restated over `seq<char>`. */
module Text {

  /** The code points `trim` strips: the WhiteSpace and LineTerminator
      productions of sections 12.2 and 12.3 of ECMA-262. */
  predicate IsSpace(c: char) {
    var n := c as int;
    n == 0x09 || n == 0x0A || n == 0x0B || n == 0x0C || n == 0x0D || n == 0x20
    || n == 0xA0 || n == 0x1680 || (0x2000 <= n <= 0x200A) || n == 0x2028
    || n == 0x2029 || n == 0x202F || n == 0x205F || n == 0x3000 || n == 0xFEFF
  }

  /** Neither end of `s` is white space. */
  predicate Trimmed(s: string) {
    s == [] || (!IsSpace(s[0]) && !IsSpace(s[|s| - 1]))
  }

  /** Every character of `s` is white space (vacuously so for ""). */
  predicate AllSpace(s: string) {
    forall k :: 0 <= k < |s| ==> IsSpace(s[k])
  }

  /** The first index at or after `i` that is not white space, or `|s|`. */
  function SkipSpace(s: string, i: nat): (j: nat)
    requires i <= |s|
    ensures i <= j <= |s|
    ensures forall k :: i <= k < j ==> IsSpace(s[k])
    ensures j == |s| || !IsSpace(s[j])
    decreases |s| - i
  {
    if i < |s| && IsSpace(s[i]) then SkipSpace(s, i + 1) else i
  }

  /** The end of `s[lo..hi]` once its trailing white space is cut off. */
  function SkipSpaceBack(s: string, lo: nat, hi: nat): (j: nat)
    requires lo <= hi <= |s|
    ensures lo <= j <= hi
    ensures forall k :: j <= k < hi ==> IsSpace(s[k])
    ensures j == lo || !IsSpace(s[j - 1])
    decreases hi - lo
  {
    if lo < hi && IsSpace(s[hi - 1]) then SkipSpaceBack(s, lo, hi - 1) else hi
  }

  /** `s` is `r` surrounded by white space only: `r` sits at offset `i` and
      everything before and after it is white space. */
  predicate SpaceMargins(s: string, i: int, r: string) {
    && 0 <= i && i + |r| <= |s| && s[i..i + |r|] == r
    && (forall k :: 0 <= k < i ==> IsSpace(s[k]))
    && (forall k :: i + |r| <= k < |s| ==> IsSpace(s[k]))
  }

  /** JavaScript's `trim`: the result has no white space at either end, it is
      what is left of `s` once white space margins are cut off, it is empty
      exactly when `s` is all white space, and trimmed input is left alone. */
  function Trim(s: string): (r: string)
    ensures Trimmed(r)
    ensures SpaceMargins(s, SkipSpace(s, 0), r)
    ensures r == [] <==> AllSpace(s)
    ensures Trimmed(s) ==> r == s
  {
    var i := SkipSpace(s, 0);
    var j := SkipSpaceBack(s, i, |s|);
    assert i < j ==> s[i..j][0] == s[i] && s[i..j][j - i - 1] == s[j - 1];
    s[i..j]
  }

  /** ASCII upper-case letters map to lower case; every other character is
      kept (the Unicode case mappings of `toLowerCase` are not modelled). */
  function LowerChar(c: char): (d: char)
    ensures !('A' <= d <= 'Z')
    ensures ('A' <= c <= 'Z') || d == c
  {
    if 'A' <= c <= 'Z' then (c as int + 32) as char else c
  }

  /** `toLowerCase`, character by character. */
  function Lower(s: string): (r: string)
    ensures |r| == |s|
    ensures forall k :: 0 <= k < |s| ==> r[k] == LowerChar(s[k])
  {
    if s == [] then [] else [LowerChar(s[0])] + Lower(s[1..])
  }

  /** Lower-casing a slice is slicing the lower-cased string. */
  lemma LowerSlice(s: string, i: int, j: int)
    requires 0 <= i <= j <= |s|
    ensures Lower(s[i..j]) == Lower(s)[i..j]
  {
    var a, b := Lower(s[i..j]), Lower(s)[i..j];
    assert |a| == |b|;
    forall k | 0 <= k < |a| ensures a[k] == b[k] {
      assert s[i..j][k] == s[i + k];
    }
  }

  /** `n` occurs in `h` starting at offset `i`. */
  predicate OccursAt(h: string, n: string, i: int) {
    0 <= i && i + |n| <= |h| && h[i..i + |n|] == n
  }

  /** JavaScript's `h.includes(n)`: scan `h` for a position where `n` starts. */
  function Includes(h: string, n: string): (r: bool)
    ensures n == [] ==> r
    ensures r ==> |n| <= |h|
    decreases |h|
  {
    if |n| <= |h| && h[..|n|] == n then true
    else if h == [] then false
    else Includes(h[1..], n)
  }

  /** `Includes` finds `n` exactly when `n` occurs at some offset of `h`. */
  lemma {:induction false} IncludesIffOccurs(h: string, n: string)
    ensures Includes(h, n) <==> exists i :: OccursAt(h, n, i)
    decreases |h|
  {
    if |n| <= |h| && h[..|n|] == n {
      assert OccursAt(h, n, 0);
    } else if h == [] {
    } else {
      IncludesIffOccurs(h[1..], n);
      if exists i :: OccursAt(h[1..], n, i) {
        var i :| OccursAt(h[1..], n, i);
        assert h[i + 1..i + 1 + |n|] == h[1..][i..i + |n|];
        assert OccursAt(h, n, i + 1);
      }
      if exists i :: OccursAt(h, n, i) {
        var i :| OccursAt(h, n, i);
        assert i != 0 by {
          assert h[0..|n|] == h[..|n|];
        }
        assert h[1..][i - 1..i - 1 + |n|] == h[i..i + |n|];
        assert OccursAt(h[1..], n, i - 1);
      }
    }
  }

  /** The source's `includesInsensitive`: both sides lower-cased, then `includes`. */
  function IncludesInsensitive(haystack: string, needle: string): (r: bool)
    ensures needle == [] ==> r
    ensures Lower(haystack) == Lower(needle) ==> r
    ensures r ==> |needle| <= |haystack|
  {
    Includes(Lower(haystack), Lower(needle))
  }

  /** `needle` occurs in `haystack` at offset `i` when case is ignored. */
  predicate OccursInsensitiveAt(haystack: string, needle: string, i: int) {
    0 <= i && i + |needle| <= |haystack| && Lower(haystack[i..i + |needle|]) == Lower(needle)
  }

  /** The case-insensitive search matches exactly when some window of the
      haystack equals the needle up to case. */
  lemma IncludesInsensitiveIff(haystack: string, needle: string)
    ensures IncludesInsensitive(haystack, needle)
            <==> exists i :: OccursInsensitiveAt(haystack, needle, i)
  {
    var h, n := Lower(haystack), Lower(needle);
    IncludesIffOccurs(h, n);
    forall i | 0 <= i && i + |needle| <= |haystack|
      ensures OccursAt(h, n, i) <==> OccursInsensitiveAt(haystack, needle, i)
    {
      LowerSlice(haystack, i, i + |needle|);
    }
    if exists i :: OccursInsensitiveAt(haystack, needle, i) {
      var i :| OccursInsensitiveAt(haystack, needle, i);
      assert OccursAt(h, n, i);
    }
  }

  /** JavaScript's `a < b` on strings: lexicographic, a proper prefix first. */
  predicate StrLess(a: string, b: string)
    decreases |a|
  {
    if a == [] then b != []
    else if b == [] then false
    else if a[0] != b[0] then a[0] < b[0]
    else StrLess(a[1..], b[1..])
  }

  lemma {:induction false} StrLessIrreflexive(a: string)
    ensures !StrLess(a, a)
    decreases |a|
  {
    if a != [] {
      StrLessIrreflexive(a[1..]);
    }
  }

  lemma {:induction false} StrLessTransitive(a: string, b: string, c: string)
    requires StrLess(a, b) && StrLess(b, c)
    ensures StrLess(a, c)
    decreases |a|
  {
    if a != [] && b != [] && c != [] && a[0] == b[0] && b[0] == c[0] {
      StrLessTransitive(a[1..], b[1..], c[1..]);
    }
  }

  lemma {:induction false} StrLessTotal(a: string, b: string)
    requires a != b
    ensures StrLess(a, b) || StrLess(b, a)
    decreases |a|
  {
    if a != [] && b != [] && a[0] == b[0] {
      assert a == [a[0]] + a[1..] && b == [b[0]] + b[1..];
      StrLessTotal(a[1..], b[1..]);
    }
  }
}
