/** Surrogate-safe slicing of src/utils.ts, on sequences of UTF-16 code units. */
module Utf16Slice {
  import opened Base

  newtype CodeUnit = u: int | 0 <= u < 0x1_0000

  predicate IsHighSurrogate(u: CodeUnit) {
    0xD800 <= u <= 0xDBFF
  }

  predicate IsLowSurrogate(u: CodeUnit) {
    0xDC00 <= u <= 0xDFFF
  }

  /** Position `i` lies between the two halves of a surrogate pair. */
  predicate SplitsPair(s: seq<CodeUnit>, i: int) {
    0 < i < |s| && IsHighSurrogate(s[i - 1]) && IsLowSurrogate(s[i])
  }

  function Max(a: int, b: int): (r: int)
    ensures a <= r && b <= r && r in {a, b}
  {
    if a < b then b else a
  }

  function Min(a: int, b: int): (r: int)
    ensures r <= a && r <= b && r in {a, b}
  {
    if a < b then a else b
  }

  /** The bound a `slice` argument stands for: negative ones count from the end. */
  function Bound(n: int, len: nat): (r: nat)
    ensures r <= len
  {
    if n < 0 then Max(len + n, 0) else Min(n, len)
  }

  /** The range the arguments ask for, its bounds put in order. */
  function RequestedRange(len: nat, start: int, end: Option<int>): (r: (nat, nat))
    ensures r.0 <= r.1 <= len
  {
    var from, to := Bound(start, len), if end.None? then len else Bound(end.value, len);
    if to < from then (to, from) else (from, to)
  }

  /** `String.prototype.slice` with non-negative bounds. */
  function Slice(s: seq<CodeUnit>, from: int, to: int): seq<CodeUnit>
    requires 0 <= from <= |s| && 0 <= to <= |s|
  {
    if from <= to then s[from..to] else []
  }

  /** A part of the text that cuts no pair in two; the empty part cuts none. */
  predicate IsSafePart(s: seq<CodeUnit>, from: int, to: int) {
    0 <= from <= to <= |s| && (from < to ==> !SplitsPair(s, from) && !SplitsPair(s, to))
  }

  /** `part` is the longest safe part of the text within the range. */
  ghost predicate IsLongestSafe(s: seq<CodeUnit>, from: int, to: int, part: seq<CodeUnit>) {
    && (exists a, b :: from <= a && b <= to && IsSafePart(s, a, b) && part == s[a..b])
    && forall a, b | from <= a && b <= to && IsSafePart(s, a, b) :: b - a <= |part|
  }

  function SafeFrom(s: seq<CodeUnit>, from: nat): nat {
    if SplitsPair(s, from) then from + 1 else from
  }

  function SafeTo(s: seq<CodeUnit>, to: nat): nat {
    if SplitsPair(s, to) then to - 1 else to
  }

  /** Two pairs never overlap. */
  lemma PairsAreApart(s: seq<CodeUnit>, i: int)
    requires SplitsPair(s, i)
    ensures !SplitsPair(s, i - 1) && !SplitsPair(s, i + 1)
  {
  }

  lemma SliceIsLongest(s: seq<CodeUnit>, from: nat, to: nat)
    requires from <= to <= |s|
    ensures SafeFrom(s, from) <= |s|
    ensures IsLongestSafe(s, from, to, Slice(s, SafeFrom(s, from), SafeTo(s, to)))
  {
    var a, b := SafeFrom(s, from), SafeTo(s, to);
    if SplitsPair(s, from) {
      PairsAreApart(s, from);
    }
    if SplitsPair(s, to) {
      PairsAreApart(s, to);
    }
    if a <= b {
      assert IsSafePart(s, a, b);
    } else {
      assert IsSafePart(s, from, from) && s[from..from] == [];
    }
    forall x, y | from <= x && y <= to && IsSafePart(s, x, y) ensures y - x <= |Slice(s, a, b)| {
      assert x < y && x == from ==> a == from;
      assert x < y && y == to ==> b == to;
    }
  }

  /** The two adjustments of the bounds. */
  method AdjustBounds(input: seq<CodeUnit>, start: nat, end: nat) returns (from: nat, to: nat)
    requires start <= end <= |input|
    ensures from == SafeFrom(input, start) && to == SafeTo(input, end) && from <= |input|
  {
    from, to := start, end;
    var len := |input|;
    if 0 < from < len {
      if IsLowSurrogate(input[from]) && IsHighSurrogate(input[from - 1]) {
        from := from + 1;
      }
    }
    if 0 < to < len {
      if IsHighSurrogate(input[to - 1]) && IsLowSurrogate(input[to]) {
        to := to - 1;
      }
    }
  }

  method SliceUtf16Safe(input: seq<CodeUnit>, start: int, end: Option<int>) returns (r: seq<CodeUnit>)
    ensures var range := RequestedRange(|input|, start, end); IsLongestSafe(input, range.0, range.1, r)
  {
    var len := |input|;
    var from: nat := if start < 0 then Max(len + start, 0) else Min(start, len);
    var to: nat := if end.None? then len else if end.value < 0 then Max(len + end.value, 0) else Min(end.value, len);
    if to < from {
      var tmp := from;
      from := to;
      to := tmp;
    }
    assert (from, to) == RequestedRange(len, start, end);
    SliceIsLongest(input, from, to);
    var safeFrom, safeTo := AdjustBounds(input, from, to);
    r := Slice(input, safeFrom, safeTo);
  }

  /** The result is determined: two longest safe parts of a range are equal. */
  lemma LongestSafeIsUnique(s: seq<CodeUnit>, from: nat, to: nat, p: seq<CodeUnit>, q: seq<CodeUnit>)
    requires from <= to <= |s| && IsLongestSafe(s, from, to, p) && IsLongestSafe(s, from, to, q)
    ensures p == q
  {
    SliceIsLongest(s, from, to);
    LongestIsSlice(s, from, to, p);
    LongestIsSlice(s, from, to, q);
  }

  /** A non-empty safe part of the range lies within the adjusted bounds, and those bounds are safe. */
  lemma SafePartBounds(s: seq<CodeUnit>, from: nat, to: nat, a: int, b: int)
    requires from <= to <= |s| && from <= a < b <= to && IsSafePart(s, a, b)
    ensures SafeFrom(s, from) <= a && b <= SafeTo(s, to) && IsSafePart(s, SafeFrom(s, from), SafeTo(s, to))
  {
    if SplitsPair(s, from) {
      PairsAreApart(s, from);
    }
    if SplitsPair(s, to) {
      PairsAreApart(s, to);
    }
  }

  lemma SameLength(s: seq<CodeUnit>, from: int, to: int, p: seq<CodeUnit>, q: seq<CodeUnit>)
    requires IsLongestSafe(s, from, to, p) && IsLongestSafe(s, from, to, q)
    ensures |p| == |q|
  {
    var a, b :| from <= a && b <= to && IsSafePart(s, a, b) && p == s[a..b];
    var c, d :| from <= c && d <= to && IsSafePart(s, c, d) && q == s[c..d];
  }

  lemma LongestIsSlice(s: seq<CodeUnit>, from: nat, to: nat, p: seq<CodeUnit>)
    requires from <= to <= |s| && IsLongestSafe(s, from, to, p)
    ensures SafeFrom(s, from) <= |s| && p == Slice(s, SafeFrom(s, from), SafeTo(s, to))
  {
    var c, d := SafeFrom(s, from), SafeTo(s, to);
    SliceIsLongest(s, from, to);
    SameLength(s, from, to, p, Slice(s, c, d));
    var a, b :| from <= a && b <= to && IsSafePart(s, a, b) && p == s[a..b];
    assert |Slice(s, c, d)| == b - a;
    if a < b {
      SafePartBounds(s, from, to, a, b);
      assert a == c && b == d;
    }
  }

  // ---------------------------------------------------------------- well-formed text

  /** A surrogate at position `i` has its other half beside it. */
  predicate IsPaired(s: seq<CodeUnit>, i: int)
    requires 0 <= i < |s|
  {
    && (IsHighSurrogate(s[i]) ==> i + 1 < |s| && IsLowSurrogate(s[i + 1]))
    && (IsLowSurrogate(s[i]) ==> i > 0 && IsHighSurrogate(s[i - 1]))
  }

  /** No surrogate stands alone (section 3.9 of the Unicode Standard). */
  predicate IsWellFormed(s: seq<CodeUnit>) {
    forall i | 0 <= i < |s| :: IsPaired(s, i)
  }

  lemma SafeCutIsWellFormed(s: seq<CodeUnit>, a: int, b: int)
    requires IsWellFormed(s) && IsSafePart(s, a, b)
    ensures IsWellFormed(s[a..b])
  {
    forall i | 0 <= i < b - a ensures IsPaired(s[a..b], i) {
      assert IsPaired(s, a + i);
    }
  }

  /** Of well-formed text, the longest safe part is well-formed. */
  lemma SafePartIsWellFormed(s: seq<CodeUnit>, from: nat, to: nat, part: seq<CodeUnit>)
    requires IsWellFormed(s) && IsLongestSafe(s, from, to, part)
    ensures IsWellFormed(part)
  {
    var a, b :| from <= a && b <= to && IsSafePart(s, a, b) && part == s[a..b];
    SafeCutIsWellFormed(s, a, b);
  }

  // ---------------------------------------------------------------- truncation

  /** `truncateUtf16Safe`; the limit may be fractional or negative. */
  method TruncateUtf16Safe(input: seq<CodeUnit>, maxLen: real) returns (r: seq<CodeUnit>)
    ensures var limit := Max(0, maxLen.Floor);
            if |input| <= limit then r == input
            else r == if SplitsPair(input, limit) then input[..limit - 1] else input[..limit]
    ensures |r| <= Max(0, maxLen.Floor)
    ensures IsWellFormed(input) ==> IsWellFormed(r)
  {
    var limit := Max(0, maxLen.Floor);
    if |input| <= limit {
      return input;
    }
    r := SliceUtf16Safe(input, 0, Some(limit));
    LongestIsSlice(input, 0, limit, r);
    if IsWellFormed(input) {
      SafePartIsWellFormed(input, 0, limit, r);
    }
  }

  // ---------------------------------------------------------------- the ranges, told in numbers

  /** High surrogates are the 1024 code units from 0xD800 on, low ones the next 1024. */
  lemma SurrogateRanges(u: CodeUnit)
    ensures IsHighSurrogate(u) <==> u as int / 0x400 == 54
    ensures IsLowSurrogate(u) <==> u as int / 0x400 == 55
  {
  }

  /** Arguments within the text, beyond its end, counted from its end, and beyond its start. */
  lemma BoundsOf(n: int, len: nat)
    ensures 0 <= n <= len ==> Bound(n, len) == n
    ensures len < n ==> Bound(n, len) == len
    ensures n < 0 <= len + n ==> Bound(n, len) == len + n
    ensures len + n < 0 ==> Bound(n, len) == 0
  {
  }

  lemma RangeInOrder(len: nat, a: nat, b: nat)
    requires a <= b <= len
    ensures RequestedRange(len, a, Some(b)) == (a, b) && RequestedRange(len, b, Some(a)) == (a, b)
    ensures RequestedRange(len, a, None) == (a, len)
  {
  }

  /** One code unit is well-formed unless it is a surrogate, and two surrogates when they are a high and a low one. */
  lemma SmallTexts(u: CodeUnit, v: CodeUnit)
    ensures IsWellFormed([u]) <==> !(0xD800 <= u <= 0xDFFF)
    ensures 0xD800 <= u <= 0xDFFF ==> (IsWellFormed([u, v]) <==> u <= 0xDBFF && 0xDC00 <= v <= 0xDFFF)
  {
    assert IsWellFormed([u]) <==> IsPaired([u], 0);
    assert IsWellFormed([u, v]) <==> IsPaired([u, v], 0) && IsPaired([u, v], 1);
  }
}
