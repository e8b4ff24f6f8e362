/** `_getComponentEscaped`: the copy of a span in which every code unit with
    an auto-escape entry is replaced by that entry. */
module Escaping {
  import opened JsText
  import opened Tables

  /** `autoEscapeMap[ch]`. The map has 128 entries; for any other code unit
      the lookup is `undefined`, which is not `""`, and `ret += undefined`
      appends the text "undefined". */
  function MapEntry(c: CodeUnit): Text
  {
    if c < 128 then AutoEscapeMap(c) else Lit("undefined")
  }

  /** The code units that the escaping keeps as they are. */
  predicate Kept(c: CodeUnit)
  {
    c < 128 && !IsAutoEscapeChar(c)
  }

  lemma MapEntryEmptyIffKept(c: CodeUnit)
    ensures MapEntry(c) == [] <==> Kept(c)
  {
  }

  /** What a single code unit becomes in the escaped copy: its entry when
      the entry is not `""`, else the code unit itself. */
  function Replacement(c: CodeUnit): Text
  {
    if MapEntry(c) != [] then MapEntry(c) else [c]
  }

  /** The texts `f` gives for the code units of `t`, concatenated in order. */
  function FlatMap(f: CodeUnit -> Text, t: Text): Text
  {
    if t == [] then [] else FlatMap(f, t[..|t| - 1]) + f(t[|t| - 1])
  }

  /** The escaped copy of a whole text. */
  function Escaped(t: Text): Text
  {
    FlatMap(Replacement, t)
  }

  lemma {:induction false} FlatMapAppend(f: CodeUnit -> Text, a: Text, b: Text)
    ensures FlatMap(f, a + b) == FlatMap(f, a) + FlatMap(f, b)
    decreases |b|
  {
    if b == [] {
      assert a + b == a;
    } else {
      var n := |b|;
      assert (a + b)[..|a + b| - 1] == a + b[..n - 1];
      FlatMapAppend(f, a, b[..n - 1]);
    }
  }

  lemma {:induction false} FlatMapIdentity(f: CodeUnit -> Text, t: Text)
    requires forall k :: 0 <= k < |t| ==> f(t[k]) == [t[k]]
    ensures FlatMap(f, t) == t
  {
    if t != [] {
      FlatMapIdentity(f, t[..|t| - 1]);
    }
  }

  lemma {:induction false} FlatMapNotShorter(f: CodeUnit -> Text, t: Text)
    requires forall k :: 0 <= k < |t| ==> |f(t[k])| >= 1
    ensures |FlatMap(f, t)| >= |t|
  {
    if t != [] {
      FlatMapNotShorter(f, t[..|t| - 1]);
    }
  }

  lemma {:induction false} FlatMapKept(f: CodeUnit -> Text, t: Text)
    requires forall k, j :: 0 <= k < |t| && 0 <= j < |f(t[k])| ==> Kept(f(t[k])[j])
    ensures forall j :: 0 <= j < |FlatMap(f, t)| ==> Kept(FlatMap(f, t)[j])
  {
    if t != [] {
      FlatMapKept(f, t[..|t| - 1]);
    }
  }

  lemma ReplacementOfKept(c: CodeUnit)
    ensures Kept(c) <==> Replacement(c) == [c]
  {
    MapEntryEmptyIffKept(c);
  }

  /** A replacement holds nothing that would be escaped again: `%` and
      hexadecimal digits, the letters of "undefined", or a kept unit. */
  lemma ReplacementIsKept(c: CodeUnit)
    ensures |Replacement(c)| >= 1
    ensures forall j :: 0 <= j < |Replacement(c)| ==> Kept(Replacement(c)[j])
  {
    MapEntryEmptyIffKept(c);
  }

  lemma EscapedAppend(a: Text, b: Text)
    ensures Escaped(a + b) == Escaped(a) + Escaped(b)
  {
    FlatMapAppend(Replacement, a, b);
  }

  /** A span without any character to escape comes back unchanged. */
  lemma EscapedUnchanged(t: Text)
    requires forall k :: 0 <= k < |t| ==> Kept(t[k])
    ensures Escaped(t) == t
  {
    forall k | 0 <= k < |t| ensures Replacement(t[k]) == [t[k]] {
      ReplacementOfKept(t[k]);
    }
    FlatMapIdentity(Replacement, t);
  }

  /** Every code unit yields at least one code unit. */
  lemma EscapedNotShorter(t: Text)
    ensures |Escaped(t)| >= |t|
  {
    forall k | 0 <= k < |t| ensures |Replacement(t[k])| >= 1 {
      ReplacementIsKept(t[k]);
    }
    FlatMapNotShorter(Replacement, t);
  }

  /** The escaped copy holds nothing that would be escaped again. */
  lemma EscapedIsClean(t: Text)
    ensures forall k :: 0 <= k < |Escaped(t)| ==> Kept(Escaped(t)[k])
  {
    forall k, j | 0 <= k < |t| && 0 <= j < |Replacement(t[k])|
      ensures Kept(Replacement(t[k])[j])
    {
      ReplacementIsKept(t[k]);
    }
    FlatMapKept(Replacement, t);
  }

  /** Escaping is idempotent. */
  lemma EscapedIdempotent(t: Text)
    ensures Escaped(Escaped(t)) == Escaped(t)
  {
    EscapedIsClean(t);
    EscapedUnchanged(Escaped(t));
  }

  /** The copy of `s[lo..hi]` in which every code unit with a non-empty
      `entry` is replaced by it, by index. */
  function ReplacedRange(entry: CodeUnit -> Text, s: Text, lo: int, hi: int): Text
    requires 0 <= lo <= hi <= |s|
    decreases hi - lo
  {
    if hi == lo then []
    else ReplacedRange(entry, s, lo, hi - 1) + (if entry(s[hi - 1]) != [] then entry(s[hi - 1]) else [s[hi - 1]])
  }

  /** With the auto-escape map as the entries, this is the escaped copy. */
  lemma {:induction false} ReplacedRangeIsEscaped(s: Text, lo: int, hi: int)
    requires 0 <= lo <= hi <= |s|
    ensures ReplacedRange(MapEntry, s, lo, hi) == Escaped(s[lo..hi])
    decreases hi - lo
  {
    if hi > lo {
      ReplacedRangeIsEscaped(s, lo, hi - 1);
      var t := s[lo..hi];
      assert t[..|t| - 1] == s[lo..hi - 1];
    }
  }

  /** Replacing in two parts. */
  lemma {:induction false} ReplacedRangeSplit(entry: CodeUnit -> Text, s: Text, lo: int, mid: int, hi: int)
    requires 0 <= lo <= mid <= hi <= |s|
    ensures ReplacedRange(entry, s, lo, hi) == ReplacedRange(entry, s, lo, mid) + ReplacedRange(entry, s, mid, hi)
    decreases hi - mid
  {
    if hi > mid {
      ReplacedRangeSplit(entry, s, lo, mid, hi - 1);
    }
  }

  /** A range without entries is copied as it is. */
  lemma {:induction false} ReplacedRangeKept(entry: CodeUnit -> Text, s: Text, lo: int, hi: int)
    requires 0 <= lo <= hi <= |s|
    requires forall k :: lo <= k < hi ==> entry(s[k]) == []
    ensures ReplacedRange(entry, s, lo, hi) == s[lo..hi]
    decreases hi - lo
  {
    if hi > lo {
      ReplacedRangeKept(entry, s, lo, hi - 1);
      assert s[lo..hi] == s[lo..hi - 1] + [s[hi - 1]];
    }
  }

  /** The copy up to a run `s[cur..i]` without entries: the copy up to
      `cur`, then the run. */
  lemma ReplacedRangeRun(entry: CodeUnit -> Text, s: Text, start: int, cur: int, i: int)
    requires 0 <= start <= cur <= i <= |s|
    requires forall k :: cur <= k < i ==> entry(s[k]) == []
    ensures ReplacedRange(entry, s, start, i) == ReplacedRange(entry, s, start, cur) + s[cur..i]
  {
    ReplacedRangeSplit(entry, s, start, cur, i);
    ReplacedRangeKept(entry, s, cur, i);
  }

  /** The loop of `_getComponentEscaped` over a table `entry` of
      replacements: it copies the runs between the code units with an entry
      and appends the entry of each such code unit. The run from `cur` not
      yet copied has no entry. The copy of an empty run (`if (cur < i)`) is
      left out as it appends "". */
  method ReplaceRuns(entry: CodeUnit -> Text, s: Text, start: int, end: int) returns (ret: Text)
    requires 0 <= start <= end + 1 <= |s|
    ensures ret == ReplacedRange(entry, s, start, end + 1)
  {
    var cur := start;
    var i := start;
    ret := [];
    while i <= end
      invariant start <= cur <= i <= end + 1
      invariant ret == ReplacedRange(entry, s, start, cur)
      invariant forall k :: cur <= k < i ==> entry(s[k]) == []
    {
      var escaped := entry(s[i]);
      if escaped != [] {
        ReplacedRangeRun(entry, s, start, cur, i);
        ret := ret + s[cur..i] + escaped;
        cur := i + 1;
      }
      i := i + 1;
    }
    ReplacedRangeRun(entry, s, start, cur, i);
    ret := ret + s[cur..i];
  }

  /** `_getComponentEscaped(str, start, end)`: the loop over the
      auto-escape map. */
  method GetComponentEscaped(s: Text, start: int, end: int) returns (ret: Text)
    requires 0 <= start <= end + 1 <= |s|
    ensures ret == Escaped(s[start..end + 1])
  {
    ret := ReplaceRuns(MapEntry, s, start, end);
    ReplacedRangeIsEscaped(s, start, end + 1);
  }
}
