/** `_parsePath`, `_parseQuery` and `_parseHash`: the scanners for what
    follows the authority. Each is a state transformer on `Fields`; the
    class `Url` runs their loops and is proved against them. */
module Components {
  import opened JsText
  import opened Tables
  import opened UrlState
  import opened Escaping

  /** The loop shared by `_parsePath` and `_parseQuery` from index `i` on:
      it stops at the first '#' (or, for the path, the first '?') and sets
      the escape flag when it passes an auto-escape character (the 128-entry
      table has no entry from 128 on, so no code unit there sets it). */
  function ComponentScan(s: Text, end: int, i: nat, stopAtQuery: bool, escape: bool): (r: (nat, bool))
    requires i <= end + 1 && end < |s|
    ensures i <= r.0 <= end + 1
    ensures r.0 <= end ==> s[r.0] == 35 || (stopAtQuery && s[r.0] == 63)
    decreases end + 1 - i
  {
    if i > end then (i, escape)
    else
      var ch := s[i];
      if ch == 35 || (stopAtQuery && ch == 63) then (i, escape)
      else ComponentScan(s, end, i + 1, stopAtQuery, escape || (ch < 128 && IsAutoEscapeChar(ch)))
  }

  /** The scan stops at the first '#' (or '?' for the path), and its flag
      says whether it passed an auto-escape character. */
  lemma {:induction false} ComponentScanMeaning(s: Text, end: int, i: nat, stopAtQuery: bool, escape: bool)
    requires i <= end + 1 && end < |s|
    ensures var r := ComponentScan(s, end, i, stopAtQuery, escape);
      && (forall k :: i <= k < r.0 ==> s[k] != 35 && !(stopAtQuery && s[k] == 63))
      && r.1 == (escape || exists k :: i <= k < r.0 && IsAutoEscapeChar(s[k]))
    decreases end + 1 - i
  {
    if i <= end && !(s[i] == 35 || (stopAtQuery && s[i] == 63)) {
      ComponentScanMeaning(s, end, i + 1, stopAtQuery, escape || (s[i] < 128 && IsAutoEscapeChar(s[i])));
    }
  }

  /** The text a component keeps of `s[lo..hi]`: the escaped copy when the
      scan met an auto-escape character, else the plain slice. */
  function ComponentText(s: Text, lo: nat, hi: nat, escape: bool): Text
    requires lo <= hi <= |s|
  {
    if escape then Escaped(s[lo..hi]) else s[lo..hi]
  }

  /** The fragment `_parseHash(str, start, end)` stores: empty for a span
      of fewer than two code units (`start >= end`), otherwise '#' and the
      escaped span. */
  function HashText(s: Text, start: nat, end: int): (r: Text)
    requires start <= end + 1 && end < |s|
    ensures r == [] || r[0] == 35
  {
    if start >= end then [] else [35] + Escaped(s[start..end + 1])
  }

  /** `_parseHash(str, start, end)`. */
  function HashSpec(f: Fields, s: Text, start: nat, end: int): (f': Fields)
    requires start <= end + 1 && end < |s|
  {
    f.(hash := HashText(s, start, end))
  }

  /** The query `_parseQuery` keeps of `s[start..stop]`: "" for an empty
      span. */
  function QueryText(s: Text, start: nat, stop: nat, escape: bool): Text
    requires start <= stop <= |s|
  {
    if start > stop - 1 then [] else ComponentText(s, start, stop, escape)
  }

  /** The `search` that `_parseQuery` stores: "" for an empty span, else
      "?" and the query. */
  function SearchText(s: Text, start: nat, stop: nat, escape: bool): Text
    requires start <= stop <= |s|
  {
    if start > stop - 1 then [] else [63] + ComponentText(s, start, stop, escape)
  }

  /** The `pathname` that `_parsePath` stores: "/" for an empty span, else
      "/" and the path. */
  function PathnameText(s: Text, start: nat, stop: nat, escape: bool): Text
    requires start <= stop <= |s|
  {
    if start > stop - 1 then [47] else [47] + ComponentText(s, start, stop, escape)
  }

  /** `_parseQuery(str, start, end)`: the query runs up to the first '#',
      where `_parseHash` takes over. */
  function QuerySpec(f: Fields, s: Text, start: nat, end: int): (f': Fields)
    requires start <= end + 1 && end < |s|
  {
    var (stop, escape) := ComponentScan(s, end, start, false, false);
    f.(search := SearchText(s, start, stop, escape),
       query := Some(QueryText(s, start, stop, escape)),
       hash := if stop <= end then HashText(s, stop + 1, end) else f.hash)
  }

  /** `_parsePath(str, start, end)`: the path runs up to the first '#' or
      '?', where `_parseHash` or `_parseQuery` takes over. */
  function PathSpec(f: Fields, s: Text, start: nat, end: int): (f': Fields)
    requires start <= end + 1 && end < |s|
  {
    var (stop, escape) := ComponentScan(s, end, start, true, false);
    PathHandOff(f, s, stop, end).(pathname := PathnameText(s, start, stop, escape))
  }

  /** Where the path scan stopped at `stop`: at a '#' `_parseHash`, at a
      '?' `_parseQuery` takes over from the next index. */
  function PathHandOff(f: Fields, s: Text, stop: nat, end: int): Fields
    requires stop <= end + 1 && end < |s|
  {
    if stop > end then f
    else if s[stop] == 35 then HashSpec(f, s, stop + 1, end)
    else QuerySpec(f, s, stop + 1, end)
  }

  // ---------------------------------------------------------------------
  // Properties

  /** The fragment is empty exactly for a span shorter than two code
      units; otherwise it is '#' and the escaped span, which holds no
      auto-escape character. Only `hash` changes. */
  lemma HashMeaning(f: Fields, s: Text, start: nat, end: int)
    requires start <= end + 1 && end < |s|
    ensures var f' := HashSpec(f, s, start, end);
      && f' == f.(hash := f'.hash)
      && (f'.hash == [] <==> start >= end)
      && (start < end ==>
            f'.hash[0] == 35 && f'.hash[1..] == Escaped(s[start..end + 1]) &&
            forall k :: 1 <= k < |f'.hash| ==> Kept(f'.hash[k]))
  {
    if start < end {
      var e := Escaped(s[start..end + 1]);
      EscapedIsClean(s[start..end + 1]);
      assert ([35] + e)[1..] == e;
      forall k | 1 <= k < |[35] + e| ensures Kept(([35] + e)[k]) {
        assert ([35] + e)[k] == e[k - 1];
      }
    }
  }

  /** On a span of ASCII code units the text a component keeps is the
      escaped span, whichever way the flag went: without an auto-escape
      character the escaped copy is the span itself. */
  lemma ComponentTextIsEscaped(s: Text, lo: nat, hi: nat, escape: bool)
    requires lo <= hi <= |s|
    requires escape == exists k :: lo <= k < hi && IsAutoEscapeChar(s[k])
    requires forall k :: lo <= k < hi ==> s[k] < 128
    ensures ComponentText(s, lo, hi, escape) == Escaped(s[lo..hi])
  {
    if !escape {
      var t := s[lo..hi];
      forall k | 0 <= k < |t| ensures Kept(t[k]) {
        assert t[k] == s[lo + k];
      }
      EscapedUnchanged(t);
    }
  }

  /** A non-empty span keeps a non-empty text. */
  lemma ComponentTextNotEmpty(s: Text, lo: nat, hi: nat, escape: bool)
    requires lo < hi <= |s|
    ensures |ComponentText(s, lo, hi, escape)| >= hi - lo
  {
    EscapedNotShorter(s[lo..hi]);
  }

  /** The query text and `search` of a span: `search` is what
      `_queryToSearch` makes of the query, and is "" exactly for an empty
      span. */
  lemma SearchTextMeaning(s: Text, start: nat, stop: nat, escape: bool)
    requires start <= stop <= |s|
    ensures QueryText(s, start, stop, escape) ==
      if start < stop then ComponentText(s, start, stop, escape) else []
    ensures SearchText(s, start, stop, escape) == QueryToSearch(Some(QueryText(s, start, stop, escape)))
    ensures SearchText(s, start, stop, escape) == [] <==> start == stop
  {
    if start < stop {
      ComponentTextNotEmpty(s, start, stop, escape);
    }
  }

  /** `pathname` always starts with '/', is exactly "/" for an empty span,
      and is "/" and the span's text otherwise. */
  lemma PathnameTextMeaning(s: Text, start: nat, stop: nat, escape: bool)
    requires start <= stop <= |s|
    ensures var p := PathnameText(s, start, stop, escape);
      && |p| > 0 && p[0] == 47
      && (p == [47] <==> start == stop)
      && (start < stop ==> p[1..] == ComponentText(s, start, stop, escape))
  {
    if start < stop {
      ComponentTextNotEmpty(s, start, stop, escape);
      var t := ComponentText(s, start, stop, escape);
      assert ([47] + t)[1..] == t;
    }
  }

  /** The query: it stops at the first '#'; `query` is its text and `search`
      is what `_queryToSearch` makes of it, "" exactly for an empty query;
      the fragment is parsed from after the '#'. */
  lemma QueryMeaning(f: Fields, s: Text, start: nat, end: int)
    requires start <= end + 1 && end < |s|
    ensures var f' := QuerySpec(f, s, start, end);
      var r := ComponentScan(s, end, start, false, false);
      && f'.query == Some(if start < r.0 then ComponentText(s, start, r.0, r.1) else [])
      && f'.search == QueryToSearch(f'.query)
      && (f'.search == [] <==> start == r.0)
      && f'.hash == (if r.0 <= end then HashText(s, r.0 + 1, end) else f.hash)
  {
    var r := ComponentScan(s, end, start, false, false);
    SearchTextMeaning(s, start, r.0, r.1);
  }

  /** `_parseQuery` changes `search`, `query` and `hash` only. */
  lemma QueryFrame(f: Fields, s: Text, start: nat, end: int)
    requires start <= end + 1 && end < |s|
    ensures var f' := QuerySpec(f, s, start, end);
      f' == f.(search := f'.search, query := f'.query, hash := f'.hash)
  {
  }

  /** The path: it stops at the first '#' or '?'; `pathname` always starts
      with '/' and is exactly "/" for an empty path, else "/" and the path's
      text; what follows is handed to `_parseHash` or `_parseQuery`, and
      nothing else but `pathname` changes. */
  lemma PathMeaning(f: Fields, s: Text, start: nat, end: int)
    requires start <= end + 1 && end < |s|
    ensures var f' := PathSpec(f, s, start, end);
      var r := ComponentScan(s, end, start, true, false);
      && |f'.pathname| > 0 && f'.pathname[0] == 47
      && (f'.pathname == [47] <==> start == r.0)
      && (start < r.0 ==> f'.pathname[1..] == ComponentText(s, start, r.0, r.1))
      && (r.0 > end ==> f' == f.(pathname := f'.pathname))
      && (r.0 <= end && s[r.0] == 35 ==> f' == HashSpec(f, s, r.0 + 1, end).(pathname := f'.pathname))
      && (r.0 <= end && s[r.0] == 63 ==> f' == QuerySpec(f, s, r.0 + 1, end).(pathname := f'.pathname))
  {
    var r := ComponentScan(s, end, start, true, false);
    PathnameTextMeaning(s, start, r.0, r.1);
  }

  /** The three scanners keep `Consistent`. */
  lemma HashKeepsConsistent(f: Fields, s: Text, start: nat, end: int)
    requires start <= end + 1 && end < |s| && Consistent(f)
    ensures Consistent(HashSpec(f, s, start, end))
  {
  }

  lemma QueryKeepsConsistent(f: Fields, s: Text, start: nat, end: int)
    requires start <= end + 1 && end < |s| && Consistent(f)
    ensures Consistent(QuerySpec(f, s, start, end))
  {
    var (stop, escape) := ComponentScan(s, end, start, false, false);
    SearchTextMeaning(s, start, stop, escape);
  }

  /** A new `pathname` that starts with '/' keeps `Consistent`. */
  lemma NewPathnameConsistent(g: Fields, p: Text)
    requires Consistent(g) && |p| > 0 && p[0] == 47
    ensures Consistent(g.(pathname := p))
  {
  }

  lemma PathKeepsConsistent(f: Fields, s: Text, start: nat, end: int)
    requires start <= end + 1 && end < |s| && Consistent(f)
    ensures Consistent(PathSpec(f, s, start, end))
  {
    var r := ComponentScan(s, end, start, true, false);
    var p := PathnameText(s, start, r.0, r.1);
    PathnameTextMeaning(s, start, r.0, r.1);
    if r.0 > end {
      NewPathnameConsistent(f, p);
    } else if s[r.0] == 35 {
      HashKeepsConsistent(f, s, r.0 + 1, end);
      NewPathnameConsistent(HashSpec(f, s, r.0 + 1, end), p);
    } else {
      QueryKeepsConsistent(f, s, r.0 + 1, end);
      NewPathnameConsistent(QuerySpec(f, s, r.0 + 1, end), p);
    }
  }
}
