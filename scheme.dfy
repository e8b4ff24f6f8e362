/** The first two steps of `parse`: trimming the input and reading the
    scheme up to the first ':'. */
module Scheme {
  import opened JsText

  /** `while (str.charCodeAt(start) <= 32) start++`: the first index from `i`
      on that holds a code unit above 32, or the length when there is none
      (there `charCodeAt` is NaN and the comparison is false). */
  function SkipLeading(s: Text, i: nat): (r: nat)
    requires i <= |s|
    ensures i <= r <= |s|
    ensures forall k :: i <= k < r ==> s[k] <= 32
    ensures r < |s| ==> s[r] > 32
    decreases |s| - i
  {
    if i < |s| && s[i] <= 32 then SkipLeading(s, i + 1) else i
  }

  /** `while (str.charCodeAt(end) <= 32) end--`: the last index up to `j`
      that holds a code unit above 32, or -1. */
  function SkipTrailing(s: Text, j: int): (r: int)
    requires -1 <= j < |s|
    ensures -1 <= r <= j
    ensures forall k :: r < k <= j ==> s[k] <= 32
    ensures r >= 0 ==> s[r] > 32
    decreases j + 1
  {
    if j >= 0 && s[j] <= 32 then SkipTrailing(s, j - 1) else j
  }

  /** The trimmed range is empty exactly for an input of blanks only; then
      `start` is the length and `end` is -1. Otherwise it runs from the first
      to the last code unit above 32. */
  lemma TrimmedRange(s: Text)
    ensures var start := SkipLeading(s, 0); var end := SkipTrailing(s, |s| - 1);
      (start > end <==> forall k :: 0 <= k < |s| ==> s[k] <= 32) &&
      (start > end ==> start == |s| && end == -1) &&
      (start <= end ==> s[start] > 32 && s[end] > 32)
  {
  }

  /** The character class `[a-z.+-]`. */
  predicate IsProtocolChar(c: int)
  {
    97 <= c <= 122 || c == 46 || c == 43 || c == 45
  }

  /** `/^[a-z.+-]+$/.test(p)`. */
  predicate ValidProtocol(p: Text)
  {
    |p| > 0 && forall k :: 0 <= k < |p| ==> IsProtocolChar(p[k])
  }

  /** How `_parseProtocol` ends: it returns -1 (no ':'), throws (the scheme
      does not match), or stores the scheme and returns the index after ':'. */
  datatype SchemeScan = NoColon | BadScheme | Found(name: Text, next: int)

  /** The loop of `_parseProtocol` from index `i` on, with its lowercase
      flag: set by any code unit below 97. */
  function ScanProtocol(s: Text, start: nat, end: int, i: nat, doLowerCase: bool): (r: SchemeScan)
    requires start <= i && end < |s|
    ensures r.Found? ==> ValidProtocol(r.name) && i < r.next <= end + 1 && s[r.next - 1] == 58
    decreases end + 1 - i
  {
    if i > end then NoColon
    else if s[i] == 58 then
      var protocol := Slice(s, start, i);
      var name := if doLowerCase then AsciiLowerText(protocol) else protocol;
      if ValidProtocol(name) then Found(name, i + 1) else BadScheme
    else ScanProtocol(s, start, end, i + 1, doLowerCase || s[i] < 97)
  }

  /** `c` is the first ':' of `s[start..end]`. */
  predicate FirstColon(s: Text, start: int, end: int, c: int)
    requires 0 <= start && end < |s|
  {
    start <= c <= end && s[c] == 58 && forall k :: start <= k < c ==> s[k] != 58
  }

  /** What the scan is bound to give once the first ':' is at `c`. */
  function SchemeAt(s: Text, start: nat, c: nat): SchemeScan
    requires start <= c < |s|
  {
    var name := AsciiLowerText(s[start..c]);
    if ValidProtocol(name) then Found(name, c + 1) else BadScheme
  }

  lemma {:induction false} ScanProtocolFrom(s: Text, start: nat, end: int, i: nat, doLowerCase: bool)
    requires start <= i <= end + 1 && end < |s|
    requires forall k :: start <= k < i ==> s[k] != 58
    requires !doLowerCase ==> forall k :: start <= k < i ==> !IsAsciiUpper(s[k])
    ensures ScanProtocol(s, start, end, i, doLowerCase).NoColon? <==>
      forall k :: i <= k <= end ==> s[k] != 58
    ensures forall c :: FirstColon(s, start, end, c) ==>
      ScanProtocol(s, start, end, i, doLowerCase) == SchemeAt(s, start, c)
    decreases end + 1 - i
  {
    if i <= end {
      if s[i] == 58 {
        forall c | FirstColon(s, start, end, c)
          ensures ScanProtocol(s, start, end, i, doLowerCase) == SchemeAt(s, start, c)
        {
          assert c == i;
          if !doLowerCase {
            AsciiLowerWithoutCapitals(s[start..i]);
          }
        }
      } else {
        ScanProtocolFrom(s, start, end, i + 1, doLowerCase || s[i] < 97);
      }
    }
  }

  /** The scheme step of `parse` as a whole: with no ':' in the trimmed range
      the scan returns -1; otherwise everything is decided at the first ':',
      whose prefix, lowercased, must match `[a-z.+-]+`. */
  lemma SchemeScanMeaning(s: Text, start: nat, end: int)
    requires end < |s|
    ensures ScanProtocol(s, start, end, start, false).NoColon? <==>
      forall k :: start <= k <= end ==> s[k] != 58
    ensures forall c :: FirstColon(s, start, end, c) ==>
      ScanProtocol(s, start, end, start, false) == SchemeAt(s, start, c)
  {
    if start <= end + 1 {
      ScanProtocolFrom(s, start, end, start, false);
    }
  }

  /** A scheme is never empty and never holds a digit or a capital. */
  lemma SchemeHasNoDigit(s: Text, start: nat, end: int)
    requires end < |s|
    ensures var r := ScanProtocol(s, start, end, start, false);
      r.Found? ==>
        (|r.name| > 0 &&
         forall k :: 0 <= k < |r.name| ==> !IsDigit(r.name[k]) && !IsAsciiUpper(r.name[k]))
  {
  }
}
