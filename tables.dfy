/** The fixed 128-entry lookup tables: `makeAsciiTable`, the host-ending
    characters, the auto-escape characters and the auto-escape map. */
module Tables {
  import opened JsText

  /** An entry of the list given to `makeAsciiTable`: one code, or an
      inclusive range of codes. */
  datatype TableItem = Code(c: int) | Span(lo: int, hi: int)

  predicate Covers(item: TableItem, k: int)
  {
    match item
    case Code(c) => k == c
    case Span(lo, hi) => lo <= k <= hi
  }

  /** Whether some item of `spec` marks the code `k`. */
  predicate Listed(spec: seq<TableItem>, k: int)
  {
    |spec| > 0 && (Listed(spec[..|spec| - 1], k) || Covers(spec[|spec| - 1], k))
  }

  /** `makeAsciiTable`: a zero-filled `Uint8Array(128)` with a 1 at every
      listed code; writes outside the 128 entries are dropped, as a typed
      array drops them. */
  method MakeAsciiTable(spec: seq<TableItem>) returns (ret: array<int>)
    ensures fresh(ret) && ret.Length == 128
    ensures forall k :: 0 <= k < 128 ==> ret[k] == if Listed(spec, k) then 1 else 0
  {
    ret := new int[128](_ => 0);
    var n := 0;
    while n < |spec|
      invariant 0 <= n <= |spec|
      invariant forall k :: 0 <= k < 128 ==> ret[k] == if Listed(spec[..n], k) then 1 else 0
    {
      assert spec[..n + 1][..n] == spec[..n];
      match spec[n] {
        case Code(c) =>
          if 0 <= c < 128 {
            ret[c] := 1;
          }
        case Span(lo, hi) =>
          var j := lo;
          while j <= hi
            invariant lo <= j && (j <= hi + 1 || j == lo)
            invariant forall k :: 0 <= k < 128 ==>
              ret[k] == if Listed(spec[..n], k) || lo <= k < j then 1 else 0
          {
            if 0 <= j < 128 {
              ret[j] := 1;
            }
            j := j + 1;
          }
      }
      n := n + 1;
    }
    assert spec[..n] == spec;
  }

  /** `#`, `?` and `/`: the characters that end a userinfo scan. */
  const HOST_ENDING_CODES: seq<int> := [35, 63, 47]

  /** The code units of the `autoEscape` list, in its order (the backquote
      is listed twice). */
  const AUTO_ESCAPE_CODES: seq<int> :=
    [60, 62, 34, 96, 32, 13, 10, 9, 123, 125, 124, 92, 94, 96, 39]

  /** The list `makeAsciiTable` is given for a list of single codes. */
  function CodeItems(codes: seq<int>): (r: seq<TableItem>)
    ensures |r| == |codes|
  {
    seq(|codes|, i requires 0 <= i < |codes| => Code(codes[i]))
  }

  /** A table built from single codes marks exactly the listed codes. */
  lemma {:induction false} ListedCodeItems(codes: seq<int>, k: int)
    ensures Listed(CodeItems(codes), k) <==> k in codes
  {
    if codes != [] {
      var n := |codes|;
      assert CodeItems(codes)[..n - 1] == CodeItems(codes[..n - 1]);
      ListedCodeItems(codes[..n - 1], k);
      assert codes == codes[..n - 1] + [codes[n - 1]];
    }
  }

  predicate IsHostEnding(c: int) { c == 35 || c == 63 || c == 47 }

  /** `< > " ` space CR LF TAB { } | \ ^ '` */
  predicate IsAutoEscapeChar(c: int)
  {
    c == 60 || c == 62 || c == 34 || c == 96 || c == 32 || c == 13 || c == 10 ||
    c == 9 || c == 123 || c == 125 || c == 124 || c == 92 || c == 94 || c == 39
  }

  /** The tables that `makeAsciiTable` builds from the two lists mark exactly
      the host-ending and the auto-escape characters. */
  lemma TablesMatch(k: int)
    requires 0 <= k < 128
    ensures Listed(CodeItems(HOST_ENDING_CODES), k) <==> IsHostEnding(k)
    ensures Listed(CodeItems(AUTO_ESCAPE_CODES), k) <==> IsAutoEscapeChar(k)
  {
    ListedCodeItems(HOST_ENDING_CODES, k);
    ListedCodeItems(AUTO_ESCAPE_CODES, k);
  }

  function HexUpper(d: int): CodeUnit
    requires 0 <= d < 16
  {
    if d < 10 then 48 + d else 55 + d
  }

  /** `%` and two upper-case hexadecimal digits: the percent-encoding of one
      ASCII code, the form both `encodeURIComponent` and `escape` give. */
  function PercentEncoded(c: int): (r: Text)
    requires 0 <= c < 128
    ensures |r| == 3 && r[0] == 37
  {
    [37, HexUpper(c / 16), HexUpper(c % 16)]
  }

  /** The auto-escape map: for each listed character, `encodeURIComponent`
      of it, or `escape` of it where `encodeURIComponent` leaves it alone
      (the quote); both give the percent-encoding. Every other ASCII code
      maps to the empty text. */
  function AutoEscapeMap(c: int): (r: Text)
    requires 0 <= c < 128
    ensures r == [] <==> !IsAutoEscapeChar(c)
  {
    if IsAutoEscapeChar(c) then PercentEncoded(c) else []
  }

  lemma AutoEscapeEntriesBelow64()
    ensures AutoEscapeMap(60) == Lit("%3C") && AutoEscapeMap(62) == Lit("%3E")
    ensures AutoEscapeMap(34) == Lit("%22") && AutoEscapeMap(32) == Lit("%20")
    ensures AutoEscapeMap(13) == Lit("%0D") && AutoEscapeMap(10) == Lit("%0A")
    ensures AutoEscapeMap(9) == Lit("%09") && AutoEscapeMap(39) == Lit("%27")
  {
  }

  lemma AutoEscapeEntriesFrom64()
    ensures AutoEscapeMap(96) == Lit("%60") && AutoEscapeMap(123) == Lit("%7B")
    ensures AutoEscapeMap(125) == Lit("%7D") && AutoEscapeMap(124) == Lit("%7C")
    ensures AutoEscapeMap(92) == Lit("%5C") && AutoEscapeMap(94) == Lit("%5E")
  {
  }

  /** The map as the table of entries it holds: `%3C` for '<', `%3E` for
      '>', and so on, with `%27` for the quote. */
  lemma AutoEscapeTable()
    ensures AutoEscapeMap(60) == Lit("%3C") && AutoEscapeMap(62) == Lit("%3E")
    ensures AutoEscapeMap(34) == Lit("%22") && AutoEscapeMap(96) == Lit("%60")
    ensures AutoEscapeMap(32) == Lit("%20") && AutoEscapeMap(13) == Lit("%0D")
    ensures AutoEscapeMap(10) == Lit("%0A") && AutoEscapeMap(9) == Lit("%09")
    ensures AutoEscapeMap(123) == Lit("%7B") && AutoEscapeMap(125) == Lit("%7D")
    ensures AutoEscapeMap(124) == Lit("%7C") && AutoEscapeMap(92) == Lit("%5C")
    ensures AutoEscapeMap(94) == Lit("%5E") && AutoEscapeMap(39) == Lit("%27")
  {
    AutoEscapeEntriesBelow64();
    AutoEscapeEntriesFrom64();
  }
}
