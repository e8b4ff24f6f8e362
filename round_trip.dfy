/** `format` after `parse`: where the source loses what `parse` read, and a
    `parse` that records the "//" it scanned, as `slashes` is meant to. */
module RoundTrip {
  import opened JsText
  import opened UrlState
  import opened Scheme
  import opened Authority
  import opened Components
  import opened Parse
  import opened Format
  import opened ParseFacts

  /** "foo://a/b" */
  const FOO_WITH_AUTHORITY: Text := [102, 111, 111, 58, 47, 47, 97, 47, 98]
  /** "foo:a/b" */
  const FOO_WITHOUT_SLASHES: Text := [102, 111, 111, 58, 97, 47, 98]
  /** "http://:5" */
  const LONE_PORT: Text := [104, 116, 116, 112, 58, 47, 47, 58, 53]
  /** "http:///" */
  const EMPTY_AUTHORITY: Text := [104, 116, 116, 112, 58, 47, 47, 47]

  /** "foo" */
  const FOO: Text := [102, 111, 111]
  const HOST_A: Text := [97]

  /** The fields `parse("foo://a/b")` leaves on a fresh object. */
  const FOO_FIELDS: Fields := INITIAL.(protocol := FOO, hostname := HOST_A, host := HOST_A, pathname := [47, 98])

  lemma FooScheme()
    ensures TrimStart(FOO_WITH_AUTHORITY) == 0 && TrimEnd(FOO_WITH_AUTHORITY) == 8
    ensures ScanProtocol(FOO_WITH_AUTHORITY, 0, 8, 0, false) == Found(FOO, 4)
  {
    var s := FOO_WITH_AUTHORITY;
    assert SkipLeading(s, 0) == 0;
    assert SkipTrailing(s, 8) == 8;
    assert Slice(s, 0, 3) == FOO;
    assert ScanProtocol(s, 0, 8, 3, false) == Found(FOO, 4);
  }

  lemma FooAuthority(decode: Text -> Option<Text>)
    ensures ParseHostSpec(INITIAL.(protocol := FOO), FOO_WITH_AUTHORITY, 4, 8, decode)
         == (INITIAL.(protocol := FOO, hostname := HOST_A, host := HOST_A), Ok(7))
  {
    var s := FOO_WITH_AUTHORITY;
    var f1 := INITIAL.(protocol := FOO);
    var st0 := InitialScan(f1, 6, 8);
    var st1 := Advance(st0, 97);
    assert HostStep(s, 6, 8, 6, st0, decode) == Next(7, st1);
    assert HostStep(s, 6, 8, 7, st1, decode) == Stop(st1.(hostNameEnd := 6), None);
    HostLoopUnfold(s, 6, 8, 6, st0, decode);
    HostLoopUnfold(s, 6, 8, 7, st1, decode);
    assert HostScanOf(f1, s, 4, 8, decode) == HostLoopEnd(st1.(hostNameEnd := 6), None);
    assert HostnameOf(s, st1.(hostNameEnd := 6)) == HOST_A;
  }

  lemma FooPath()
    ensures DispatchSpec(INITIAL.(protocol := FOO, hostname := HOST_A, host := HOST_A), FOO_WITH_AUTHORITY, 7, 8)
         == (FOO_FIELDS, None)
  {
    var s := FOO_WITH_AUTHORITY;
    assert ComponentScan(s, 8, 9, true, false) == (9, false);
    assert ComponentScan(s, 8, 8, true, false) == (9, false);
    assert PathnameText(s, 8, 9, false) == [47, 98];
  }

  lemma FooParse(decode: Text -> Option<Text>)
    ensures ParseSpec(INITIAL, FOO_WITH_AUTHORITY, decode) == (FOO_FIELDS, None)
  {
    FooScheme();
    assert |JAVASCRIPT| == 10;
    FooAuthority(decode);
    FooPath();
  }

  lemma FooReparse(decode: Text -> Option<Text>)
    ensures ParseSpec(INITIAL, FOO_WITHOUT_SLASHES, decode) == (INITIAL.(protocol := FOO), Some(UnexpectedCharacter))
  {
    var s := FOO_WITHOUT_SLASHES;
    assert SkipLeading(s, 0) == 0;
    assert SkipTrailing(s, 6) == 6;
    assert Slice(s, 0, 3) == FOO;
    assert ScanProtocol(s, 0, 6, 3, false) == Found(FOO, 4);
    assert |JAVASCRIPT| == 10;
  }

  lemma FooFormat(encode: Text -> Option<Text>)
    ensures FormatSpec(FOO_FIELDS, encode) == Ok(FOO_WITHOUT_SLASHES)
  {
    assert !IsSlashProtocol(FOO) by {
      assert |Lit("http")| == 4 && |Lit("https")| == 5 && |Lit("gopher")| == 6;
      assert Lit("file")[0] == 102 && Lit("file")[1] == 105;
      assert Lit("ftp")[0] == 102 && Lit("ftp")[1] == 116;
    }
    assert SchemeText(FOO_FIELDS) == [102, 111, 111, 58];
    assert HostPart(FOO_FIELDS, []) == HOST_A;
    assert QueryToSearch(None) == [];
    assert WithLead([47, 98], 47) == [47, 98] && WithLead([], 63) == [] && WithLead([], 35) == [];
    assert FormatText(FOO_FIELDS, []) == [102, 111, 111, 58] + (HOST_A + ([47, 98] + ([] + [])));
    assert [102, 111, 111, 58] + (HOST_A + ([47, 98] + ([] + []))) == FOO_WITHOUT_SLASHES;
    assert AuthText([], encode) == Some([]);
  }

  /** `parse` never sets `slashes`, and "foo" is not a slash protocol, so
      `format` drops the "//" in front of the host: "foo://a/b" comes back
      as "foo:a/b", which `parse` rejects. */
  lemma FormatDropsSlashes(decode: Text -> Option<Text>, encode: Text -> Option<Text>)
    ensures var (f, e) := ParseSpec(INITIAL, FOO_WITH_AUTHORITY, decode);
      && e == None && !f.slashes
      && f.protocol == FOO && f.hostname == HOST_A && f.host == HOST_A && f.pathname == [47, 98]
      && FormatSpec(f, encode) == Ok(FOO_WITHOUT_SLASHES)
      && ParseSpec(INITIAL, FOO_WITHOUT_SLASHES, decode).1 == Some(UnexpectedCharacter)
  {
    FooParse(decode);
    FooFormat(encode);
    FooReparse(decode);
  }

  /** "http" */
  const HTTP: Text := [104, 116, 116, 112]

  lemma HttpScheme(s: Text)
    requires |s| >= 8 && s[..5] == HTTP + [58]
    ensures TrimStart(s) == 0
    ensures forall end :: 4 <= end < |s| ==> ScanProtocol(s, 0, end, 0, false) == Found(HTTP, 5)
  {
    assert SkipLeading(s, 0) == 0;
    forall end | 4 <= end < |s|
      ensures ScanProtocol(s, 0, end, 0, false) == Found(HTTP, 5)
    {
      assert s[4] == 58 && s[0] == 104 && s[1] == 116 && s[2] == 116 && s[3] == 112;
      assert Slice(s, 0, 4) == HTTP;
      assert ScanProtocol(s, 0, end, 4, false) == Found(HTTP, 5);
      assert ScanProtocol(s, 0, end, 3, false) == Found(HTTP, 5);
      assert ScanProtocol(s, 0, end, 2, false) == Found(HTTP, 5);
      assert ScanProtocol(s, 0, end, 1, false) == Found(HTTP, 5);
    }
  }

  lemma LonePortParse(decode: Text -> Option<Text>)
    ensures ParseSpec(INITIAL, LONE_PORT, decode) == (INITIAL.(protocol := HTTP, port := 5), None)
  {
    var s := LONE_PORT;
    HttpScheme(s);
    assert SkipTrailing(s, 8) == 8;
    assert |JAVASCRIPT| == 10;
    var f1 := INITIAL.(protocol := HTTP);
    var st0 := InitialScan(f1, 7, 8);
    assert DigitRunEnd(s, 8, 8) == 9;
    assert DigitsValue(s[8..9]) == 5 by {
      assert s[8..9] == [53];
      assert [53][..0] == [];
    }
    assert ParsePortSpec(f1, s, 8, 8) == (f1.(port := 5), Ok(1));
    var st1 := st0.(fields := f1.(port := 5), portLength := 1, hostNameEnd := 6);
    assert HostStep(s, 7, 8, 7, st0, decode) == Stop(st1, None);
    HostLoopUnfold(s, 7, 8, 7, st0, decode);
    assert ParseHostSpec(f1, s, 5, 8, decode) == (f1.(port := 5), Ok(8));
  }

  lemma EmptyAuthorityParse(decode: Text -> Option<Text>)
    ensures ParseSpec(INITIAL, EMPTY_AUTHORITY, decode) == (INITIAL.(protocol := HTTP), None)
  {
    var s := EMPTY_AUTHORITY;
    HttpScheme(s);
    assert SkipTrailing(s, 7) == 7;
    assert |JAVASCRIPT| == 10;
    var f1 := INITIAL.(protocol := HTTP);
    var st0 := InitialScan(f1, 7, 7);
    assert HostStep(s, 7, 7, 7, st0, decode) == Stop(st0.(hostNameEnd := 6), None);
    HostLoopUnfold(s, 7, 7, 7, st0, decode);
    assert ParseHostSpec(f1, s, 5, 7, decode) == (f1, Ok(7));
  }

  lemma LonePortFormat(encode: Text -> Option<Text>)
    ensures FormatSpec(INITIAL.(protocol := HTTP, port := 5), encode) == Ok(EMPTY_AUTHORITY)
  {
    var f := INITIAL.(protocol := HTTP, port := 5);
    assert Lit("http") == HTTP;
    assert SchemeText(f) == HTTP + Lit("://");
    assert Lit("://") == [58, 47, 47];
    assert Lit("/") == [47];
    assert HostPart(f, []) == [];
    assert WithLead([47], 47) == [47] && WithLead([], 63) == [] && WithLead([], 35) == [];
    assert QueryToSearch(None) == [];
    assert FormatText(f, []) == (HTTP + [58, 47, 47]) + ([] + ([47] + ([] + [])));
    assert (HTTP + [58, 47, 47]) + ([] + ([47] + ([] + []))) == EMPTY_AUTHORITY;
    assert AuthText([], encode) == Some([]);
  }

  /** A port read without a host name is stored, but `format` writes a port
      only after a host name: "http://:5" comes back as "http:///", which
      parses with no port. */
  lemma FormatDropsLonePort(decode: Text -> Option<Text>, encode: Text -> Option<Text>)
    ensures var (f, e) := ParseSpec(INITIAL, LONE_PORT, decode);
      && e == None && f.port == 5 && f.hostname == [] && f.host == []
      && FormatSpec(f, encode) == Ok(EMPTY_AUTHORITY)
      && ParseSpec(INITIAL, EMPTY_AUTHORITY, decode).0.port == NAN_PORT
  {
    LonePortParse(decode);
    LonePortFormat(encode);
    EmptyAuthorityParse(decode);
  }

  // ---------------------------------------------------------------------
  // Corrected: `parse` records that it scanned an authority

  /** Whether `parse` reaches the authority scan of `_parseHost`: the scheme
      is read, it is not "javascript", and "//" (as `_parseHost` tests it)
      follows. */
  predicate ScansAuthority(s: Text)
  {
    match ScanProtocol(s, TrimStart(s), TrimEnd(s), TrimStart(s), false)
    case Found(name, next) => name != JAVASCRIPT && StartsAuthority(s, next)
    case _ => false
  }

  /** `parse` as intended: as written, and `slashes` set once the authority
      after "//" has been scanned, so that `format` writes the "//" back. */
  function ParseMarkingSlashes(f: Fields, s: Text, decode: Text -> Option<Text>): (Fields, Option<Error>)
  {
    var (g, e) := ParseSpec(f, s, decode);
    (if ScansAuthority(s) then g.(slashes := true) else g, e)
  }

  /** The corrected `parse` differs from the one as written in `slashes`
      alone, which is set exactly when the input had an authority (or was
      already set). */
  lemma MarkingSlashesAgrees(f: Fields, s: Text, decode: Text -> Option<Text>)
    ensures var (g, e) := ParseMarkingSlashes(f, s, decode);
      && e == ParseSpec(f, s, decode).1
      && g == ParseSpec(f, s, decode).0.(slashes := g.slashes)
      && (g.slashes <==> f.slashes || ScansAuthority(s))
  {
    ParseFrame(f, s, decode);
  }

  /** After the corrected `parse` of an input with an authority, `format`
      writes the protocol that was read and then "://". */
  lemma MarkedAuthorityFormatted(f: Fields, s: Text, decode: Text -> Option<Text>, encode: Text -> Option<Text>)
    requires ScansAuthority(s)
    ensures var g := ParseMarkingSlashes(f, s, decode).0;
      && Slashes(g)
      && (FormatSpec(g, encode).Ok? ==>
            var out := FormatSpec(g, encode).value;
            |out| >= |g.protocol| + 3 && out[..|g.protocol| + 3] == g.protocol + [58, 47, 47])
  {
    MarkingSlashesAgrees(f, s, decode);
    SlashedFormat(ParseMarkingSlashes(f, s, decode).0, encode);
  }

  /** With `slashes` set, `format` writes the protocol and then "://". */
  lemma SlashedFormat(g: Fields, encode: Text -> Option<Text>)
    requires g.slashes
    ensures Slashes(g)
    ensures FormatSpec(g, encode).Ok? ==>
      var out := FormatSpec(g, encode).value;
      |out| >= |g.protocol| + 3 && out[..|g.protocol| + 3] == g.protocol + [58, 47, 47]
  {
    assert Lit("://") == [58, 47, 47];
    FormatLayout(g, encode);
  }

  lemma FooScansAuthority()
    ensures ScansAuthority(FOO_WITH_AUTHORITY)
  {
    FooScheme();
    assert |JAVASCRIPT| == 10;
  }

  lemma CorrectedFooParts()
    ensures SchemeText(FOO_FIELDS.(slashes := true)) == FOO + [58, 47, 47]
    ensures HostPart(FOO_FIELDS.(slashes := true), []) == HOST_A
  {
    assert Lit("://") == [58, 47, 47];
  }

  lemma CorrectedFooFormat(encode: Text -> Option<Text>)
    ensures FormatSpec(FOO_FIELDS.(slashes := true), encode) == Ok(FOO_WITH_AUTHORITY)
  {
    var f := FOO_FIELDS.(slashes := true);
    CorrectedFooParts();
    assert WithLead([47, 98], 47) == [47, 98] && WithLead([], 63) == [] && WithLead([], 35) == [];
    assert QueryToSearch(None) == [];
    assert FormatText(f, []) == (FOO + [58, 47, 47]) + (HOST_A + ([47, 98] + ([] + [])));
    assert (FOO + [58, 47, 47]) + (HOST_A + ([47, 98] + ([] + []))) == FOO_WITH_AUTHORITY;
    assert AuthText([], encode) == Some([]);
  }

  /** With the correction, `format` gives "foo://a/b" back, so parsing the
      formatted text restores the same fields. */
  lemma CorrectedRoundTrip(decode: Text -> Option<Text>, encode: Text -> Option<Text>)
    ensures var (f, e) := ParseMarkingSlashes(INITIAL, FOO_WITH_AUTHORITY, decode);
      && e == None && f == FOO_FIELDS.(slashes := true)
      && FormatSpec(f, encode) == Ok(FOO_WITH_AUTHORITY)
      && ParseMarkingSlashes(INITIAL, FormatSpec(f, encode).value, decode) == (f, e)
  {
    FooParse(decode);
    FooScansAuthority();
    CorrectedFooFormat(encode);
  }
}
