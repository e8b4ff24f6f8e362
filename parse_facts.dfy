/** What `parse` as a whole guarantees: how the scheme decides between an
    exception and a stored protocol, which fields it writes, and that it
    keeps the relations of `Consistent`. */
module ParseFacts {
  import opened JsText
  import opened UrlState
  import opened Scheme
  import opened Authority
  import opened Components
  import opened HostResult
  import opened Parse

  /** The dispatch writes only the path, query and fragment fields. */
  lemma DispatchFrame(f: Fields, s: Text, i: nat, end: int)
    requires end < |s|
    ensures var g := DispatchSpec(f, s, i, end).0;
      g == f.(pathname := g.pathname, search := g.search, query := g.query, hash := g.hash)
  {
  }

  /** The dispatch keeps `Consistent`, whichever scanner it picks. */
  lemma DispatchKeepsConsistent(f: Fields, s: Text, i: nat, end: int)
    requires end < |s| && Consistent(f)
    ensures Consistent(DispatchSpec(f, s, i, end).0)
  {
    if i < end {
      if s[i] == 47 {
        PathKeepsConsistent(f, s, i + 1, end);
      } else if s[i] == 63 {
        QueryKeepsConsistent(f, s, i + 1, end);
      }
    }
  }

  /** `parse` writes `_protocol`, the authority fields and the path, query
      and fragment fields; `slashes` and the `_href` cache stay as they
      were, whatever happens. */
  lemma ParseFrame(f: Fields, s: Text, decode: Text -> Option<Text>)
    ensures var g := ParseSpec(f, s, decode).0;
      g == f.(protocol := g.protocol, port := g.port, auth := g.auth, host := g.host,
              hostname := g.hostname, hash := g.hash, search := g.search, query := g.query,
              pathname := g.pathname)
  {
    var start, end := TrimStart(s), TrimEnd(s);
    match ScanProtocol(s, start, end, start, false)
    case NoColon =>
    case BadScheme =>
    case Found(name, next) =>
      var f1 := f.(protocol := name);
      if name != JAVASCRIPT {
        ParseHostFrame(f1, s, next, end, decode);
      }
      var (f2, res) := AfterScheme(f, s, name, next, decode);
      if res.Ok? {
        DispatchFrame(f2, s, res.value, end);
      }
  }

  /** A scheme scan that finds no ':' or a bad scheme makes `parse` throw
      "invalid protocol" with nothing changed; one that finds a scheme
      leaves it as the protocol. */
  lemma ParseSchemeStep(f: Fields, s: Text, decode: Text -> Option<Text>)
    ensures var sc := ScanProtocol(s, TrimStart(s), TrimEnd(s), TrimStart(s), false);
      var r := ParseSpec(f, s, decode);
      (sc.Found? ==> r.0.protocol == sc.name) && (!sc.Found? ==> r == (f, Some(InvalidProtocol)))
  {
    var start, end := TrimStart(s), TrimEnd(s);
    match ScanProtocol(s, start, end, start, false)
    case NoColon =>
    case BadScheme =>
    case Found(name, next) =>
      var f1 := f.(protocol := name);
      if name != JAVASCRIPT {
        ParseHostFrame(f1, s, next, end, decode);
      }
      var (f2, res) := AfterScheme(f, s, name, next, decode);
      assert f2.protocol == name;
      if res.Ok? {
        DispatchFrame(f2, s, res.value, end);
      }
  }

  /** The scheme decides first. With no ':' in the trimmed input, `parse`
      throws "invalid protocol" and changes nothing. Otherwise everything
      hangs on the first ':': if its prefix, with ASCII capitals lowered,
      does not match `[a-z.+-]+`, `parse` throws "invalid protocol" and
      changes nothing; if it does, that lowered prefix is the protocol
      afterwards, whatever the rest of `parse` does. */
  lemma ParseProtocolOutcome(f: Fields, s: Text, decode: Text -> Option<Text>)
    ensures var start, end := TrimStart(s), TrimEnd(s);
      var r := ParseSpec(f, s, decode);
      && ((forall k :: start <= k <= end ==> s[k] != 58) ==> r == (f, Some(InvalidProtocol)))
      && (forall c :: FirstColon(s, start, end, c) ==>
            if ValidProtocol(AsciiLowerText(s[start..c])) then r.0.protocol == AsciiLowerText(s[start..c])
            else r == (f, Some(InvalidProtocol)))
  {
    var start, end := TrimStart(s), TrimEnd(s);
    SchemeScanMeaning(s, start, end);
    ParseSchemeStep(f, s, decode);
  }

  /** Only a scheme spelled "javascript" skips the authority: the authority
      fields stay as they were. */
  lemma JavascriptKeepsAuthority(f: Fields, s: Text, decode: Text -> Option<Text>)
    ensures var start, end := TrimStart(s), TrimEnd(s);
      var r := ParseSpec(f, s, decode);
      ScanProtocol(s, start, end, start, false) == Found(JAVASCRIPT, start + |JAVASCRIPT| + 1) ==>
        r.0.auth == f.auth && r.0.port == f.port && r.0.host == f.host && r.0.hostname == f.hostname
  {
    var start, end := TrimStart(s), TrimEnd(s);
    var f1 := f.(protocol := JAVASCRIPT);
    if ScanProtocol(s, start, end, start, false) == Found(JAVASCRIPT, start + |JAVASCRIPT| + 1) {
      var next := start + |JAVASCRIPT| + 1;
      DispatchFrame(f1, s, next, end);
    }
  }

  /** After a "javascript" scheme the dispatch starts right after the ':',
      so a "javascript:" URL with at least two more code units parses only
      if the first is '/', '?' or '#': "javascript:alert(1)" throws. */
  lemma JavascriptDispatch(f: Fields, s: Text, decode: Text -> Option<Text>)
    ensures var start, end := TrimStart(s), TrimEnd(s);
      var next := start + |JAVASCRIPT| + 1;
      var r := ParseSpec(f, s, decode);
      ScanProtocol(s, start, end, start, false) == Found(JAVASCRIPT, next) ==>
        (r.1.Some? <==> next < end && s[next] != 47 && s[next] != 63 && s[next] != 35) &&
        (r.1.Some? ==> r.1 == Some(UnexpectedCharacter))
  {
  }

  /** `parse` keeps `Consistent`, also where it throws half-way. */
  lemma ParseKeepsConsistent(f: Fields, s: Text, decode: Text -> Option<Text>)
    requires Consistent(f)
    ensures Consistent(ParseSpec(f, s, decode).0)
  {
    var start, end := TrimStart(s), TrimEnd(s);
    match ScanProtocol(s, start, end, start, false)
    case NoColon =>
    case BadScheme =>
    case Found(name, next) =>
      var f1 := f.(protocol := name);
      if name != JAVASCRIPT {
        ParseHostFrame(f1, s, next, end, decode);
      }
      var (f2, res) := AfterScheme(f, s, name, next, decode);
      if res.Ok? {
        DispatchKeepsConsistent(f2, s, res.value, end);
      }
  }

  /** A port must end the input: `_parseHost` hands back the index of the
      last digit of the port, so any code unit after the port makes the
      dispatch throw, and none does not. */
  lemma PortEndsInput(f: Fields, s: Text, start: nat, end: int, decode: Text -> Option<Text>)
    requires -1 <= end < |s| && start <= end + 1 && StartsAuthority(s, start)
    ensures var st := HostScanOf(f, s, start, end, decode).scan;
      var (g, res) := ParseHostSpec(f, s, start, end, decode);
      res.Ok? && st.hostNameEnd < end && s[st.hostNameEnd + 1] == 58 ==>
        && 0 <= res.value <= end && IsDigit(s[res.value])
        && (DispatchSpec(g, s, res.value, end).1 == Some(UnexpectedCharacter) <==> res.value < end)
  {
    ParseHostNext(f, s, start, end, decode);
    var st := HostScanOf(f, s, start, end, decode).scan;
    var (g, res) := ParseHostSpec(f, s, start, end, decode);
    if res.Ok? && st.hostNameEnd < end && s[st.hostNameEnd + 1] == 58 {
      var e := st.hostNameEnd + 2 + st.portLength;
      assert res.value == e - 1;
      assert IsDigit(s[e - 1]);
    }
  }
}
