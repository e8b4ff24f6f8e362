/** The `Url` object: its fields, the scanner methods that `parse` runs
    over them, and the accessors. Every method is proved against the state
    transformer of the same name in `Scheme`, `Authority`, `Components`,
    `Parse` and `Format`. */
module UrlObject {
  import opened JsText
  import opened Tables
  import opened UrlState
  import opened Scheme
  import opened Authority
  import opened Escaping
  import opened Components
  import opened Parse
  import opened Format

  class Url {
    /** `_protocol`: the scheme without its ':'. */
    var protocol: Text
    /** `_href`: the cache of the `href` getter, "" while empty. */
    var href: Text
    /** `_port`: -1 while absent; NaN is -1 as well. */
    var port: int
    var auth: Text
    var slashes: bool
    var host: Text
    var hostname: Text
    var hash: Text
    var search: Text
    /** `None` while JavaScript's `null`. */
    var query: Option<Text>
    var pathname: Text

    /** The fields as one value. */
    function Snapshot(): Fields
      reads this
    {
      Fields(protocol, href, port, auth, slashes, host, hostname, hash, search, query, pathname)
    }

    /** `new Url()`. */
    constructor ()
      ensures Snapshot() == INITIAL
    {
      protocol, href, port := [], [], -1;
      auth, slashes, host, hostname := [], false, [], [];
      hash, search, query, pathname := [], [], None, [47];
    }

    /** `_parseProtocol(str, start, end)`: returns -1 when there is no ':',
        throws on a bad scheme, and otherwise stores the scheme and returns
        the index after the ':'. */
    method ParseProtocol(s: Text, start: nat, end: int) returns (next: int, err: Option<Error>)
      requires end < |s|
      modifies this
      ensures match ScanProtocol(s, start, end, start, false)
        case NoColon => next == -1 && err == None && Snapshot() == old(Snapshot())
        case BadScheme => err == Some(InvalidProtocol) && Snapshot() == old(Snapshot())
        case Found(name, n) => next == n && err == None && Snapshot() == old(Snapshot()).(protocol := name)
    {
      var doLowerCase := false;
      var i := start;
      while i <= end
        invariant start <= i
        invariant ScanProtocol(s, start, end, i, doLowerCase) == ScanProtocol(s, start, end, start, false)
        decreases end + 1 - i
      {
        var ch := s[i];
        if ch == 58 {
          var p := Slice(s, start, i);
          if doLowerCase {
            p := AsciiLowerText(p);
          }
          if !ValidProtocol(p) {
            return -1, Some(InvalidProtocol);
          }
          protocol := p;
          return i + 1, None;
        } else if ch < 97 {
          doLowerCase := true;
        }
        i := i + 1;
      }
      return -1, None;
    }

    /** `_parseAuth(str, start, end, decode)`; `decoder` stands for
        `decodeURIComponent`, `None` for its URIError. */
    method ParseAuth(s: Text, start: nat, end: int, doDecode: bool, decoder: Text -> Option<Text>)
      returns (err: Option<Error>)
      modifies this
      ensures (Snapshot(), err) == ParseAuthSpec(old(Snapshot()), s, start, end, doDecode, decoder)
    {
      var a := Slice(s, start, if end + 1 < 0 then 0 else end + 1);
      if doDecode {
        match decoder(a)
        case None =>
          return Some(MalformedUserinfo);
        case Some(decoded) =>
          a := decoded;
      }
      auth := a;
      return None;
    }

    /** `_parsePort(str, start, end)`: reads the digits from `start` on. */
    method ParsePort(s: Text, start: nat, end: int) returns (r: Result<nat>)
      requires start <= end + 1 && end < |s|
      modifies this
      ensures (Snapshot(), r) == ParsePortSpec(old(Snapshot()), s, start, end)
    {
      var value: int := 0;
      var i := start;
      while i <= end && IsDigit(s[i])
        invariant start <= i <= end + 1
        invariant DigitRunEnd(s, i, end) == DigitRunEnd(s, start, end)
        invariant AllDigits(s[start..i]) && value == DigitsValue(s[start..i])
        decreases end + 1 - i
      {
        assert s[start..i + 1][..i - start] == s[start..i];
        value := 10 * value + (s[i] - 48);
        i := i + 1;
      }
      if value == 0 {
        return Err(InvalidPort);
      }
      port := value;
      return Ok(i - start);
    }

    /** `_parseHash(str, start, end)`. */
    method ParseHash(s: Text, start: nat, end: int)
      requires start <= end + 1 && end < |s|
      modifies this
      ensures Snapshot() == HashSpec(old(Snapshot()), s, start, end)
    {
      if start >= end {
        hash := [];
        return;
      }
      var escaped := GetComponentEscaped(s, start, end);
      hash := [35] + escaped;
    }

    /** The text a component keeps of `s[lo..hi]`: `_getComponentEscaped`
        when the scan met an auto-escape character, else the slice. */
    static method ComponentOf(s: Text, lo: nat, hi: nat, escape: bool) returns (t: Text)
      requires lo <= hi <= |s|
      ensures t == ComponentText(s, lo, hi, escape)
    {
      if escape {
        t := GetComponentEscaped(s, lo, hi - 1);
      } else {
        t := s[lo..hi];
      }
    }

    /** The loop shared by `_parseQuery` and `_parsePath`: the index of the
        first '#' (or, for the path, '?') from `start` on, or `end + 1`, and
        whether an auto-escape character came before it. */
    static method ScanComponent(s: Text, start: nat, end: int, stopAtQuery: bool)
      returns (stop: nat, escape: bool)
      requires start <= end + 1 && end < |s|
      ensures (stop, escape) == ComponentScan(s, end, start, stopAtQuery, false)
    {
      escape := false;
      var i := start;
      while i <= end
        invariant start <= i <= end + 1
        invariant ComponentScan(s, end, i, stopAtQuery, escape) == ComponentScan(s, end, start, stopAtQuery, false)
        decreases end + 1 - i
      {
        var ch := s[i];
        if ch == 35 || (stopAtQuery && ch == 63) {
          break;
        } else if !escape && ch < 128 && IsAutoEscapeChar(ch) {
          escape := true;
        }
        i := i + 1;
      }
      stop := i;
    }

    /** `_parseQuery(str, start, end)`; the '#' that ends the loop hands
        over to `_parseHash`. */
    method ParseQuery(s: Text, start: nat, end: int)
      requires start <= end + 1 && end < |s|
      modifies this
      ensures Snapshot() == QuerySpec(old(Snapshot()), s, start, end)
    {
      var stop, escape := ScanComponent(s, start, end, false);
      ghost var f0 := old(Snapshot());
      if stop <= end {
        ParseHash(s, stop + 1, end);
      }
      assert Snapshot() == f0.(hash := if stop <= end then HashText(s, stop + 1, end) else f0.hash);
      var queryEnd := stop - 1;
      if start > queryEnd {
        search := [];
        query := Some([]);
        return;
      }
      var q := ComponentOf(s, start, stop, escape);
      search := [63] + q;
      query := Some(q);
      assert q == QueryText(s, start, stop, escape) && search == SearchText(s, start, stop, escape);
    }

    /** `_parsePath(str, start, end)`; the '#' or '?' that ends the loop
        hands over to `_parseHash` or `_parseQuery`. */
    method ParsePath(s: Text, start: nat, end: int)
      requires start <= end + 1 && end < |s|
      modifies this
      ensures Snapshot() == PathSpec(old(Snapshot()), s, start, end)
    {
      var stop, escape := ScanComponent(s, start, end, true);
      ghost var f0 := old(Snapshot());
      if stop <= end {
        if s[stop] == 35 {
          ParseHash(s, stop + 1, end);
        } else {
          ParseQuery(s, stop + 1, end);
        }
      }
      assert Snapshot() == PathHandOff(f0, s, stop, end);
      var pathEnd := stop - 1;
      if start > pathEnd {
        pathname := [47];
        return;
      }
      var path := ComponentOf(s, start, stop, escape);
      pathname := [47] + path;
      assert pathname == PathnameText(s, start, stop, escape);
    }

    /** The inner loop of `_parseHost` started by the '@' at `i`: it moves
        to every later '@', notes a '%', and stops at a host-ending
        character. Returns the last '@', the decode flag and the last code
        unit read. */
    static method ScanUserinfo(s: Text, end: int, i: nat) returns (at: nat, doDecode: bool, lastRead: int)
      requires i <= end < |s| && s[i] == 64
      ensures AuthScanEnd(at, doDecode, lastRead) == AuthScan(s, end, i + 1, i, false, s[i])
    {
      at, doDecode, lastRead := i, false, s[i];
      var j := i + 1;
      while j <= end
        invariant at < j <= end + 1 && s[at] == 64
        invariant forall k :: at < k < j ==> s[k] != 64 && !IsHostEnding(s[k])
        invariant AuthScan(s, end, j, at, doDecode, lastRead) == AuthScan(s, end, i + 1, i, false, s[i])
        decreases end + 1 - j
      {
        AuthScanUnfold(s, end, j, at, doDecode, lastRead);
        var ch := s[j];
        lastRead := ch;
        if ch == 64 {
          at := j;
        } else if ch == 37 {
          doDecode := true;
        } else if ch < 128 && IsHostEnding(ch) {
          break;
        }
        j := j + 1;
      }
    }

    /** The branches of the loop of `_parseHost` for a code unit `ch` other
        than '@' and ':', up to `lastCh = ch; charsAfterDot++`: whether the
        host name ends before `ch`, the exception for a misplaced '.', and
        the new flags and counter. */
    static method HostChar(ch: int, lastCh: int, charsAfterDot: int, doLowerCase: bool, idna: bool)
      returns (stop: bool, err: Option<Error>, doLowerCase': bool, idna': bool, charsAfterDot': int)
      requires 0 <= ch < 0x1_0000
      ensures stop || err.Some? ==>
        doLowerCase' == doLowerCase && idna' == idna && charsAfterDot' == charsAfterDot
      ensures forall i: nat, st: HostScan ::
        st.lastCh == lastCh && st.charsAfterDot == charsAfterDot && st.doLowerCase == doLowerCase &&
        st.idna == idna ==>
          CharStep(i, st, ch) ==
            if err.Some? then Stop(st, err)
            else if stop then Stop(st.(hostNameEnd := i - 1), None)
            else Next(i + 1, Advance(st.(doLowerCase := doLowerCase', idna := idna', charsAfterDot := charsAfterDot'), ch))
    {
      stop, err, doLowerCase', idna', charsAfterDot' := false, None, doLowerCase, idna, charsAfterDot;
      if ch < 97 {
        if ch == 46 {
          if lastCh == 46 || lastCh == -1 {
            err := Some(MisplacedDot);
            return;
          }
          charsAfterDot' := -1;
        } else if 65 <= ch <= 90 {
          doLowerCase' := true;
        } else if !(ch == 45 || ch == 95 || (48 <= ch <= 57)) {
          stop := true;
        }
      } else if ch >= 0x7B {
        if ch <= 0x7E {
          stop := true;
          return;
        }
        idna' := true;
      }
    }

    /** The '@' branch of the loop of `_parseHost`: the inner loop finds the
        last '@' before the next host-ending character, at `at`, and the
        userinfo before it is stored; `lastRead` is the code unit the inner
        loop read last. */
    method ReadUserinfo(s: Text, a: nat, end: int, i: nat, ghost st: HostScan,
                        decoder: Text -> Option<Text>)
      returns (at: nat, lastRead: int, err: Option<Error>)
      requires a <= i <= end < |s| && s[i] == 64 && st.fields == Snapshot()
      modifies this
      ensures var st1 := st.(authParsed := true, fields := Snapshot());
        AtStep(s, a, end, i, st, decoder) ==
          if err.Some? then Stop(st1, err)
          else Next(at + 1, Advance(st1.(hostNameStart := at + 1), lastRead))
    {
      var doDecode;
      at, doDecode, lastRead := ScanUserinfo(s, end, i);
      err := ParseAuth(s, a, at - 1, doDecode, decoder);
    }

    /** One pass of the loop body of `_parseHost` at index `i`, on the local
        variables of `_parseHost`: `stop` is set when the loop ends here,
        by `break` or by a throw (then `err` is set). */
    method ScanStep(s: Text, a: nat, end: int, i: nat, authParsed: bool, doLowerCase: bool, idna: bool,
                    hostNameStart: nat, hostNameEnd: int, lastCh: int, portLength: nat,
                    charsAfterDot: int, decoder: Text -> Option<Text>)
      returns (i': nat, authParsed': bool, doLowerCase': bool, idna': bool, hostNameStart': nat,
               hostNameEnd': int, lastCh': int, portLength': nat, charsAfterDot': int,
               stop: bool, err: Option<Error>)
      requires a <= i <= end < |s|
      modifies this
      ensures !stop ==> err == None
      ensures HostStep(s, a, end, i, HostScan(authParsed, doLowerCase, idna, hostNameStart, hostNameEnd,
                                             lastCh, portLength, charsAfterDot, old(Snapshot())), decoder) ==
        var st' := HostScan(authParsed', doLowerCase', idna', hostNameStart', hostNameEnd',
                            lastCh', portLength', charsAfterDot', Snapshot());
        if stop then Stop(st', err) else Next(i', st')
    {
      i', authParsed', doLowerCase', idna', hostNameStart' := i, authParsed, doLowerCase, idna, hostNameStart;
      hostNameEnd', lastCh', portLength', charsAfterDot' := hostNameEnd, lastCh, portLength, charsAfterDot;
      stop, err := true, None;
      ghost var st := HostScan(authParsed, doLowerCase, idna, hostNameStart, hostNameEnd,
                               lastCh, portLength, charsAfterDot, Snapshot());
      if charsAfterDot > 63 {
        err := Some(LabelTooLong);
        return;
      }
      var ch: int := s[i];
      if ch == 64 {
        if authParsed {
          err := Some(DuplicateUserinfo);
          return;
        }
        authParsed' := true;
        i', ch, err := ReadUserinfo(s, a, end, i, st, decoder);
        if err.Some? {
          return;
        }
        hostNameStart' := i' + 1;
      } else if ch == 58 {
        var pr := ParsePort(s, i + 1, end);
        if pr.Err? {
          err := Some(pr.error);
          return;
        }
        portLength' := pr.value;
        hostNameEnd' := i - 1;
        return;
      } else {
        assert HostStep(s, a, end, i, st, decoder) == CharStep(i, st, ch);
        var halt;
        halt, err, doLowerCase', idna', charsAfterDot' := HostChar(ch, lastCh, charsAfterDot, doLowerCase, idna);
        if err.Some? {
          return;
        }
        if halt {
          hostNameEnd' := i - 1;
          return;
        }
      }
      lastCh' := ch;
      charsAfterDot' := charsAfterDot' + 1;
      i' := i' + 1;
      stop := false;
    }

    /** The loop of `_parseHost` from `a`, the index just past "//", with
        its local variables as out-parameters; an exception ends it at
        once, with `err` set. */
    method ScanHost(s: Text, a: nat, end: int, decoder: Text -> Option<Text>)
      returns (authParsed: bool, doLowerCase: bool, idna: bool, hostNameStart: nat, hostNameEnd: int,
               lastCh: int, portLength: nat, charsAfterDot: int, err: Option<Error>)
      requires -1 <= end < |s|
      modifies this
      ensures HostLoop(s, a, end, a, InitialScan(old(Snapshot()), a, end), decoder) ==
        HostLoopEnd(HostScan(authParsed, doLowerCase, idna, hostNameStart, hostNameEnd,
                             lastCh, portLength, charsAfterDot, Snapshot()), err)
    {
      authParsed, doLowerCase, idna := false, false, false;
      hostNameStart, hostNameEnd, lastCh := a, end, -1;
      portLength, charsAfterDot, err := 0, 0, None;
      ghost var goal := HostLoop(s, a, end, a, InitialScan(old(Snapshot()), a, end), decoder);
      var i := a;
      while i <= end
        invariant a <= i && hostNameEnd == end && err == None
        invariant HostLoop(s, a, end, i, HostScan(authParsed, doLowerCase, idna, hostNameStart, hostNameEnd,
                                                  lastCh, portLength, charsAfterDot, Snapshot()), decoder) == goal
        decreases end + 1 - i
      {
        ghost var st := HostScan(authParsed, doLowerCase, idna, hostNameStart, hostNameEnd,
                                 lastCh, portLength, charsAfterDot, Snapshot());
        HostLoopUnfold(s, a, end, i, st, decoder);
        var stop;
        i, authParsed, doLowerCase, idna, hostNameStart, hostNameEnd, lastCh, portLength, charsAfterDot, stop, err :=
          ScanStep(s, a, end, i, authParsed, doLowerCase, idna, hostNameStart, hostNameEnd,
                   lastCh, portLength, charsAfterDot, decoder);
        if stop {
          return;
        }
      }
    }

    /** `_parseHost(str, start, end)`: returns the index `parse` goes on
        from, or the exception. */
    method ParseHost(s: Text, start: nat, end: int, decoder: Text -> Option<Text>) returns (r: Result<int>)
      requires -1 <= end < |s| && start <= end + 1
      modifies this
      ensures (Snapshot(), r) == ParseHostSpec(old(Snapshot()), s, start, end, decoder)
    {
      if !StartsAuthority(s, start) {
        return Ok(start);
      }
      var a := start + 2;
      var authParsed, doLowerCase, idna, hostNameStart, hostNameEnd, lastCh, portLength, charsAfterDot, err :=
        ScanHost(s, a, end, decoder);
      ghost var st := HostScan(authParsed, doLowerCase, idna, hostNameStart, hostNameEnd,
                               lastCh, portLength, charsAfterDot, Snapshot());
      assert ParseHostSpec(old(Snapshot()), s, start, end, decoder) == FinishHost(s, a, end, HostLoopEnd(st, err));
      if err.Some? {
        return Err(err.value);
      }
      assert Snapshot() == st.fields;
      if lastCh == 46 {
        assert FinishHost(s, a, end, HostLoopEnd(st, err)) == (st.fields, Err(TrailingDot));
        return Err(TrailingDot);
      }
      if hostNameEnd + 1 != a {
        if hostNameEnd - hostNameStart > 256 {
          assert FinishHost(s, a, end, HostLoopEnd(st, err)) == (st.fields, Err(HostnameTooLong));
          return Err(HostnameTooLong);
        }
        var h := Slice(s, hostNameStart, hostNameEnd + 1);
        if doLowerCase {
          h := AsciiLowerText(h);
        }
        assert h == HostnameOf(s, st);
        if idna {
          assert FinishHost(s, a, end, HostLoopEnd(st, err)) == (st.fields, Err(IdnaUnavailable));
          return Err(IdnaUnavailable);
        }
        hostname := h;
        host := HostOf(h, port);
        assert Snapshot() == st.fields.(hostname := h, host := HostOf(h, st.fields.port));
      }
      return Ok(hostNameEnd + 1 + portLength);
    }

    /** The two loops at the head of `parse`: skip code units up to 32 at
        both ends. */
    static method Trim(s: Text) returns (start: nat, end: int)
      ensures start == TrimStart(s) && end == TrimEnd(s)
    {
      start := 0;
      while start < |s| && s[start] <= 32
        invariant start <= |s| && SkipLeading(s, start) == TrimStart(s)
        decreases |s| - start
      {
        start := start + 1;
      }
      end := |s| - 1;
      while end >= 0 && s[end] <= 32
        invariant -1 <= end < |s| && SkipTrailing(s, end) == TrimEnd(s)
        decreases end + 1
      {
        end := end - 1;
      }
    }

    /** The end of `parse`: with at least two code units left, the one at
        `i` hands the rest to `_parsePath`, `_parseQuery` or `_parseHash`,
        and any other code unit is an error. */
    method Dispatch(s: Text, i: nat, end: int) returns (err: Option<Error>)
      requires end < |s|
      modifies this
      ensures (Snapshot(), err) == DispatchSpec(old(Snapshot()), s, i, end)
    {
      err := None;
      if i < end {
        var ch := s[i];
        if ch == 47 {
          ParsePath(s, i + 1, end);
        } else if ch == 63 {
          ParseQuery(s, i + 1, end);
        } else if ch == 35 {
          ParseHash(s, i + 1, end);
        } else {
          err := Some(UnexpectedCharacter);
        }
      }
    }

    /** `parse(str)`; `decoder` stands for `decodeURIComponent`. Returns
        the exception, if one is raised; the fields written before it stay
        written. */
    method Parse(s: Text, decoder: Text -> Option<Text>) returns (err: Option<Error>)
      modifies this
      ensures (Snapshot(), err) == ParseSpec(old(Snapshot()), s, decoder)
    {
      var start, end := Trim(s);
      ghost var f0 := old(Snapshot());
      ghost var sc := ScanProtocol(s, start, end, start, false);
      var next, e := ParseProtocol(s, start, end);
      if e.Some? {
        return e;
      }
      if next < 0 {
        return Some(InvalidProtocol);
      }
      var i: int := next;
      if protocol != JAVASCRIPT {
        var r := ParseHost(s, next, end, decoder);
        assert (Snapshot(), r) == AfterScheme(f0, s, sc.name, next, decoder);
        if r.Err? {
          return Some(r.error);
        }
        i := r.value;
      }
      assert ParseSpec(f0, s, decoder) == DispatchSpec(Snapshot(), s, i, end);
      err := Dispatch(s, i, end);
    }

    /** `format()`; `encode` stands for `encodeURIComponent`, `None` for
        its URIError. It throws exactly when `auth` cannot be encoded;
        otherwise the text starts with the scheme, longer than `_protocol`. */
    function Format(encode: Text -> Option<Text>): (r: Result<Text>)
      reads this
      ensures r.Err? <==> auth != [] && encode(auth) == None
      ensures r.Ok? ==> |r.value| > |protocol| && r.value[..|protocol|] == protocol
    {
      FormatLayout(Snapshot(), encode);
      FormatSpec(Snapshot(), encode)
    }

    /** The `href` getter: `format()` on the first read, stored in `_href`;
        the stored text on every later read. A `format` that throws stores
        nothing. */
    method Href(encode: Text -> Option<Text>) returns (h: Result<Text>)
      modifies this
      ensures (h, Snapshot()) == HrefSpec(old(Snapshot()), encode)
      ensures h.Ok? ==> h.value != []
    {
      var cached := href;
      if cached != [] {
        h := Ok(cached);
      } else {
        h := Format(encode);
        if h.Ok? {
          href := h.value;
        }
      }
    }

    /** The `port` getter: "" for a negative (or NaN) `_port`, else its
        decimal spelling, which the setter reads back. */
    function PortGetter(): (r: Text)
      reads this
      ensures r == [] <==> port < 0
      ensures port >= 0 ==> AllDigits(r) && PortFromText(r) == port
    {
      PortRoundTrip(port);
      PortText(port)
    }

    /** The `port` setter: `_port = parseInt(v, 10)`. */
    method SetPort(v: Text)
      modifies this
      ensures Snapshot() == old(Snapshot()).(port := PortFromText(v))
    {
      port := PortFromText(v);
    }

    /** The `protocol` getter: `_protocol` and ':', which the setter strips
        again. */
    function ProtocolGetter(): (r: Text)
      reads this
      ensures |r| == |protocol| + 1 && r[|protocol|] == 58
      ensures ProtocolFromText(r) == protocol
    {
      ProtocolRoundTrip(protocol);
      ProtocolText(protocol)
    }

    /** The `protocol` setter: `_protocol` is `v` without its last code unit. */
    method SetProtocol(v: Text)
      modifies this
      ensures Snapshot() == old(Snapshot()).(protocol := ProtocolFromText(v))
    {
      protocol := ProtocolFromText(v);
    }

    /** The `path` getter: `pathname` and `search`; after `parse` it starts
        with '/' and ends with what `_queryToSearch` makes of the query. */
    function PathGetter(): (r: Text)
      reads this
      ensures |r| == |pathname| + |search| && r[..|pathname|] == pathname && r[|pathname|..] == search
      ensures Consistent(Snapshot()) ==>
        |r| > 0 && r[0] == 47 && r == pathname + QueryToSearch(query)
    {
      PathText(Snapshot())
    }
  }

  /** `Url.parse(str)`: a new object, parsed. */
  method ParseUrl(s: Text, decoder: Text -> Option<Text>) returns (u: Url, err: Option<Error>)
    ensures fresh(u)
    ensures (u.Snapshot(), err) == ParseSpec(INITIAL, s, decoder)
  {
    u := new Url();
    err := u.Parse(s, decoder);
  }
}
