/** What `_parseHost` achieves when it does not throw: the host name it
    stores, the userinfo, the port, and the index it hands back to `parse`. */
module HostResult {
  import opened JsText
  import opened UrlState
  import opened Authority
  import opened HostName
  import opened UserInfo

  /** Where the loop of `_parseHost` stopped without an exception: either
      it ran to `end`, or it stopped at a code unit that cannot be part of a
      host name; if that is ':', the port is the maximal digit run after it,
      at least 1, and `portLength` counts its digits. */
  predicate ExitFacts(s: Text, end: int, st: HostScan, port0: int)
    requires -1 <= end < |s| && st.hostNameEnd >= -1
  {
    if st.hostNameEnd >= end then
      st.hostNameEnd == end && st.portLength == 0 && st.fields.port == port0
    else
      var c := s[st.hostNameEnd + 1];
      && !IsHostNameChar(c) && c != 64
      && if c == 58 then
           var e := st.hostNameEnd + 2 + st.portLength;
           && st.portLength >= 1 && e == DigitRunEnd(s, st.hostNameEnd + 2, end)
           && st.fields.port == DigitsValue(s[st.hostNameEnd + 2..e]) && st.fields.port >= 1
         else st.portLength == 0 && st.fields.port == port0
  }

  predicate ExitInvariant(st: HostScan, end: int, port0: int)
  {
    st.hostNameEnd == end && st.portLength == 0 && st.fields.port == port0
  }

  lemma HostStepExit(s: Text, a: nat, end: int, i: nat, st: HostScan,
                     decode: Text -> Option<Text>)
    requires a <= i <= end < |s| && ExitInvariant(st, end, st.fields.port)
    ensures var r := HostStep(s, a, end, i, st, decode);
      (r.Next? ==> ExitInvariant(r.st, end, st.fields.port)) &&
      (r.Stop? && r.error == None ==> ExitFacts(s, end, r.st, st.fields.port))
  {
    if st.charsAfterDot <= 63 && s[i] == 58 {
      ParsePortMeaning(st.fields, s, i + 1, end);
    }
  }

  lemma {:induction false} HostLoopExit(s: Text, a: nat, end: int, i: nat, st: HostScan,
                                        decode: Text -> Option<Text>)
    requires a <= i && -1 <= end < |s| && ExitInvariant(st, end, st.fields.port)
    ensures var r := HostLoop(s, a, end, i, st, decode);
      r.error == None ==> ExitFacts(s, end, r.scan, st.fields.port)
    decreases end + 1 - i
  {
    if i <= end {
      HostStepExit(s, a, end, i, st, decode);
      match HostStep(s, a, end, i, st, decode)
      case Next(i', st') =>
        HostLoopExit(s, a, end, i', st', decode);
      case Stop(st', error) =>
    }
  }

  /** The host name slice of a loop that stopped without an exception and
      without a last '.' or a code unit from 0x7F on. */
  lemma HostnameOfShape(s: Text, a: nat, end: int, st: HostScan)
    requires -1 <= end < |s| && st.hostNameEnd >= -1
    requires NameAtExit(s, a, end, st) || (a > end + 1 && st == InitialScan(st.fields, a, end))
    requires !st.idna && st.lastCh != 46
    ensures var h := HostnameOf(s, st);
      && h == AsciiLowerText(Slice(s, st.hostNameStart, st.hostNameEnd + 1))
      && HostnameShape(h)
      && (h != [] && h[0] == 46 ==> st.authParsed)
      && (st.hostNameEnd < end ==> TailRun(h) <= 63)
  {
    if NameAtExit(s, a, end, st) {
      var p := s[st.hostNameStart..st.hostNameEnd + 1];
      assert Slice(s, st.hostNameStart, st.hostNameEnd + 1) == p;
      LoweredName(p, st.authParsed, st.doLowerCase, st.lastCh, st.charsAfterDot);
    } else {
      assert Slice(s, st.hostNameStart, st.hostNameEnd + 1) == [];
    }
  }

  /** The facts of `ParseHostName` about the steps after the loop. */
  lemma FinishHostName(s: Text, a: nat, end: int, r: HostLoopEnd)
    requires -1 <= end < |s| && r.scan.hostNameEnd >= -1
    requires r.error == None ==>
      NameAtExit(s, a, end, r.scan) || (a > end + 1 && r.scan == InitialScan(r.scan.fields, a, end))
    ensures var st := r.scan;
      var (f', res) := FinishHost(s, a, end, r);
      res.Ok? && st.hostNameEnd + 1 != a ==>
        && f'.hostname == AsciiLowerText(Slice(s, st.hostNameStart, st.hostNameEnd + 1))
        && HostnameShape(f'.hostname)
        && (f'.hostname != [] && f'.hostname[0] == 46 ==> st.authParsed)
        && (st.hostNameEnd < end ==> TailRun(f'.hostname) <= 63)
        && |f'.hostname| <= 257
        && f'.host == HostOf(f'.hostname, f'.port)
  {
    var st := r.scan;
    var (f', res) := FinishHost(s, a, end, r);
    if res.Ok? && st.hostNameEnd + 1 != a {
      HostnameOfShape(s, a, end, st);
    }
  }

  /** The host name that `_parseHost` stores, when it stores one: the slice
      from `hostNameStart` to `hostNameEnd`, lowercased, in the shape of
      `HostnameShape`, with a last label of at most 63 code units unless the
      scan ran to the end of the input, at most 257 code units long, and
      starting with '.' only after a userinfo; `host` adds ":" and the port
      exactly when the port is positive. */
  lemma ParseHostName(f: Fields, s: Text, start: nat, end: int, decode: Text -> Option<Text>)
    requires -1 <= end < |s| && start <= end + 1 && StartsAuthority(s, start)
    ensures var st := HostScanOf(f, s, start, end, decode).scan;
      var (f', res) := ParseHostSpec(f, s, start, end, decode);
      res.Ok? && st.hostNameEnd + 1 != start + 2 ==>
        && f'.hostname == AsciiLowerText(Slice(s, st.hostNameStart, st.hostNameEnd + 1))
        && HostnameShape(f'.hostname)
        && (f'.hostname != [] && f'.hostname[0] == 46 ==> st.authParsed)
        && (st.hostNameEnd < end ==> TailRun(f'.hostname) <= 63)
        && |f'.hostname| <= 257
        && f'.host == HostOf(f'.hostname, f'.port)
  {
    var a := start + 2;
    if a <= end + 1 {
      HostLoopName(s, a, end, a, InitialScan(f, a, end), decode);
    }
    FinishHostName(s, a, end, HostScanOf(f, s, start, end, decode));
  }

  /** When `_parseHost` does not throw, the userinfo is as `UserinfoFacts`
      says if an '@' was met, and `auth` is untouched otherwise; nothing but
      `auth`, `_port`, `hostname` and `host` changes. */
  lemma ParseHostUserinfo(f: Fields, s: Text, start: nat, end: int, decode: Text -> Option<Text>)
    requires -1 <= end < |s| && start <= end + 1 && StartsAuthority(s, start)
    ensures var st := HostScanOf(f, s, start, end, decode).scan;
      var (f', res) := ParseHostSpec(f, s, start, end, decode);
      res.Ok? ==>
        && (st.authParsed ==> UserinfoFacts(s, start + 2, end, st.hostNameStart, f'.auth, decode))
        && (!st.authParsed ==> f'.auth == f.auth && st.hostNameStart == start + 2)
        && f' == f.(auth := f'.auth, port := f'.port, hostname := f'.hostname, host := f'.host)
  {
    var a := start + 2;
    if a <= end + 1 {
      HostLoopUserinfo(s, a, end, a, InitialScan(f, a, end), f, decode);
    }
  }

  /** `_parseHost` never raises its error for a second '@'. */
  lemma NoDuplicateUserinfo(f: Fields, s: Text, start: nat, end: int, decode: Text -> Option<Text>)
    requires -1 <= end < |s| && start <= end + 1
    ensures ParseHostSpec(f, s, start, end, decode).1 != Err(DuplicateUserinfo)
  {
    var a := start + 2;
    if StartsAuthority(s, start) && a <= end + 1 {
      HostLoopUserinfo(s, a, end, a, InitialScan(f, a, end), f, decode);
    }
  }

  /** The index `_parseHost` returns: `end + 1` when the scan ran to the end
      with no port; the code unit that ended the host name (not '/', '?' or
      '#' necessarily, nor a host name character) when there is no port; and
      the index of the last port digit when there is one. */
  lemma ParseHostNext(f: Fields, s: Text, start: nat, end: int, decode: Text -> Option<Text>)
    requires -1 <= end < |s| && start <= end + 1 && StartsAuthority(s, start)
    ensures var st := HostScanOf(f, s, start, end, decode).scan;
      var (f', res) := ParseHostSpec(f, s, start, end, decode);
      res.Ok? ==>
        && res.value == st.hostNameEnd + 1 + st.portLength
        && ExitFacts(s, end, st, f.port)
        && f'.port == st.fields.port
  {
    var a := start + 2;
    HostLoopExit(s, a, end, a, InitialScan(f, a, end), decode);
  }

  /** One pass of the loop body writes at most `auth` and `_port`. */
  lemma HostStepFrame(s: Text, a: nat, end: int, i: nat, st: HostScan,
                      decode: Text -> Option<Text>)
    requires a <= i <= end < |s|
    ensures var g := HostStep(s, a, end, i, st, decode).st.fields;
      g == st.fields.(auth := g.auth, port := g.port)
  {
  }

  lemma {:induction false} HostLoopFrame(s: Text, a: nat, end: int, i: nat, st: HostScan,
                                         decode: Text -> Option<Text>)
    requires a <= i && end < |s| && st.hostNameEnd >= -1
    ensures var g := HostLoop(s, a, end, i, st, decode).scan.fields;
      g == st.fields.(auth := g.auth, port := g.port)
    decreases end + 1 - i
  {
    if i <= end {
      HostStepFrame(s, a, end, i, st, decode);
      match HostStep(s, a, end, i, st, decode)
      case Next(i', st') =>
        HostLoopFrame(s, a, end, i', st', decode);
      case Stop(st', error) =>
    }
  }

  /** `_parseHost` writes `auth`, `_port`, `hostname` and `host` and no other
      field, whether it returns or throws. */
  lemma ParseHostFrame(f: Fields, s: Text, start: nat, end: int, decode: Text -> Option<Text>)
    requires -1 <= end < |s| && start <= end + 1
    ensures var g := ParseHostSpec(f, s, start, end, decode).0;
      g == f.(auth := g.auth, port := g.port, hostname := g.hostname, host := g.host)
  {
    if StartsAuthority(s, start) {
      HostLoopFrame(s, start + 2, end, start + 2, InitialScan(f, start + 2, end), decode);
    }
  }

  /** A '.' as the first code unit after "//" throws before anything is
      written. */
  lemma LeadingDotRejected(f: Fields, s: Text, start: nat, end: int, decode: Text -> Option<Text>)
    requires -1 <= end < |s| && start + 2 <= end && StartsAuthority(s, start) && s[start + 2] == 46
    ensures ParseHostSpec(f, s, start, end, decode) == (f, Err(MisplacedDot))
  {
  }
}
