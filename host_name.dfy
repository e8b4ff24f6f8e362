/** The shape of the host name that `_parseHost` accepts: the dot rules and
    the label-length rule, proved about the loop of `Authority`. */
module HostName {
  import opened JsText
  import opened UrlState
  import opened Authority

  /** The length of the last label of `t`: the code units after its last '.'. */
  function TailRun(t: Text): (n: nat)
    ensures n <= |t|
  {
    if t == [] || t[|t| - 1] == 46 then 0 else TailRun(t[..|t| - 1]) + 1
  }

  lemma TailRunSnoc(t: Text, c: CodeUnit)
    ensures TailRun(t + [c]) == if c == 46 then 0 else TailRun(t) + 1
  {
    assert (t + [c])[..|t|] == t;
  }

  /** The dot rules on a text: the label that each '.' closes has at most
      63 code units, and at least one unless the '.' comes first (so no two
      '.' stand in a row). */
  predicate DotRules(p: Text)
  {
    forall k :: 0 <= k < |p| && p[k] == 46 ==> TailRun(p[..k]) <= 63 && (k > 0 ==> TailRun(p[..k]) >= 1)
  }

  /** What holds of the code units the loop has passed since `hostNameStart`,
      `p`, given the flags and counters of the loop state. */
  predicate ScannedText(p: Text, authParsed: bool, doLowerCase: bool, idna: bool,
                        lastCh: int, charsAfterDot: int)
  {
    && (forall k :: 0 <= k < |p| ==> IsHostNameChar(p[k]))
    && (forall k :: 0 <= k < |p| && IsAsciiUpper(p[k]) ==> doLowerCase)
    && (forall k :: 0 <= k < |p| && p[k] >= 0x7F ==> idna)
    && DotRules(p)
    && (p != [] && p[0] == 46 ==> authParsed)
    && (p != [] ==> lastCh == p[|p| - 1])
    && (p == [] && !authParsed ==> lastCh == -1)
    && TailRun(p) <= charsAfterDot
  }

  predicate ScannedName(p: Text, st: HostScan)
  {
    ScannedText(p, st.authParsed, st.doLowerCase, st.idna, st.lastCh, st.charsAfterDot)
  }

  /** One more code unit `c`, stepped over by the loop, keeps `ScannedName`. */
  lemma ScannedNameStep(p: Text, st: HostScan, c: CodeUnit, st': HostScan)
    requires ScannedName(p, st)
    requires IsHostNameChar(c) && st.charsAfterDot <= 63
    requires st'.lastCh == c && st'.authParsed == st.authParsed
    requires st'.doLowerCase == (st.doLowerCase || IsAsciiUpper(c))
    requires st'.idna == (st.idna || c >= 0x7F)
    requires c == 46 ==> st.lastCh != 46 && st.lastCh != -1 && st'.charsAfterDot == 0
    requires c != 46 ==> st'.charsAfterDot == st.charsAfterDot + 1
    ensures ScannedName(p + [c], st')
  {
    var q := p + [c];
    TailRunSnoc(p, c);
    forall k | 0 <= k < |q| && q[k] == 46
      ensures TailRun(q[..k]) <= 63 && (k > 0 ==> TailRun(q[..k]) >= 1)
    {
      if k < |p| {
        assert q[..k] == p[..k];
      } else {
        assert q[..k] == p;
      }
    }
    assert forall k :: 0 <= k < |p| ==> q[k] == p[k];
  }

  /** The invariant of the loop of `_parseHost` for the host name. */
  predicate NameInvariant(s: Text, start: nat, end: int, i: nat, st: HostScan)
  {
    && start <= st.hostNameStart <= i <= end + 1 <= |s|
    && st.hostNameEnd == end
    && 0 <= st.charsAfterDot <= 64
    && ScannedName(s[st.hostNameStart..i], st)
    && (!st.authParsed ==> st.hostNameStart == start)
  }

  /** What holds where the loop stops without an exception. */
  predicate NameAtExit(s: Text, start: nat, end: int, st: HostScan)
  {
    && start <= st.hostNameStart <= st.hostNameEnd + 1 <= end + 1 <= |s|
    && ScannedName(s[st.hostNameStart..st.hostNameEnd + 1], st)
    && st.charsAfterDot <= 64
    && (st.hostNameEnd < end ==> st.charsAfterDot <= 63)
    && (!st.authParsed ==> st.hostNameStart == start)
  }

  /** The branch for an ordinary code unit, on the scanned text alone. */
  lemma CharStepScanned(p: Text, i: nat, st: HostScan, c: CodeUnit)
    requires ScannedName(p, st) && st.charsAfterDot <= 63
    ensures var r := CharStep(i, st, c);
      (r.Next? ==> ScannedName(p + [c], r.st) && 0 <= r.st.charsAfterDot <= 64 &&
                   r.st.authParsed == st.authParsed && r.st.hostNameStart == st.hostNameStart) &&
      (r.Stop? && r.error == None ==> r.st == st.(hostNameEnd := i - 1))
  {
    var r := CharStep(i, st, c);
    if r.Next? {
      ScannedNameStep(p, st, c, r.st);
    }
  }

  /** The branch for an ordinary code unit keeps the invariant or stops
      where `NameAtExit` holds. */
  lemma CharStepName(s: Text, start: nat, end: int, i: nat, st: HostScan)
    requires NameInvariant(s, start, end, i, st) && i <= end && st.charsAfterDot <= 63
    ensures var r := CharStep(i, st, s[i]);
      (r.Next? ==> NameInvariant(s, start, end, r.i, r.st)) &&
      (r.Stop? && r.error == None ==> NameAtExit(s, start, end, r.st))
  {
    var p := s[st.hostNameStart..i];
    var q := s[st.hostNameStart..i + 1];
    assert q == p + [s[i]];
    CharStepScanned(p, i, st, s[i]);
  }

  /** After the userinfo, the loop goes on with nothing scanned yet. */
  lemma AtStepName(s: Text, start: nat, end: int, i: nat, st: HostScan,
                   decode: Text -> Option<Text>)
    requires NameInvariant(s, start, end, i, st) && i <= end && s[i] == 64
    requires st.charsAfterDot <= 63
    ensures var r := AtStep(s, start, end, i, st, decode);
      r.Next? ==> NameInvariant(s, start, end, r.i, r.st)
  {
  }

  /** A ':' ends the host name where the invariant already holds. */
  lemma PortStepName(s: Text, start: nat, end: int, i: nat, st: HostScan)
    requires NameInvariant(s, start, end, i, st) && i <= end && st.charsAfterDot <= 63
    ensures var r := PortStep(s, end, i, st);
      r.error == None ==> NameAtExit(s, start, end, r.st)
  {
  }

  /** One pass of the loop body keeps the invariant, or stops where
      `NameAtExit` holds, or throws. */
  lemma HostStepName(s: Text, start: nat, end: int, i: nat, st: HostScan,
                     decode: Text -> Option<Text>)
    requires NameInvariant(s, start, end, i, st) && i <= end
    ensures match HostStep(s, start, end, i, st, decode)
      case Next(i', st') => NameInvariant(s, start, end, i', st')
      case Stop(st', error) => error == None ==> NameAtExit(s, start, end, st')
  {
    if st.charsAfterDot <= 63 {
      if s[i] == 64 {
        if !st.authParsed {
          AtStepName(s, start, end, i, st, decode);
        }
      } else if s[i] == 58 {
        PortStepName(s, start, end, i, st);
      } else {
        CharStepName(s, start, end, i, st);
        assert HostStep(s, start, end, i, st, decode) == CharStep(i, st, s[i]);
      }
    }
  }

  lemma {:induction false} HostLoopName(s: Text, start: nat, end: int, i: nat, st: HostScan,
                                        decode: Text -> Option<Text>)
    requires NameInvariant(s, start, end, i, st)
    ensures var r := HostLoop(s, start, end, i, st, decode);
      r.error == None ==> NameAtExit(s, start, end, r.scan)
    decreases end + 1 - i
  {
    if i <= end {
      HostStepName(s, start, end, i, st, decode);
      match HostStep(s, start, end, i, st, decode)
      case Next(i', st') =>
        HostLoopName(s, start, end, i', st', decode);
      case Stop(st', error) =>
    }
  }

  /** Lowering changes no '.', so it keeps the length of the last label. */
  lemma {:induction false} TailRunLower(t: Text)
    ensures TailRun(AsciiLowerText(t)) == TailRun(t)
  {
    if t != [] {
      assert AsciiLowerText(t)[..|t| - 1] == AsciiLowerText(t[..|t| - 1]);
      TailRunLower(t[..|t| - 1]);
    }
  }

  /** The code units of an accepted host name: small letters, digits, '-',
      '_' and '.'. */
  predicate IsLowerHostChar(c: int)
  {
    97 <= c <= 122 || IsDigit(c) || c == 45 || c == 95 || c == 46
  }

  /** A host name as `_parseHost` accepts it: only small letters, digits,
      '-', '_' and '.'; no two '.' in a row, no '.' at the end, at most 63
      code units in a label that a '.' closes and at most 64 in the last. */
  predicate HostnameShape(h: Text)
  {
    && (forall k :: 0 <= k < |h| ==> IsLowerHostChar(h[k]))
    && DotRules(h)
    && (h != [] ==> h[|h| - 1] != 46)
    && TailRun(h) <= 64
  }

  /** A scanned text that ends in no '.' and holds no code unit from 0x7F on
      has the shape of a host name once lowered; lowering is needed only if
      a capital was seen. */
  lemma LoweredName(p: Text, authParsed: bool, doLowerCase: bool, lastCh: int,
                    charsAfterDot: int)
    requires ScannedText(p, authParsed, doLowerCase, false, lastCh, charsAfterDot)
    requires lastCh != 46 && charsAfterDot <= 64
    ensures var h := AsciiLowerText(p);
      && HostnameShape(h)
      && (h != [] && h[0] == 46 ==> authParsed)
      && TailRun(h) <= charsAfterDot
      && (!doLowerCase ==> h == p)
  {
    var h := AsciiLowerText(p);
    TailRunLower(p);
    forall k | 0 <= k < |h| && h[k] == 46
      ensures TailRun(h[..k]) <= 63 && (k > 0 ==> TailRun(h[..k]) >= 1)
    {
      assert h[..k] == AsciiLowerText(p[..k]);
      TailRunLower(p[..k]);
    }
    if !doLowerCase {
      AsciiLowerWithoutCapitals(p);
    }
  }
}
