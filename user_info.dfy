/** The userinfo part of an authority: where `_parseHost` cuts it, when it
    is decoded, and why its check for a second '@' can never fire. */
module UserInfo {
  import opened JsText
  import opened Tables
  import opened UrlState
  import opened Authority

  /** The first host-ending character does not move when the skipped code
      units are not host-ending. */
  lemma {:induction false} NextEndingSkip(s: Text, x: nat, y: nat, end: int)
    requires x <= y <= end + 1 && end < |s|
    requires forall k :: x <= k < y ==> !IsHostEnding(s[k])
    ensures NextEnding(s, x, end) == NextEnding(s, y, end)
    decreases y - x
  {
    if x < y {
      NextEndingSkip(s, x + 1, y, end);
    }
  }

  /** What is known of a userinfo that ends just before `h`: it starts at
      `a` (just past "//"), the code unit before `h` is its '@', it holds
      no host-ending character, no '@' follows before the next host-ending
      character, and `auth` is its text, decoded exactly when a '%' comes
      before that host-ending character. */
  predicate UserinfoFacts(s: Text, a: nat, end: int, h: nat, auth: Text,
                          decode: Text -> Option<Text>)
  {
    && a < h <= end + 1 <= |s| && s[h - 1] == 64
    && (forall k :: a <= k < h - 1 ==> !IsHostEnding(s[k]))
    && (forall k :: h <= k < NextEnding(s, h, end) ==> s[k] != 64)
    && (if HasPercent(s, a, NextEnding(s, h, end)) then decode(s[a..h - 1]) == Some(auth)
        else auth == s[a..h - 1])
  }

  /** The invariant of the loop of `_parseHost` for the userinfo and the
      fields; `f0` are the fields before the scan. */
  predicate AuthInvariant(s: Text, a: nat, end: int, i: nat, st: HostScan, f0: Fields,
                          decode: Text -> Option<Text>)
  {
    && a <= st.hostNameStart <= i <= end + 1 <= |s|
    && (forall k :: st.hostNameStart <= k < i ==> IsHostNameChar(s[k]))
    && st.fields == f0.(auth := st.fields.auth)
    && (!st.authParsed ==> st.hostNameStart == a && st.fields == f0)
    && (st.authParsed ==> UserinfoFacts(s, a, end, st.hostNameStart, st.fields.auth, decode))
  }

  /** What holds where the loop stops without an exception. */
  predicate AuthAtExit(s: Text, a: nat, end: int, st: HostScan, f0: Fields,
                       decode: Text -> Option<Text>)
  {
    && st.fields == f0.(auth := st.fields.auth, port := st.fields.port)
    && (!st.authParsed ==> st.hostNameStart == a && st.fields.auth == f0.auth)
    && (st.authParsed ==> UserinfoFacts(s, a, end, st.hostNameStart, st.fields.auth, decode))
  }

  /** The userinfo up to the last '@' found by the inner loop holds no
      host-ending character. */
  lemma InnerScanNoEnding(s: Text, a: nat, end: int, i: nat, at: nat)
    requires a <= i <= at <= end < |s|
    requires forall k :: a <= k < i ==> IsHostNameChar(s[k])
    requires at == i || at < NextEnding(s, i + 1, end)
    requires s[i] == 64
    ensures forall k :: a <= k < at ==> !IsHostEnding(s[k])
  {
    forall k | a <= k < at ensures !IsHostEnding(s[k]) {
      if k < i {
        assert IsHostNameChar(s[k]);
      }
    }
  }

  /** Before the first '@' there is no '%', so the decode flag of the inner
      loop is whether a '%' lies anywhere before the host-ending character. */
  lemma InnerScanPercent(s: Text, a: nat, end: int, i: nat, ne: nat)
    requires a <= i < ne <= |s| && s[i] == 64
    requires forall k :: a <= k < i ==> IsHostNameChar(s[k])
    ensures HasPercent(s, a, ne) == HasPercent(s, i + 1, ne)
  {
    if HasPercent(s, a, ne) {
      var k :| a <= k < ne && s[k] == 37;
      assert i + 1 <= k;
    }
  }

  /** The inner loop started by the first '@' at `i` ends at the last '@'
      before the next host-ending character; the userinfo up to it holds no
      host-ending character, and the decode flag is whether a '%' comes
      before that host-ending character. */
  lemma InnerScanFacts(s: Text, a: nat, end: int, i: nat)
    requires a <= i <= end < |s| && s[i] == 64
    requires forall k :: a <= k < i ==> IsHostNameChar(s[k])
    ensures var sc := AuthScan(s, end, i + 1, i, false, s[i]);
      var ne := NextEnding(s, sc.at + 1, end);
      && i <= sc.at <= end && s[sc.at] == 64
      && (forall k :: a <= k < sc.at ==> !IsHostEnding(s[k]))
      && (forall k :: sc.at + 1 <= k < ne ==> s[k] != 64)
      && sc.doDecode == HasPercent(s, a, ne)
  {
    var sc := AuthScan(s, end, i + 1, i, false, s[i]);
    NextEndingSkip(s, i + 1, sc.at + 1, end);
    InnerScanNoEnding(s, a, end, i, sc.at);
    InnerScanPercent(s, a, end, i, NextEnding(s, i + 1, end));
  }

  /** The first '@' hands over to the inner loop; the outer loop goes on
      after the last '@' with the invariant restored. */
  lemma AtStepUserinfo(s: Text, a: nat, end: int, i: nat, st: HostScan, f0: Fields,
                       decode: Text -> Option<Text>)
    requires AuthInvariant(s, a, end, i, st, f0, decode)
    requires i <= end && s[i] == 64 && !st.authParsed
    ensures var r := AtStep(s, a, end, i, st, decode);
      (r.Next? ==> AuthInvariant(s, a, end, r.i, r.st, f0, decode)) &&
      (r.Stop? ==> r.error == Some(MalformedUserinfo))
  {
    var sc := AuthScan(s, end, i + 1, i, false, s[i]);
    InnerScanFacts(s, a, end, i);
    assert Slice(s, a, sc.at) == s[a..sc.at];
    var r := AtStep(s, a, end, i, st, decode);
    if r.Next? {
      assert r.st.hostNameStart == sc.at + 1 && r.i == sc.at + 1;
      assert UserinfoFacts(s, a, end, sc.at + 1, r.st.fields.auth, decode);
    }
  }

  /** Under the invariant an '@' never meets `authParsed`: the check for a
      second userinfo cannot fire. */
  lemma NoSecondUserinfo(s: Text, a: nat, end: int, i: nat, st: HostScan, f0: Fields,
                         decode: Text -> Option<Text>)
    requires AuthInvariant(s, a, end, i, st, f0, decode) && i <= end && st.authParsed
    ensures s[i] != 64
  {
    var h := st.hostNameStart;
    if s[i] == 64 {
      assert forall k :: h <= k < i ==> !IsHostEnding(s[k]) by {
        forall k | h <= k < i ensures !IsHostEnding(s[k]) {
          assert IsHostNameChar(s[k]);
        }
      }
      NextEndingSkip(s, h, i, end);
      assert false;
    }
  }

  /** One pass of the loop body keeps the invariant, or stops where
      `AuthAtExit` holds, or throws, but never for a second '@'. */
  lemma HostStepUserinfo(s: Text, a: nat, end: int, i: nat, st: HostScan, f0: Fields,
                         decode: Text -> Option<Text>)
    requires AuthInvariant(s, a, end, i, st, f0, decode) && i <= end
    ensures var r := HostStep(s, a, end, i, st, decode);
      (r.Next? ==> AuthInvariant(s, a, end, r.i, r.st, f0, decode)) &&
      (r.Stop? ==> r.error != Some(DuplicateUserinfo)) &&
      (r.Stop? && r.error == None ==> AuthAtExit(s, a, end, r.st, f0, decode))
  {
    if st.charsAfterDot <= 63 {
      if s[i] == 64 {
        if st.authParsed {
          NoSecondUserinfo(s, a, end, i, st, f0, decode);
        } else {
          AtStepUserinfo(s, a, end, i, st, f0, decode);
        }
      } else if s[i] == 58 {
      } else {
        var r := CharStep(i, st, s[i]);
        assert HostStep(s, a, end, i, st, decode) == r;
      }
    }
  }

  lemma {:induction false} HostLoopUserinfo(s: Text, a: nat, end: int, i: nat, st: HostScan,
                                            f0: Fields, decode: Text -> Option<Text>)
    requires AuthInvariant(s, a, end, i, st, f0, decode) && st.hostNameEnd >= -1
    ensures var r := HostLoop(s, a, end, i, st, decode);
      r.error != Some(DuplicateUserinfo) &&
      (r.error == None ==> AuthAtExit(s, a, end, r.scan, f0, decode))
    decreases end + 1 - i
  {
    if i <= end {
      HostStepUserinfo(s, a, end, i, st, f0, decode);
      match HostStep(s, a, end, i, st, decode)
      case Next(i', st') =>
        HostLoopUserinfo(s, a, end, i', st', f0, decode);
      case Stop(st', error) =>
    }
  }
}
