/** The ways the authority loop of `_parseHost` throws on the host name,
    and the two quirks of its tests: the misplaced parenthesis of the
    authority test, and a label counter that the userinfo feeds. */
module HostRejections {
  import opened JsText
  import opened UrlState
  import opened Scheme
  import opened Authority
  import opened Parse
  import opened RoundTrip

  /** A '.' right after another '.' (or first in the loop) throws: the loop
      ends there with nothing more written. */
  lemma DotAfterDotRejected(s: Text, start: nat, end: int, i: nat, st: HostScan,
                            decode: Text -> Option<Text>)
    requires start <= i <= end < |s| && st.hostNameEnd >= -1
    requires st.charsAfterDot <= 63 && s[i] == 46 && (st.lastCh == 46 || st.lastCh == -1)
    ensures HostLoop(s, start, end, i, st, decode) == HostLoopEnd(st, Some(MisplacedDot))
  {
    HostLoopUnfold(s, start, end, i, st, decode);
  }

  /** A pass that starts with more than 63 code units counted since the last
      '.' throws, whatever the code unit it is at. */
  lemma LongLabelRejected(s: Text, start: nat, end: int, i: nat, st: HostScan,
                          decode: Text -> Option<Text>)
    requires start <= i <= end < |s| && st.hostNameEnd >= -1
    requires st.charsAfterDot > 63
    ensures HostLoop(s, start, end, i, st, decode) == HostLoopEnd(st, Some(LabelTooLong))
  {
    HostLoopUnfold(s, start, end, i, st, decode);
  }

  /** The state after the loop stepped over the small letters `s[i..j]`. */
  function AfterLetters(s: Text, i: nat, j: nat, st: HostScan): HostScan
    requires i <= j <= |s|
  {
    if i == j then st else st.(lastCh := s[j - 1], charsAfterDot := st.charsAfterDot + (j - i))
  }

  /** The loop steps over a run of small letters one at a time, counting
      each toward the current label, as long as no pass starts above 63. */
  lemma {:induction false} SmallLetterRun(s: Text, start: nat, end: int, i: nat, j: nat, st: HostScan,
                                          decode: Text -> Option<Text>)
    requires start <= i <= j <= end + 1 && end < |s| && st.hostNameEnd >= -1
    requires forall k :: i <= k < j ==> 97 <= s[k] <= 122
    requires st.charsAfterDot + (j - i) <= 64
    ensures HostLoop(s, start, end, i, st, decode) == HostLoop(s, start, end, j, AfterLetters(s, i, j, st), decode)
    decreases j - i
  {
    if i < j {
      HostLoopUnfold(s, start, end, i, st, decode);
      assert HostStep(s, start, end, i, st, decode) == Next(i + 1, Advance(st, s[i]));
      SmallLetterRun(s, start, end, i + 1, j, Advance(st, s[i]), decode);
    }
  }

  /** A label of 64 small letters throws LabelTooLong at the pass after its
      last letter, when there is one. */
  lemma LabelOf64Rejected(s: Text, start: nat, end: int, i: nat, st: HostScan,
                          decode: Text -> Option<Text>)
    requires start <= i && i + 64 <= end < |s| && st.hostNameEnd >= -1
    requires st.charsAfterDot == 0
    requires forall k :: i <= k < i + 64 ==> 97 <= s[k] <= 122
    ensures HostLoop(s, start, end, i, st, decode)
         == HostLoopEnd(AfterLetters(s, i, i + 64, st), Some(LabelTooLong))
  {
    SmallLetterRun(s, start, end, i, i + 64, st, decode);
    LongLabelRejected(s, start, end, i + 64, AfterLetters(s, i, i + 64, st), decode);
  }

  // ---------------------------------------------------------------------
  // Inputs that show the tests

  /** "http://a..b@h/" */
  const DOUBLE_DOT: Text := [104, 116, 116, 112, 58, 47, 47, 97, 46, 46, 98, 64, 104, 47]

  /** A doubled '.' throws MisplacedDot even before an '@', where the text
      read so far turns out to be userinfo. */
  lemma DoubleDotBeforeUserinfo(decode: Text -> Option<Text>)
    ensures ParseSpec(INITIAL, DOUBLE_DOT, decode) == (INITIAL.(protocol := HTTP), Some(MisplacedDot))
  {
    var s := DOUBLE_DOT;
    HttpScheme(s);
    assert SkipTrailing(s, 13) == 13;
    assert |JAVASCRIPT| == 10;
    var f1 := INITIAL.(protocol := HTTP);
    var st0 := InitialScan(f1, 7, 13);
    var st1 := Advance(st0, 97);
    var st2 := Advance(st1.(charsAfterDot := -1), 46);
    assert HostStep(s, 7, 13, 7, st0, decode) == Next(8, st1);
    assert HostStep(s, 7, 13, 8, st1, decode) == Next(9, st2);
    HostLoopUnfold(s, 7, 13, 7, st0, decode);
    HostLoopUnfold(s, 7, 13, 8, st1, decode);
    DotAfterDotRejected(s, 7, 13, 9, st2, decode);
    assert ParseHostSpec(f1, s, 5, 13, decode) == (f1, Err(MisplacedDot));
  }

  /** 63 times 'a' */
  const A63: Text := seq(63, k => 97)

  /** "http://" + 63 × "a" + "@b/" */
  const LONG_USERINFO: Text := HTTP + [58, 47, 47] + A63 + [64, 98, 47]

  lemma LongUserinfoShape()
    ensures |LONG_USERINFO| == 73 && LONG_USERINFO[..5] == HTTP + [58]
    ensures forall k :: 7 <= k < 70 ==> LONG_USERINFO[k] == 97
    ensures LONG_USERINFO[5] == 47 && LONG_USERINFO[6] == 47
    ensures LONG_USERINFO[70] == 64 && LONG_USERINFO[71] == 98 && LONG_USERINFO[72] == 47
    ensures LONG_USERINFO[7..70] == A63
  {
  }

  /** The loop state at the '@' of `LONG_USERINFO`, and after its pass. */
  const AT_AFTER_A63: HostScan :=
    InitialScan(INITIAL.(protocol := HTTP), 7, 72).(lastCh := 97, charsAfterDot := 63)
  const AFTER_USERINFO: HostScan :=
    AT_AFTER_A63.(authParsed := true, fields := INITIAL.(protocol := HTTP, auth := A63),
                  hostNameStart := 71, lastCh := 47, charsAfterDot := 64)

  lemma LongUserinfoAtStep(decode: Text -> Option<Text>)
    ensures HostStep(LONG_USERINFO, 7, 72, 70, AT_AFTER_A63, decode) == Next(71, AFTER_USERINFO)
  {
    var s := LONG_USERINFO;
    LongUserinfoShape();
    assert AuthScan(s, 72, 72, 70, false, 98) == AuthScanEnd(70, false, 47);
    assert AuthScan(s, 72, 71, 70, false, 64) == AuthScanEnd(70, false, 47);
    assert ParseAuthSpec(INITIAL.(protocol := HTTP), s, 7, 69, false, decode)
        == (INITIAL.(protocol := HTTP, auth := A63), None);
  }

  lemma LongUserinfoHost(decode: Text -> Option<Text>)
    ensures ParseHostSpec(INITIAL.(protocol := HTTP), LONG_USERINFO, 5, 72, decode)
         == (INITIAL.(protocol := HTTP, auth := A63), Err(LabelTooLong))
  {
    var s := LONG_USERINFO;
    LongUserinfoShape();
    var st0 := InitialScan(INITIAL.(protocol := HTTP), 7, 72);
    SmallLetterRun(s, 7, 72, 7, 70, st0, decode);
    assert AfterLetters(s, 7, 70, st0) == AT_AFTER_A63;
    LongUserinfoAtStep(decode);
    HostLoopUnfold(s, 7, 72, 70, AT_AFTER_A63, decode);
    LongLabelRejected(s, 7, 72, 71, AFTER_USERINFO, decode);
  }

  /** The label counter is not reset at '@': the 63 code units of the
      userinfo and the '@' pass count toward the first label of the host, so
      the pass at 'b' throws LabelTooLong, although the host name would be
      "b". The userinfo is already stored when it throws. */
  lemma UserinfoCountsTowardLabel(decode: Text -> Option<Text>)
    ensures ParseSpec(INITIAL, LONG_USERINFO, decode)
         == (INITIAL.(protocol := HTTP, auth := A63), Some(LabelTooLong))
  {
    var s := LONG_USERINFO;
    LongUserinfoShape();
    HttpScheme(s);
    assert SkipTrailing(s, 72) == 72;
    assert |JAVASCRIPT| == 10;
    LongUserinfoHost(decode);
  }

  /** U+0000 + 44 × "a" + "://h/x": the scheme ends at index 45, so
      `_parseHost` starts at 46 and its second test reads code unit 1, an
      'a'; the authority is scanned and the host name is "h". */
  const SECOND_UNIT_READ: Text := [0] + seq(44, k => 97) + [58, 47, 47, 104, 47, 120]

  /** " " + U+0000 + 43 × "a" + "://h/x": the same layout, but code unit 1
      is U+0000, so no authority is scanned at 46. */
  const SECOND_UNIT_ZERO: Text := [32, 0] + seq(43, k => 97) + [58, 47, 47, 104, 47, 120]

  lemma AuthorityTestReadsSecondUnit(f: Fields, decode: Text -> Option<Text>)
    ensures ParseHostSpec(f, SECOND_UNIT_READ, 46, 50, decode)
         == (f.(hostname := [104], host := HostOf([104], f.port)), Ok(49))
    ensures ParseHostSpec(f, SECOND_UNIT_ZERO, 46, 50, decode) == (f, Ok(46))
  {
    var s := SECOND_UNIT_READ;
    assert |s| == 51 && s[1] == 97 && s[46] == 47 && s[47] == 47 && s[48] == 104 && s[49] == 47;
    assert StartsAuthority(s, 46);
    var st0 := InitialScan(f, 48, 50);
    var st1 := Advance(st0, 104);
    assert HostStep(s, 48, 50, 48, st0, decode) == Next(49, st1);
    assert HostStep(s, 48, 50, 49, st1, decode) == Stop(st1.(hostNameEnd := 48), None);
    HostLoopUnfold(s, 48, 50, 48, st0, decode);
    HostLoopUnfold(s, 48, 50, 49, st1, decode);
    assert HostnameOf(s, st1.(hostNameEnd := 48)) == [104];
    var z := SECOND_UNIT_ZERO;
    assert |z| == 51 && z[1] == 0;
  }
}
