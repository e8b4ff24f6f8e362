/** `_parseHost` with `_parseAuth` and `_parsePort`: the scan of the
    authority that follows "//". Each function here is the loop or the
    step of the JavaScript method of the same name, as a state transformer
    on `Fields`; the class `Url` runs the loops and is proved against them. */
module Authority {
  import opened JsText
  import opened Tables
  import opened UrlState

  // ---------------------------------------------------------------------
  // _parsePort

  /** The loop of `_parsePort`: the end of the run of decimal digits that
      starts at `i` and stops at the first non-digit or after `end`. */
  function DigitRunEnd(s: Text, i: nat, end: int): (r: nat)
    requires i <= end + 1 && end < |s|
    ensures i <= r <= end + 1
    ensures forall k :: i <= k < r ==> IsDigit(s[k])
    ensures r <= end ==> !IsDigit(s[r])
    decreases end + 1 - i
  {
    if i <= end && IsDigit(s[i]) then DigitRunEnd(s, i + 1, end) else i
  }

  /** `_parsePort(str, start, end)`: the digits are read as a decimal value;
      a value of 0 (no digit at all included) throws, else `_port` takes the
      value and the number of digits is returned. */
  function ParsePortSpec(f: Fields, s: Text, start: nat, end: int): (Fields, Result<nat>)
    requires start <= end + 1 && end < |s|
  {
    var e := DigitRunEnd(s, start, end);
    var port := DigitsValue(s[start..e]);
    if port == 0 then (f, Err(InvalidPort)) else (f.(port := port), Ok(e - start))
  }

  /** A run of digits is worth 0 exactly when every digit is '0'. */
  lemma {:induction false} DigitsValueZero(t: Text)
    requires AllDigits(t)
    ensures DigitsValue(t) == 0 <==> forall k :: 0 <= k < |t| ==> t[k] == 48
  {
    if t != [] {
      DigitsValueZero(t[..|t| - 1]);
    }
  }

  /** `_parsePort` throws exactly when the maximal digit run is empty or all
      zeros; otherwise `_port` becomes that run's value, at least 1, the
      returned count is the run's length, and nothing else changes. */
  lemma ParsePortMeaning(f: Fields, s: Text, start: nat, end: int)
    requires start <= end + 1 && end < |s|
    ensures var e := DigitRunEnd(s, start, end);
      var (f', r) := ParsePortSpec(f, s, start, end);
      (r.Err? <==> forall k :: start <= k < e ==> s[k] == 48) &&
      (r.Err? ==> r.error == InvalidPort && f' == f) &&
      (r.Ok? ==> r.value == e - start >= 1 && f'.port >= 1 &&
                 f'.port == DigitsValue(s[start..e]) && f' == f.(port := f'.port))
  {
    var e := DigitRunEnd(s, start, end);
    DigitsValueZero(s[start..e]);
    assert forall k :: start <= k < e ==> s[start..e][k - start] == s[k];
  }

  // ---------------------------------------------------------------------
  // _parseAuth and the inner scan of an '@'

  /** `_parseAuth(str, start, end, decode)`: `auth` is the slice, percent-
      decoded when the flag is set; a decoding failure throws and leaves
      `auth` as it was. */
  function ParseAuthSpec(f: Fields, s: Text, start: nat, end: int, doDecode: bool,
                         decode: Text -> Option<Text>): (Fields, Option<Error>)
  {
    var raw := Slice(s, start, if end + 1 < 0 then 0 else end + 1);
    if !doDecode then (f.(auth := raw), None)
    else match decode(raw)
      case None => (f, Some(MalformedUserinfo))
      case Some(decoded) => (f.(auth := decoded), None)
  }

  /** One unfolding of the inner loop at an index it has not passed. */
  lemma AuthScanUnfold(s: Text, end: int, j: nat, at: nat, doDecode: bool, ch: int)
    requires at < j <= end && end < |s| && s[at] == 64
    requires forall k :: at < k < j ==> s[k] != 64 && !IsHostEnding(s[k])
    ensures var c := s[j];
      AuthScan(s, end, j, at, doDecode, ch) ==
        if c == 64 then AuthScan(s, end, j + 1, j, doDecode, c)
        else if c == 37 then AuthScan(s, end, j + 1, at, true, c)
        else if c < 128 && IsHostEnding(c) then AuthScanEnd(at, doDecode, c)
        else AuthScan(s, end, j + 1, at, doDecode, c)
  {
  }

  /** The index of the first host-ending character from `i` on, or `end + 1`. */
  function NextEnding(s: Text, i: nat, end: int): (r: nat)
    requires i <= end + 1 && end < |s|
    ensures i <= r <= end + 1
    ensures forall k :: i <= k < r ==> !IsHostEnding(s[k])
    ensures r <= end ==> IsHostEnding(s[r])
    decreases end + 1 - i
  {
    if i <= end && !IsHostEnding(s[i]) then NextEnding(s, i + 1, end) else i
  }

  /** What the inner loop started by an '@' leaves behind: the index of the
      last '@' (the `i` it hands back), the decode flag, and the last code
      unit it read into `ch` (which becomes `lastCh`). */
  datatype AuthScanEnd = AuthScanEnd(at: nat, doDecode: bool, lastRead: int)

  /** Whether some '%' lies in `s[lo..hi]`. */
  predicate HasPercent(s: Text, lo: int, hi: int)
    requires 0 <= lo && hi <= |s|
  {
    exists k :: lo <= k < hi && s[k] == 37
  }

  /** The inner loop of `_parseHost` from index `j` on: an '@' moves `at`,
      a '%' sets the decode flag, a host-ending character stops the loop.
      Its contract says where it ends: `at` is the last '@' before the next
      host-ending character, and the flag says whether a '%' came first. */
  function AuthScan(s: Text, end: int, j: nat, at: nat, doDecode: bool, ch: int): (r: AuthScanEnd)
    requires at < j <= end + 1 && end < |s|
    requires s[at] == 64
    requires forall k :: at < k < j ==> s[k] != 64 && !IsHostEnding(s[k])
    ensures at <= r.at <= end && s[r.at] == 64
    ensures r.at < NextEnding(s, j, end) || r.at == at
    ensures forall k :: r.at < k < NextEnding(s, j, end) ==> s[k] != 64 && !IsHostEnding(s[k])
    ensures r.doDecode == (doDecode || HasPercent(s, j, NextEnding(s, j, end)))
    ensures r.lastRead == if NextEnding(s, j, end) <= end then s[NextEnding(s, j, end)]
                          else if j <= end then s[end] else ch
    decreases end + 1 - j
  {
    if j > end then AuthScanEnd(at, doDecode, ch)
    else
      var c := s[j];
      if c == 64 then AuthScan(s, end, j + 1, j, doDecode, c)
      else if c == 37 then AuthScan(s, end, j + 1, at, true, c)
      else if c < 128 && IsHostEnding(c) then AuthScanEnd(at, doDecode, c)
      else AuthScan(s, end, j + 1, at, doDecode, c)
  }

  // ---------------------------------------------------------------------
  // _parseHost

  /** The local variables of `_parseHost`, with the object's fields. */
  datatype HostScan = HostScan(
    authParsed: bool,
    doLowerCase: bool,
    idna: bool,
    hostNameStart: nat,
    hostNameEnd: int,
    lastCh: int,
    portLength: nat,
    charsAfterDot: int,
    fields: Fields)

  /** Where the loop of `_parseHost` stops: its state, and the exception it
      raised, if any. */
  datatype HostLoopEnd = HostLoopEnd(scan: HostScan, error: Option<Error>)

  /** The code units the authority loop steps over: ASCII letters, digits,
      '-', '_', '.', and everything from 0x7F on. Any other code unit
      ends the host name (or starts the port, or the userinfo). */
  predicate IsHostNameChar(c: int)
  {
    97 <= c <= 122 || IsAsciiUpper(c) || IsDigit(c) || c == 45 || c == 95 || c == 46 || c >= 0x7F
  }

  /** The bottom of the loop body: `lastCh = ch; charsAfterDot++`. */
  function Advance(st: HostScan, ch: int): HostScan
  {
    st.(lastCh := ch, charsAfterDot := st.charsAfterDot + 1)
  }

  /** One pass of the loop body of `_parseHost` at index `i`: either the
      loop goes on at a later index, or it stops (by `break`, with no
      exception, or by a throw). */
  datatype HostStepEnd = Next(i: nat, st: HostScan) | Stop(st: HostScan, error: Option<Error>)

  /** The body of the loop of `_parseHost` at index `i`. `start` is the value
      of `start` after "//" was skipped, where the userinfo would begin. */
  function HostStep(s: Text, start: nat, end: int, i: nat, st: HostScan,
                    decode: Text -> Option<Text>): (r: HostStepEnd)
    requires start <= i <= end && end < |s|
    ensures r.Next? ==> i < r.i <= end + 1 && r.st.hostNameEnd == st.hostNameEnd
    ensures r.Stop? ==> r.st.hostNameEnd == st.hostNameEnd || r.st.hostNameEnd == i - 1
  {
    if st.charsAfterDot > 63 then Stop(st, Some(LabelTooLong))
    else if s[i] == 64 then
      if st.authParsed then Stop(st, Some(DuplicateUserinfo)) else AtStep(s, start, end, i, st, decode)
    else if s[i] == 58 then PortStep(s, end, i, st)
    else CharStep(i, st, s[i])
  }

  /** The '@' branch: the inner loop finds the last '@' before the next
      host-ending character, the userinfo is stored, and the outer loop
      goes on after that '@'. */
  function AtStep(s: Text, start: nat, end: int, i: nat, st: HostScan,
                  decode: Text -> Option<Text>): (r: HostStepEnd)
    requires start <= i <= end && end < |s| && s[i] == 64
    ensures r.Next? ==> i < r.i <= end + 1 && r.st.hostNameEnd == st.hostNameEnd
    ensures r.Stop? ==> r.st.hostNameEnd == st.hostNameEnd && r.error == Some(MalformedUserinfo)
    ensures r.st.portLength == st.portLength
    ensures var a := AuthScan(s, end, i + 1, i, false, s[i]);
      r.Next? ==>
        && r.i == a.at + 1 && r.st.hostNameStart == a.at + 1 && r.st.authParsed
        && r.st.fields == st.fields.(auth := r.st.fields.auth)
        && (if a.doDecode then decode(s[start..a.at]) == Some(r.st.fields.auth)
            else r.st.fields.auth == s[start..a.at])
  {
    var a := AuthScan(s, end, i + 1, i, false, s[i]);
    var st1 := st.(authParsed := true);
    var (f1, err) := ParseAuthSpec(st1.fields, s, start, a.at - 1, a.doDecode, decode);
    if err.Some? then Stop(st1, err)
    else Next(a.at + 1, Advance(st1.(fields := f1, hostNameStart := a.at + 1), a.lastRead))
  }

  /** The ':' branch: the port is read and the loop stops. */
  function PortStep(s: Text, end: int, i: nat, st: HostScan): (r: HostStepEnd)
    requires i <= end && end < |s|
    ensures r.Stop?
    ensures r.st.hostNameEnd == st.hostNameEnd || r.st.hostNameEnd == i - 1
    ensures r.st.fields == st.fields.(port := r.st.fields.port)
    ensures r.st.authParsed == st.authParsed && r.st.hostNameStart == st.hostNameStart
  {
    var (f1, r) := ParsePortSpec(st.fields, s, i + 1, end);
    if r.Err? then Stop(st, Some(r.error))
    else Stop(st.(fields := f1, portLength := r.value, hostNameEnd := i - 1), None)
  }

  /** The branches for every other code unit `ch`: a '.' (after the dot
      checks), a capital, '-', '_', a digit, a small letter or a code unit
      from 0x7F on is stepped over; anything else ends the host name. */
  function CharStep(i: nat, st: HostScan, ch: CodeUnit): (r: HostStepEnd)
    ensures r.Next? ==> r.i == i + 1 && r.st.hostNameEnd == st.hostNameEnd && IsHostNameChar(ch)
    ensures r.Stop? ==> r.st.hostNameEnd == st.hostNameEnd || r.st.hostNameEnd == i - 1
    ensures r.Stop? && r.error == None ==> r.st.hostNameEnd == i - 1 && !IsHostNameChar(ch)
    ensures r.st.fields == st.fields && r.st.portLength == st.portLength
    ensures r.st.authParsed == st.authParsed && r.st.hostNameStart == st.hostNameStart
  {
    if ch < 97 then
      if ch == 46 then
        if st.lastCh == 46 || st.lastCh == -1 then Stop(st, Some(MisplacedDot))
        else Next(i + 1, Advance(st.(charsAfterDot := -1), ch))
      else if IsAsciiUpper(ch) then Next(i + 1, Advance(st.(doLowerCase := true), ch))
      else if ch == 45 || ch == 95 || IsDigit(ch) then Next(i + 1, Advance(st, ch))
      else Stop(st.(hostNameEnd := i - 1), None)
    else if ch >= 0x7B then
      if ch <= 0x7E then Stop(st.(hostNameEnd := i - 1), None)
      else Next(i + 1, Advance(st.(idna := true), ch))
    else Next(i + 1, Advance(st, ch))
  }

  /** The loop of `_parseHost` from index `i` on. */
  function HostLoop(s: Text, start: nat, end: int, i: nat, st: HostScan,
                    decode: Text -> Option<Text>): (r: HostLoopEnd)
    requires start <= i && end < |s| && st.hostNameEnd >= -1
    ensures r.scan.hostNameEnd >= -1
    decreases end + 1 - i
  {
    if i > end then HostLoopEnd(st, None)
    else
      match HostStep(s, start, end, i, st, decode)
      case Next(i', st') => HostLoop(s, start, end, i', st', decode)
      case Stop(st', error) => HostLoopEnd(st', error)
  }

  /** The index the second test of `_parseHost` reads. The misplaced
      parenthesis makes it `charCodeAt(start + 1 === 47)`: the comparison is
      `true`, read as index 1, exactly when `start` is 46, and `false`,
      read as index 0, otherwise. */
  function MisplacedTestIndex(start: nat): (k: nat)
    ensures k <= start
    ensures k == 1 <==> start == 46
  {
    if start + 1 == 47 then 1 else 0
  }

  /** Whether `_parseHost` scans an authority at all: the code unit at
      `start` is '/', and the one at `MisplacedTestIndex(start)` (the first
      or, for `start == 46`, the second of the whole input) is non-zero. */
  predicate StartsAuthority(s: Text, start: nat)
  {
    start < |s| && s[start] == 47 && s[MisplacedTestIndex(start)] != 0
  }

  /** The state the loop starts from, at `start` (already past "//"). */
  function InitialScan(f: Fields, start: nat, end: int): HostScan
  {
    HostScan(false, false, false, start, end, -1, 0, 0, f)
  }

  /** The host name slice, lowered if a capital was seen. */
  function HostnameOf(s: Text, st: HostScan): Text
    requires st.hostNameEnd >= -1
  {
    var raw := Slice(s, st.hostNameStart, st.hostNameEnd + 1);
    if st.doLowerCase then AsciiLowerText(raw) else raw
  }

  /** `_parseHost(str, start, end)` after the loop has run from `a`, the
      index just past "//". */
  function FinishHost(s: Text, a: nat, end: int, r: HostLoopEnd): (out: (Fields, Result<int>))
    requires r.scan.hostNameEnd >= -1
    ensures var st := r.scan;
      out.1.Ok? ==>
        && r.error == None && st.lastCh != 46
        && out.1.value == st.hostNameEnd + 1 + st.portLength
        && (st.hostNameEnd + 1 == a ==> out.0 == st.fields)
        && (st.hostNameEnd + 1 != a ==>
              && !st.idna && st.hostNameEnd - st.hostNameStart <= 256
              && out.0 == st.fields.(hostname := HostnameOf(s, st),
                                     host := HostOf(HostnameOf(s, st), st.fields.port)))
    ensures out.1.Err? ==> out.0 == r.scan.fields
  {
    var st := r.scan;
    if r.error.Some? then (st.fields, Err(r.error.value))
    else if st.lastCh == 46 then (st.fields, Err(TrailingDot))
    else if st.hostNameEnd + 1 != a then
      if st.hostNameEnd - st.hostNameStart > 256 then (st.fields, Err(HostnameTooLong))
      else
        var hostname := HostnameOf(s, st);
        if st.idna then (st.fields, Err(IdnaUnavailable))
        else (st.fields.(hostname := hostname, host := HostOf(hostname, st.fields.port)),
              Ok(st.hostNameEnd + 1 + st.portLength))
    else (st.fields, Ok(st.hostNameEnd + 1 + st.portLength))
  }

  /** `this._port > 0 ? hostname + ":" + this._port : hostname`. */
  function HostOf(hostname: Text, port: int): (r: Text)
    ensures port > 0 ==> r == hostname + [58] + DecimalText(port)
    ensures port <= 0 ==> r == hostname
  {
    if port > 0 then hostname + [58] + DecimalText(port) else hostname
  }

  /** The loop of `_parseHost` run from just past "//". */
  function HostScanOf(f: Fields, s: Text, start: nat, end: int,
                      decode: Text -> Option<Text>): (r: HostLoopEnd)
    requires -1 <= end < |s|
    ensures r.scan.hostNameEnd >= -1
  {
    HostLoop(s, start + 2, end, start + 2, InitialScan(f, start + 2, end), decode)
  }

  /** `_parseHost(str, start, end)`: returns the index where scanning goes
      on, or the exception. */
  function ParseHostSpec(f: Fields, s: Text, start: nat, end: int,
                         decode: Text -> Option<Text>): (r: (Fields, Result<int>))
    requires -1 <= end < |s| && start <= end + 1
    ensures r.1.Ok? ==> r.1.value >= 0
  {
    if StartsAuthority(s, start) then FinishHost(s, start + 2, end, HostScanOf(f, s, start, end, decode))
    else (f, Ok(start))
  }

  /** `_parseHost` raises what its loop raised, with the fields as they
      were when it was raised. */
  lemma FinishOnError(s: Text, a: nat, end: int, st: HostScan, e: Error)
    requires st.hostNameEnd >= -1
    ensures FinishHost(s, a, end, HostLoopEnd(st, Some(e))) == (st.fields, Err(e))
  {
  }

  /** One unfolding of the loop at an index it has not passed. */
  lemma HostLoopUnfold(s: Text, start: nat, end: int, i: nat, st: HostScan,
                       decode: Text -> Option<Text>)
    requires start <= i <= end < |s| && st.hostNameEnd >= -1
    ensures var r := HostStep(s, start, end, i, st, decode);
      HostLoop(s, start, end, i, st, decode) ==
        if r.Next? then HostLoop(s, start, end, r.i, r.st, decode) else HostLoopEnd(r.st, r.error)
  {
  }
}
