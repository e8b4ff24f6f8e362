# urlparser.js in Dafny

This project models `js/urlparser.js`, a single-pass URL scanner written as
one JavaScript constructor, `Url`, and its prototype methods. `parse(str)`
does the following, in order:

- it trims code units up to 32 from both ends of the input;
- it reads the scheme up to the first ':' (`_parseProtocol`);
- unless the scheme is "javascript", it reads the authority after "//"
  (`_parseHost`, with `_parseAuth` for the userinfo and `_parsePort` for the
  port);
- it hands what is left to `_parsePath`, `_parseQuery` or `_parseHash`,
  which hand off to each other at '?' and '#';
- it escapes a component with `_getComponentEscaped` when it holds an
  auto-escape character.

`format` builds the URL back from the fields. The `port`, `path`, `protocol`
and `href` accessors read and write single fields, and `href` caches what
`format` returns.

The model has these parts:

- **Text and state.** Text is a sequence of UTF-16 code units
  (`JsText.CodeUnit`). The object's eleven fields are the class
  `UrlObject.Url`, and its `Snapshot()` is the record `UrlState.Fields`.
- **Errors.** Every exception is an `UrlState.Error`. There is one
  constructor per throw site, except `InvalidProtocol`, which stands for
  both throws of "invalid protocol": no ':' at all, and a scheme that does
  not match. `UnencodableUserinfo` is the URIError that
  `encodeURIComponent` raises on `auth` in `format`.
- **Spec functions.** Every scanner is a pure state transformer on
  `Fields`, in the modules `Scheme`, `Authority`, `Components`, `Parse`,
  `Escaping` and `Format`.
- **Methods.** The class runs the source's loops as methods with loop
  invariants. Each method is proved to end in the state its spec function
  gives: `Snapshot() == Spec(old(Snapshot()), …)`.
- **Properties.** They are lemmas about the spec functions, in the modules
  `HostName`, `UserInfo`, `HostResult`, `Components`, `Escaping`, `Format`
  and `ParseFacts`. `HostRejections` gives the host name errors.
  `RoundTrip` relates `format` to `parse` on chosen
  inputs.

Partial writes before an exception stay written, as in the source. `parse`
can throw half-way after `_parseHost` has already stored the userinfo or the
port: the spec functions return the fields as they were at the throw.

The model follows the code literally, including the quirks below.

- **The authority test.** It reads
  `str.charCodeAt(start) === 47 && str.charCodeAt(start + 1 === 47)`. The
  second test's index is a comparison: it reads code unit 1 of the whole
  input (`true`) when `start` is 46, and code unit 0 (`false`) otherwise.
  So an authority is scanned whenever the code unit at `start` is '/' and
  that code unit is not U+0000, and then two code units are skipped
  (`Authority.StartsAuthority`, `HostRejections.AuthorityTestReadsSecondUnit`).
- **The index `_parseHost` returns.** When a port is present it is the
  index of the last port digit. The dispatch in `parse` then throws
  whenever any code unit follows the port (`ParseFacts.PortEndsInput`).
- **The dispatch.** It runs only when at least two code units remain: a
  single trailing '/', '?' or '#', or any single code unit at all, is
  ignored.
- **The fragment.** A fragment span of fewer than two code units gives an
  empty `hash`.
- **The scheme scan.** It sets its lowercase flag for any code unit below
  97, not only for capitals.
- **The second-'@' check.** In `_parseHost` this check (`if (authParsed)
  throw`) cannot fire. The inner scan of the first '@' always runs up to the
  next '#', '?' or '/', moving past every '@' on the way, and the outer loop
  breaks at that character before it meets another '@'
  (`HostResult.NoDuplicateUserinfo`).
- **The label-length check.** It runs at the top of the next pass. A last
  label of 64 code units is therefore accepted when it runs to the end of
  the input.
- **The label counter and the userinfo.** `charsAfterDot` is not reset at
  an '@', and the '@' pass itself adds one. So the userinfo since its last
  '.' counts toward the first label of the host. In "http://" + 63 × "a" +
  "@b/" the pass at 'b' throws LabelTooLong, while the host name would be
  "b" (`HostRejections.UserinfoCountsTowardLabel`). Likewise the dot rules
  apply to the userinfo: "http://a..b@h/" throws MisplacedDot
  (`HostRejections.DoubleDotBeforeUserinfo`).
- **The host name length check.** `hostNameEnd - hostNameStart > 256` is on
  inclusive indices, so 257 code units are accepted.
- **Userinfo with ':'.** In "user:pass@host" the ':' reaches `_parsePort`
  before any '@' is seen. The empty digit run there throws.
- **The "javascript" scheme.** It only skips the authority scan.
  "javascript:alert(1)" then throws at the dispatch, because 'a' is not '/',
  '?' or '#'.
- **Code units from 128 on.** They have no entry in the 128-entry escape
  map, and the lookup yields `undefined`, which is not "". So
  `_getComponentEscaped` appends the text "undefined" for each of them
  (`Escaping.MapEntry`). In `_parsePath` and `_parseQuery` this happens
  only when the span also holds an ASCII auto-escape character, since
  nothing from 128 on sets their escape flag. `_parseHash` always escapes,
  so every code unit from 128 on in a fragment becomes "undefined":
  "#x\u00e9" gives the `hash` "#xundefined".
- **`_escapePathName` and `_escapeSearch`.** Both return their argument,
  and `format` is modelled that way.
- **`slashes`.** No code in the file sets `slashes`, so it keeps the
  constructor's `false` unless a caller assigns it. `format` therefore
  drops the "//" of an authority whose scheme is not one of the five slash
  protocols (see Findings).

## Model

| member | source | states |
|---|---|---|
| UrlObject.Url.constructor | js/urlparser.js:23-36 | a new object holds the constructor's field values (`INITIAL`) |
| UrlState.InitialConsistent | js/urlparser.js:23-36 | the constructor's fields satisfy `Consistent`: the path starts with '/', `search` is what `_queryToSearch` makes of `query`, the fragment is empty or starts with '#' |
| Parse.ParseSpec | js/urlparser.js:38-73 | defines `parse` on the fields: trim, scheme, `_parseHost` unless "javascript", then the dispatch; the fields written before a throw stay written. Its properties are the `ParseFacts` lemmas |
| UrlObject.Url.Parse | js/urlparser.js:38-73 | `parse` ends in the fields and exception that `ParseSpec` gives: trim, scheme, authority unless "javascript", then dispatch |
| UrlObject.Url.Trim | js/urlparser.js:43-44 | the two trimming loops stop at the first and at the last code unit above 32 |
| Scheme.SkipLeading | js/urlparser.js:43 | every code unit skipped is at most 32, and the stopping one is above 32 or past the end |
| Scheme.SkipTrailing | js/urlparser.js:44 | every code unit skipped is at most 32, and the stopping one is above 32 or the index is -1 |
| Scheme.TrimmedRange | js/urlparser.js:43-44 | the trimmed range is empty exactly for an input of blanks, and then is length to -1; otherwise both ends are above 32 |
| UrlObject.Url.ParseProtocol | js/urlparser.js:136-156 | returns -1 when the scan finds no ':', throws InvalidProtocol for a bad scheme, else stores the scheme and returns the index after ':' |
| Scheme.ScanProtocol | js/urlparser.js:136-156 | a scheme found matches `[a-z.+-]+` and the returned index is just past a ':' |
| Scheme.ScanProtocolFrom | js/urlparser.js:136-156 | from any index before the first ':', the scan finds no colon exactly when none is left, and otherwise its outcome is fixed by the first ':' |
| Scheme.SchemeScanMeaning | js/urlparser.js:136-156 | no ':' in the trimmed range gives -1; otherwise the result is the lowercased prefix up to the first ':', accepted exactly when it matches `[a-z.+-]+` |
| Scheme.SchemeHasNoDigit | js/urlparser.js:476 | an accepted scheme is non-empty and holds no digit and no capital |
| ParseFacts.ParseSchemeStep | js/urlparser.js:46-50 | a scan with no ':' or a bad scheme makes `parse` throw InvalidProtocol with the fields untouched; a found scheme becomes `_protocol` |
| ParseFacts.ParseProtocolOutcome | js/urlparser.js:46-50 | with no ':' in the trimmed input `parse` throws InvalidProtocol and writes nothing; else the lowercased prefix is stored if valid and `parse` throws otherwise |
| ParseFacts.JavascriptKeepsAuthority | js/urlparser.js:52-54 | after a "javascript" scheme `auth`, `_port`, `host` and `hostname` stay as they were |
| ParseFacts.JavascriptDispatch | js/urlparser.js:52-72 | after a "javascript" scheme `parse` throws exactly when at least two code units follow the ':' and the first is not '/', '?' or '#' |
| Parse.DispatchSpec | js/urlparser.js:57-72 | the dispatch throws UnexpectedCharacter, writing nothing, exactly when `i < end` and the code unit at `i` is not '/', '?' or '#' |
| UrlObject.Url.Dispatch | js/urlparser.js:57-72 | the dispatch method ends in the state and error of `DispatchSpec` |
| ParseFacts.DispatchFrame | js/urlparser.js:57-72 | the dispatch writes only `pathname`, `search`, `query` and `hash` |
| ParseFacts.DispatchKeepsConsistent | js/urlparser.js:57-72 | the dispatch keeps `Consistent` whichever scanner it picks |
| ParseFacts.ParseFrame | js/urlparser.js:38-73 | `parse` never writes `_href` or `slashes` |
| ParseFacts.ParseKeepsConsistent | js/urlparser.js:38-73 | `parse` keeps `Consistent`, also when it throws half-way |
| ParseFacts.PortEndsInput | js/urlparser.js:276 | with a port, `_parseHost` returns the index of its last digit, and the dispatch throws exactly when anything follows that digit |
| UrlObject.ParseUrl | js/urlparser.js:424-428 | `Url.parse` gives a fresh object whose fields and exception are `parse` applied to the constructor's fields |
| UrlObject.Url.ParseAuth | js/urlparser.js:158-164 | `auth` becomes the slice, or its decoding when the flag is set; a failed decoding throws MalformedUserinfo and leaves `auth` alone |
| UrlObject.Url.ParsePort | js/urlparser.js:166-185 | `_parsePort` ends in the state and result of `ParsePortSpec` |
| Authority.ParsePortSpec | js/urlparser.js:166-185 | defines `_parsePort`: the value of the digit run, 0 throwing InvalidPort; its properties are `ParsePortMeaning` |
| Authority.DigitRunEnd | js/urlparser.js:168-176 | the loop stops at the end of the maximal run of decimal digits |
| Authority.DigitsValueZero | js/urlparser.js:178 | a digit run is worth 0 exactly when every digit is '0' |
| Authority.ParsePortMeaning | js/urlparser.js:166-185 | `_parsePort` throws exactly when the run is empty or all zeros; otherwise `_port` is the run's value, at least 1, the count of digits is returned, and nothing else changes |
| JsText.DecimalText | js/urlparser.js:385 | the decimal spelling of a port is non-empty, all digits, with no leading zero |
| JsText.DecimalRoundTrip | js/urlparser.js:385 | reading the decimal spelling back gives the number |
| Authority.ParseAuthSpec | js/urlparser.js:158-164 | defines `_parseAuth`: `auth` is the slice, or its decoding when the flag is set, and a failed decoding throws MalformedUserinfo with `auth` unchanged |
| Authority.MisplacedTestIndex | js/urlparser.js:188-189 | the index `charCodeAt(start + 1 === 47)` reads is 1 exactly when `start` is 46, else 0, and never past `start` |
| Authority.StartsAuthority | js/urlparser.js:188-189 | defines the authority test: the code unit at `start` is '/' and the one at `MisplacedTestIndex(start)` is not U+0000 |
| HostRejections.AuthorityTestReadsSecondUnit | js/urlparser.js:188-189 | at `start == 46` the test reads code unit 1: U+0000 + 44 × "a" + "://h/x" scans the authority and stores the host name "h", while " " + U+0000 + 43 × "a" + "://h/x" scans none |
| Authority.ParseHostSpec | js/urlparser.js:187-279 | without "//" (as `_parseHost` tests it) nothing changes and `start` is returned; otherwise the loop runs from just past "//" and `FinishHost` ends it; a returned index is never negative |
| Authority.HostLoop | js/urlparser.js:201-258 | the loop of `_parseHost` from index `i`: it ends past `end` or where a pass stops, and `hostNameEnd` stays at least -1 |
| UrlObject.Url.ParseHost | js/urlparser.js:187-279 | `_parseHost` ends in the state and result of `ParseHostSpec`, including the exception raised part-way |
| UrlObject.Url.ScanHost | js/urlparser.js:201-258 | the loop method ends in the state and exception that `HostLoop` gives from just past "//" |
| UrlObject.Url.ScanStep | js/urlparser.js:201-258 | one pass of the loop body on the local variables is `HostStep`: it goes on at the next index or stops, by `break` or by a throw |
| UrlObject.Url.HostChar | js/urlparser.js:233-257 | the branches for a code unit other than '@' and ':' are `CharStep`: the flags and counter it steps, or the break, or the dot error |
| UrlObject.Url.ReadUserinfo | js/urlparser.js:207-227 | the '@' branch is `AtStep`: the inner loop, `_parseAuth`, and the outer loop going on after the last '@' |
| UrlObject.Url.ScanUserinfo | js/urlparser.js:211-223 | the inner loop ends with the last '@', the decode flag and the last code unit read that `AuthScan` gives |
| Authority.AuthScan | js/urlparser.js:211-223 | the inner loop ends at the last '@' before the next '#', '?' or '/', and its decode flag is whether a '%' comes before that character |
| Authority.NextEnding | js/urlparser.js:220-222 | the index of the first host-ending character from `i` on, or `end + 1` |
| Authority.HostStep | js/urlparser.js:201-258 | one pass either goes on at a later index, keeping `hostNameEnd`, or stops with `hostNameEnd` kept or set to `i - 1` |
| Authority.AtStep | js/urlparser.js:207-227 | after an '@', `auth` is the slice from just past "//" to the last '@', decoded exactly when the inner loop met '%', and the scan goes on after that '@' with `hostNameStart` there |
| Authority.PortStep | js/urlparser.js:228-232 | a ':' always stops the loop; only `_port` can change, and `hostNameEnd` becomes `i - 1` unless `_parsePort` throws |
| Authority.CharStep | js/urlparser.js:233-257 | the loop steps over exactly the host name characters, and a break sets `hostNameEnd` to `i - 1` on any other code unit; no field changes |
| Authority.FinishHost | js/urlparser.js:260-276 | after the loop: a trailing '.' throws; a non-empty slice needs at most 257 code units and no IDNA; the host name is stored with `host`, and the return is `hostNameEnd + 1 + portLength` |
| Authority.HostOf | js/urlparser.js:273 | `host` is `hostname + ":" + port` exactly when the port is positive, else `hostname` |
| Authority.FinishOnError | js/urlparser.js:201-204 | an exception raised in the loop leaves `_parseHost` with the fields as they were at the throw |
| HostResult.ParseHostName | js/urlparser.js:264-274 | a stored host name is the slice lowercased, in `HostnameShape`, with a last label of at most 63 unless the scan ran to the end, at most 257 long, starting with '.' only after a userinfo; `host` is `HostOf` it |
| HostResult.ParseHostUserinfo | js/urlparser.js:207-227 | after a successful `_parseHost`, the userinfo satisfies `UserinfoFacts` when an '@' was met, and `auth` is untouched otherwise |
| HostResult.NoDuplicateUserinfo | js/urlparser.js:207-208 | `_parseHost` never raises the error for a second '@' |
| HostResult.ParseHostNext | js/urlparser.js:276 | the returned index is `hostNameEnd + 1 + portLength`, where the loop ends as `ExitFacts` says |
| HostResult.ParseHostFrame | js/urlparser.js:187-279 | `_parseHost` writes only `auth`, `_port`, `hostname` and `host`, whether it returns or throws |
| HostResult.LeadingDotRejected | js/urlparser.js:234-237 | a '.' as the first code unit after "//" throws MisplacedDot with nothing written |
| HostRejections.DotAfterDotRejected | js/urlparser.js:234-237 | a '.' after a '.' (or first in the loop) ends the loop with MisplacedDot and nothing more written |
| HostRejections.LongLabelRejected | js/urlparser.js:202-204 | a pass that starts with more than 63 code units since the last '.' ends the loop with LabelTooLong, whatever the code unit |
| HostRejections.SmallLetterRun | js/urlparser.js:201-258 | the loop steps over a run of small letters, counting each toward the label, as long as no pass starts above 63 |
| HostRejections.LabelOf64Rejected | js/urlparser.js:201-258 | a label of 64 small letters after a '.' or "//" throws LabelTooLong at the pass after its last letter |
| HostRejections.DoubleDotBeforeUserinfo | js/urlparser.js:234-237 | "http://a..b@h/" throws MisplacedDot before the '@' is reached |
| HostRejections.UserinfoCountsTowardLabel | js/urlparser.js:207-257 | in "http://" + 63 × "a" + "@b/" the userinfo is stored, then the pass at 'b' throws LabelTooLong because the counter was not reset at '@' |
| HostResult.HostLoopExit | js/urlparser.js:201-258 | a loop that ends without an exception either ran to the end, or stopped at a non-host-name character; after a ':' the port is the maximal digit run |
| HostResult.HostnameOfShape | js/urlparser.js:260-270 | the lowered slice has the host name shape when the loop ended without a trailing '.' or IDNA |
| HostResult.FinishHostName | js/urlparser.js:260-274 | the tail of `_parseHost` stores a host name in `HostnameShape`, at most 257 long, and `host` is `HostOf` it |
| HostResult.HostLoopFrame | js/urlparser.js:201-258 | the loop writes only `auth` and `_port` |
| HostResult.HostStepFrame | js/urlparser.js:201-258 | one pass of the loop body writes only `auth` and `_port` |
| HostResult.HostStepExit | js/urlparser.js:228-232 | a pass that stops without an exception leaves the state `ExitFacts` describes |
| HostName.HostLoopName | js/urlparser.js:201-258 | the loop keeps `NameInvariant`: the scanned code units are host name characters following the dot rules, capitals set the lowercase flag, 0x7F on sets IDNA |
| HostName.HostStepName | js/urlparser.js:201-258 | one pass keeps the invariant or stops where `NameAtExit` holds |
| HostName.CharStepName | js/urlparser.js:233-257 | the ordinary code unit branch keeps the invariant or stops where `NameAtExit` holds |
| HostName.AtStepName | js/urlparser.js:224-226 | after a userinfo the loop goes on with an empty scanned name |
| HostName.PortStepName | js/urlparser.js:228-231 | a ':' ends the name where the invariant held |
| HostName.TailRunLower | js/urlparser.js:270 | lowering keeps the length of the last label |
| HostName.LoweredName | js/urlparser.js:270 | a scanned name with no trailing '.' and no IDNA code unit has the host name shape once lowered, and lowering is the identity without a capital |
| UserInfo.InnerScanFacts | js/urlparser.js:211-223 | the inner loop ends at the last '@' before the next host-ending character, and its flag is whether a '%' lies between "//" and that character |
| UserInfo.AtStepUserinfo | js/urlparser.js:207-227 | the first '@' restores the userinfo invariant, or throws MalformedUserinfo |
| UserInfo.NoSecondUserinfo | js/urlparser.js:208 | under the invariant, an '@' is never met after the userinfo was taken |
| UserInfo.HostStepUserinfo | js/urlparser.js:201-258 | one pass keeps the userinfo invariant, and never throws the second-'@' error |
| UserInfo.HostLoopUserinfo | js/urlparser.js:201-258 | the loop ends without the second-'@' error, and `AuthAtExit` holds when it ends without an exception |
| Escaping.MapEntry | js/urlparser.js:289-291 | the lookup `autoEscapeMap[ch]`: the map's entry below 128, and "undefined" from 128 on; its properties are `MapEntryEmptyIffKept` and `ReplacementIsKept` |
| Escaping.Escaped | js/urlparser.js:281-299 | defines the escaped copy of a slice: each code unit replaced by its map entry when that is non-empty; its properties are the `Escaped…` lemmas |
| Escaping.GetComponentEscaped | js/urlparser.js:281-299 | `_getComponentEscaped(str, start, end)` returns `Escaped(str[start..end+1])` |
| Escaping.ReplaceRuns | js/urlparser.js:283-298 | the run-copying loop is the by-index replacement of every code unit that has a non-empty entry |
| Escaping.ReplacedRangeIsEscaped | js/urlparser.js:287-297 | replacing by index with the map's entries is the escaped copy of the slice |
| Escaping.MapEntryEmptyIffKept | js/urlparser.js:289-291 | a map entry is "" exactly for an ASCII code unit that is not an auto-escape character |
| Escaping.ReplacementIsKept | js/urlparser.js:291-293 | every replacement is non-empty and holds no code unit that would be escaped again |
| Escaping.ReplacementOfKept | js/urlparser.js:291-293 | a code unit comes through alone exactly when it is kept |
| Escaping.EscapedAppend | js/urlparser.js:281-299 | escaping a concatenation is the concatenation of the escaped parts |
| Escaping.EscapedUnchanged | js/urlparser.js:281-299 | a slice without a code unit to escape comes back unchanged |
| Escaping.EscapedNotShorter | js/urlparser.js:281-299 | the escaped copy is never shorter than the slice |
| Escaping.EscapedIsClean | js/urlparser.js:281-299 | the escaped copy holds no code unit that would be escaped again |
| Escaping.EscapedIdempotent | js/urlparser.js:281-299 | escaping twice is escaping once |
| UrlObject.Url.ScanComponent | js/urlparser.js:307-322 | the shared loop stops where `ComponentScan` says, with its escape flag |
| Components.ComponentScan | js/urlparser.js:345-356 | the loop stops at the first '#' (or '?' for the path) or past the end |
| Components.ComponentScanMeaning | js/urlparser.js:307-322 | the scan passes no '#' (and, for the path, no '?'), and its flag is whether it passed an auto-escape character |
| UrlObject.Url.ComponentOf | js/urlparser.js:329-335 | the component text is the escaped copy when the flag is set, else the slice |
| Components.ComponentTextIsEscaped | js/urlparser.js:329-335 | on ASCII the text a component keeps is the escaped span whichever way the flag went |
| Components.PathSpec | js/urlparser.js:301-337 | defines `_parsePath`: the path up to the first '#' or '?', then the fragment or query scanner; its properties are `PathMeaning` and `PathKeepsConsistent` |
| UrlObject.Url.ParsePath | js/urlparser.js:301-337 | `_parsePath` ends in the state `PathSpec` gives, handing off to `_parseHash` or `_parseQuery` |
| Components.PathMeaning | js/urlparser.js:301-337 | `pathname` starts with '/', is "/" exactly for an empty span, else "/" and the span's text; at '#' or '?' the fragment or query scanner takes over and nothing else changes |
| Components.PathnameTextMeaning | js/urlparser.js:324-336 | a stored path starts with '/', is "/" exactly for an empty span, and otherwise continues with the span's text |
| Components.PathKeepsConsistent | js/urlparser.js:301-337 | `_parsePath` keeps `Consistent` |
| Components.QuerySpec | js/urlparser.js:339-372 | defines `_parseQuery`: the query up to the first '#', then the fragment scanner; its properties are `QueryMeaning`, `QueryFrame` and `QueryKeepsConsistent` |
| UrlObject.Url.ParseQuery | js/urlparser.js:339-372 | `_parseQuery` ends in the state `QuerySpec` gives, handing off to `_parseHash` |
| Components.QueryMeaning | js/urlparser.js:339-372 | `query` is the text up to the first '#', `search` is what `_queryToSearch` makes of it, "" exactly for an empty span, and the fragment is parsed after the '#' |
| Components.SearchTextMeaning | js/urlparser.js:358-371 | `search` is "" exactly for an empty span and otherwise "?" and `query` |
| Components.QueryFrame | js/urlparser.js:339-372 | `_parseQuery` writes only `search`, `query` and `hash` |
| Components.QueryKeepsConsistent | js/urlparser.js:339-372 | `_parseQuery` keeps `Consistent` |
| Components.HashSpec | js/urlparser.js:374-380 | defines `_parseHash`: only `hash` is written; its properties are `HashMeaning` and `HashKeepsConsistent` |
| UrlObject.Url.ParseHash | js/urlparser.js:374-380 | `_parseHash` ends in the state `HashSpec` gives |
| Components.HashText | js/urlparser.js:374-380 | the stored fragment is "" or starts with '#' |
| Components.HashMeaning | js/urlparser.js:374-380 | `hash` is "" exactly for a span shorter than two code units, else '#' and the escaped span, which holds nothing to escape; only `hash` changes |
| Components.HashKeepsConsistent | js/urlparser.js:374-380 | `_parseHash` keeps `Consistent` |
| UrlState.QueryToSearch | js/urlparser.js:118-126 | `_queryToSearch` is "" exactly for a null or empty query, else "?" and the query |
| Format.ReplaceFirstColonEscapeMeaning | js/urlparser.js:80 | `replace(/%3A/i, ":")` leaves a text without a match unchanged, and otherwise turns only the first match into ':' |
| Format.AuthText | js/urlparser.js:76-82 | the userinfo part is "" exactly for an empty `auth`; `encodeURIComponent` failing on a non-empty `auth` is the only way it fails; otherwise it ends with '@' |
| Format.WithLeadMeaning | js/urlparser.js:105-110 | a part with its lead is empty exactly when the part was, starts with the lead, ends with the part, and a part that had the lead is left alone |
| Format.HostPartMeaning | js/urlparser.js:90-97 | the host part is the userinfo and `host` when `host` is set, else the userinfo, `hostname` and the port when `hostname` is set, else "" |
| Format.SchemeTextMeaning | js/urlparser.js:99-103 | the scheme part is the protocol and ':', followed by "//" exactly when `slashes`, an empty protocol or one of the five slash protocols |
| Format.FormatSpec | js/urlparser.js:75-116 | defines `format`: the URIError of `encodeURIComponent` on `auth`, or the text `FormatText` builds; its properties are `FormatLayout` and `FormatOfConsistent` |
| Format.FormatText | js/urlparser.js:83-115 | defines the text `format` builds from the fields and the userinfo part: scheme, host part, then path, search and fragment each with its lead |
| Format.FormatTextLayout | js/urlparser.js:83-115 | the built text starts with the scheme part, is longer than the protocol, and ends with the fragment with its lead |
| UrlObject.Url.Format | js/urlparser.js:75-116 | `format` throws exactly when `auth` is non-empty and `encodeURIComponent` fails on it; otherwise it starts with `_protocol` and is longer than it |
| Format.FormatLayout | js/urlparser.js:75-116 | `format` throws exactly when `encodeURIComponent` fails on a non-empty `auth`, with `UnencodableUserinfo`; otherwise it starts with the scheme part and ends with the fragment with its lead |
| Format.FormatOfConsistent | js/urlparser.js:105-115 | on consistent fields, whenever the userinfo encodes, `format` adds no lead: scheme, host part, the `path` getter, then `hash` |
| Format.HrefSpec | js/urlparser.js:412-419 | defines the `href` getter: the cache when set; else `format`, stored in the cache when it returns and nothing stored when it throws |
| UrlObject.Url.Href | js/urlparser.js:412-419 | the `href` getter ends in the result and state `HrefSpec` gives; a returned text is never "" |
| Format.HrefFirstRead | js/urlparser.js:412-419 | the first read of `href` is `format`, a later one the cache; a read that returns changes only the cache and never returns ""; one that throws is the userinfo's URIError and changes nothing |
| Format.HrefSticky | js/urlparser.js:412-419 | once a read of `href` returned, every later read returns the same text and changes nothing, whatever other fields changed and whatever the encoder |
| RoundTrip.FormatDropsSlashes | js/urlparser.js:99-103 | "foo://a/b" parses to protocol "foo", host "a" and path "/b" with `slashes` false; `format` gives "foo:a/b", and `parse` of that throws UnexpectedCharacter |
| RoundTrip.FormatDropsLonePort | js/urlparser.js:90-97 | "http://:5" parses to port 5 with no host name; `format` gives "http:///", and `parse` of that leaves the port NaN |
| RoundTrip.ScansAuthority | js/urlparser.js:46-54 | defines when `parse` reaches the authority scan: a scheme is read, it is not "javascript", and the authority test holds after it |
| RoundTrip.ParseMarkingSlashes | js/urlparser.js:38-73 | defines the corrected `parse`: as written, with `slashes` set when the authority was scanned; its properties are `MarkingSlashesAgrees`, `MarkedAuthorityFormatted` and `CorrectedRoundTrip` |
| RoundTrip.MarkingSlashesAgrees | js/urlparser.js:187-190 | the corrected `parse` differs from `parse` only in `slashes`, which it sets exactly when the authority after "//" is scanned |
| RoundTrip.MarkedAuthorityFormatted | js/urlparser.js:99-103 | after the corrected `parse` of an input with an authority, `format` writes the protocol and then "://" |
| RoundTrip.SlashedFormat | js/urlparser.js:99-103 | with `slashes` set, `format` writes "//" and its text starts with the protocol and "://" |
| RoundTrip.CorrectedRoundTrip | js/urlparser.js:75-116 | with the correction, "foo://a/b" formats back to itself, so parsing the formatted text gives the same fields |
| UrlObject.Url.PortGetter | js/urlparser.js:383-388 | the `port` getter is "" exactly for a negative `_port`, else digits that read back as `_port` |
| UrlState.PortText | js/urlparser.js:383-388 | the getter text is empty exactly for a negative port and is all digits otherwise |
| UrlState.PortFromText | js/urlparser.js:389-391 | defines `parseInt(v, 10)` on a text of an optional sign and digits, NaN (-1) when no digit comes first; its property is `PortRoundTrip` |
| UrlState.PortRoundTrip | js/urlparser.js:382-391 | writing back what the `port` getter reads restores a non-negative port, and gives NaN for a negative one |
| UrlObject.Url.SetPort | js/urlparser.js:389-391 | the `port` setter stores `parseInt(v, 10)` and changes nothing else |
| UrlObject.Url.ProtocolGetter | js/urlparser.js:404-406 | the `protocol` getter is `_protocol` and ':', and the setter strips it back to `_protocol` |
| UrlState.ProtocolFromText | js/urlparser.js:407-409 | the `protocol` setter keeps all but the last code unit, and "" for an empty text |
| UrlState.ProtocolRoundTrip | js/urlparser.js:403-410 | `protocol = protocol` leaves `_protocol` as it was |
| UrlObject.Url.SetProtocol | js/urlparser.js:407-409 | the `protocol` setter stores `v` without its last code unit and changes nothing else |
| UrlObject.Url.PathGetter | js/urlparser.js:394-397 | the `path` getter is `pathname` then `search`; on consistent fields it starts with '/' and ends with what `_queryToSearch` makes of the query |
| UrlState.PathTextShape | js/urlparser.js:394-397 | on consistent fields the `path` getter starts with '/' and is `pathname` and `_queryToSearch` of the query |
| Tables.MakeAsciiTable | js/urlparser.js:431-447 | `makeAsciiTable` returns a fresh 128-entry table with 1 exactly at the listed codes and ranges, 0 elsewhere |
| Tables.ListedCodeItems | js/urlparser.js:431-447 | a table built from single codes marks exactly those codes |
| Tables.TablesMatch | js/urlparser.js:478-486 | the two tables mark exactly '#', '?', '/' and exactly the fourteen auto-escape characters |
| Tables.AutoEscapeMap | js/urlparser.js:449-465 | an entry of the escape map is "" exactly for an ASCII code that is not an auto-escape character |
| Tables.PercentEncoded | js/urlparser.js:460-463 | a map entry is three code units, the first of them '%' |
| Tables.AutoEscapeTable | js/urlparser.js:449-465 | the map holds `%3C` for '<', `%3E` for '>', `%22`, `%60`, `%20`, `%0D`, `%0A`, `%09`, `%7B`, `%7D`, `%7C`, `%5C`, `%5E`, and `%27` for the quote |
| JsText.AsciiLowerText | js/urlparser.js:144 | `toLowerCase` on ASCII keeps the length and maps every capital to its small letter and nothing else |

## Left out

- **The `typeof` check** in `parse`: a Dafny argument is always a string,
  so the TypeError for a non-string is left out.
- **`module.exports`** is left out.
- **`decodeURIComponent` and `encodeURIComponent`** are parameters, not
  definitions:
  - `decode: Text -> Option<Text>` stands for decoding, with `None` for
    its URIError (the class methods name this parameter `decoder`);
  - `encode: Text -> Option<Text>` stands for encoding, with `None` for the
    URIError it raises on a lone surrogate.
  - When these conversions fail is not modelled; the model only follows
    what `parse` and `format` do when they fail.
  - The `/%3A/i` replace afterwards is modelled.
- **`_hostIdna`** is not defined in the file, so calling it is a TypeError.
  The model raises `IdnaUnavailable` where the source would call it; it
  does no IDNA conversion.
- **`toLowerCase`** is modelled on ASCII only. Mapping code units from
  0x7F on would matter only in the IDNA branch, which throws anyway.
- **The scheme's lowercasing** is also ASCII only, and here the source
  differs in one case. JavaScript's `toLowerCase` maps U+212A KELVIN SIGN
  to 'k'. So for "H\u212A:x" the source stores the protocol "hk", while the
  model throws InvalidProtocol. Any other non-ASCII code unit in the scheme
  fails `[a-z.+-]+` in both.
- UrlState.PortFromText: `parseInt(v, 10)` is modelled for a text that
  starts with an optional sign and then digits. Leading whitespace and
  digits beyond exact float precision are left out, and NaN is -1.
- Authority.ParsePortSpec: `_parsePort` accumulates the port in a
  floating-point number. The model uses exact integers, so ports beyond
  2^53 are not rounded.
- **Properties of `_slashProtocols` inherited from `Object.prototype`**
  (such as `constructor`) are left out. Only its five own properties make
  `format` write "//".
- **The escape map's construction at load time** with `encodeURIComponent`
  and `escape` is replaced by its constant value (`Tables.AutoEscapeMap`,
  `Tables.AutoEscapeTable`).
- **The `path` and `href` setters** have empty bodies, so they do nothing
  and are not modelled.
- Escaping.ReplaceRuns: the `if (cur < i)` guards around the appends are
  left out, since without them an empty slice is appended.
- UrlObject.Url.ParsePath: `_parsePath` and `_parseQuery` call the scanner
  that takes over from inside their loop. The model runs the loop first and
  then hands off. The fields written by the two are disjoint, so the final
  state is the same.
- UrlObject.ParseUrl: `Url.parse` propagates the exception and drops the
  object. The model returns both the object and the error.
- **No general round trip of `format` and `parse` is proved.** Parsing the
  formatted text does not always restore the fields: `format` drops the
  "//" (`RoundTrip.FormatDropsSlashes`) and a port without a host name
  (`RoundTrip.FormatDropsLonePort`). The round trip is proved only for
  "foo://a/b" under the corrected `parse` (`RoundTrip.CorrectedRoundTrip`).

## Findings

| source | as written | input that shows it | evidently intended | confidence | as-written member | corrected member |
|---|---|---|---|---|---|---|
| js/urlparser.js:99-103 | `format` writes "//" only when `slashes` is set, the protocol is empty or it is one of the five slash protocols, and nothing in the file sets `slashes` | "foo://a/b" formats as "foo:a/b", and `parse` of that throws "Unexpected character" | `parse` sets `slashes` once it has scanned an authority after "//", so `format` writes the "//" back | not executed | RoundTrip.FormatDropsSlashes | RoundTrip.MarkedAuthorityFormatted |

The corrected `parse` is `RoundTrip.ParseMarkingSlashes`. `RoundTrip.MarkingSlashesAgrees` shows it changes nothing but `slashes`. `RoundTrip.CorrectedRoundTrip` proves that, with it, "foo://a/b" formats back to itself. `UrlObject.Url.Parse` still models `parse` as written.
