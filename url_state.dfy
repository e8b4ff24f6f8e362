/** The fields of a `Url` object as one value, the errors the parser raises,
    and the accessors that only read or write single fields. */
module UrlState {
  import opened JsText

  datatype Option<T> = None | Some(value: T)

  /** The exceptions `parse` and `format` raise, one constructor per throw
      site except `InvalidProtocol`, which stands for both throws of that
      message. In JavaScript every one of the syntax errors is a plain
      `SyntaxError`. */
  datatype Error =
    | InvalidProtocol      // no ':' in the trimmed input, or a scheme outside [a-z.+-]+
    | LabelTooLong         // a further character after more than 63 since the last '.'
    | MisplacedDot         // a '.' first in the authority, or right after another '.'
    | DuplicateUserinfo    // an '@' after the userinfo was already taken
    | InvalidPort          // a port whose value is 0, an empty digit run included
    | TrailingDot          // the authority scan ended on a '.'
    | HostnameTooLong      // hostNameEnd - hostNameStart > 256
    | IdnaUnavailable      // the TypeError of calling `_hostIdna`, which the file does not define
    | MalformedUserinfo    // the URIError of `decodeURIComponent` on the userinfo
    | UnexpectedCharacter  // what follows the authority is not '/', '?' or '#'
    | UnencodableUserinfo  // the URIError of `encodeURIComponent` on `auth` in `format`

  datatype Result<T> = Ok(value: T) | Err(error: Error)

  /** The fields of a `Url`: `protocol` is `_protocol`, `href` the cache
      `_href`, `port` is `_port` (-1 when absent); `query` is `None` while
      it is JavaScript's `null`. */
  datatype Fields = Fields(
    protocol: Text,
    href: Text,
    port: int,
    auth: Text,
    slashes: bool,
    host: Text,
    hostname: Text,
    hash: Text,
    search: Text,
    query: Option<Text>,
    pathname: Text)

  /** What the `Url` constructor sets. */
  const INITIAL: Fields := Fields([], [], -1, [], false, [], [], [], [], None, Lit("/"))

  /** The value `parseInt` yields when there is no digit: NaN. Every read of
      `_port` in the core is a comparison `>= 0` or `> 0`, false for NaN as
      for -1, so -1 stands for it. */
  const NAN_PORT: int := -1

  /** The `port` getter: the decimal spelling, or "" for a negative port. */
  function PortText(port: int): (r: Text)
    ensures r == [] <==> port < 0
    ensures port >= 0 ==> AllDigits(r)
  {
    if port >= 0 then DecimalText(port) else []
  }

  /** Number of leading decimal digits. */
  function LeadingDigits(t: Text): (n: nat)
    ensures n <= |t| && AllDigits(t[..n])
    ensures n < |t| ==> !IsDigit(t[n])
  {
    if t != [] && IsDigit(t[0]) then
      var n := 1 + LeadingDigits(t[1..]);
      assert t[..n] == [t[0]] + t[1..][..n - 1];
      n
    else 0
  }

  /** The `port` setter, `parseInt(v, 10)`, for a text that starts with an
      optional sign and then digits: the value of the leading digits,
      negated after '-', and NaN when no digit comes first. */
  function PortFromText(v: Text): int
  {
    var negative := |v| > 0 && v[0] == 45;
    var digits := if |v| > 0 && (v[0] == 45 || v[0] == 43) then v[1..] else v;
    var n := LeadingDigits(digits);
    var value: int := DigitsValue(digits[..n]);
    if n == 0 then NAN_PORT else if negative then -value else value
  }

  /** Writing back what the `port` getter reads restores a non-negative
      port; a negative port reads as "" and comes back as NaN. */
  lemma PortRoundTrip(port: int)
    ensures port >= 0 ==> PortFromText(PortText(port)) == port
    ensures port < 0 ==> PortFromText(PortText(port)) == NAN_PORT
  {
    if port >= 0 {
      var t := DecimalText(port);
      DecimalRoundTrip(port);
      assert t[0] != 45 && t[0] != 43;
      assert LeadingDigits(t) == |t|;
      assert t[..|t|] == t;
    }
  }

  /** The `protocol` getter. */
  function ProtocolText(protocol: Text): Text
  {
    protocol + [58]
  }

  /** The `protocol` setter keeps `v.slice(0, v.length - 1)`: all but the
      last code unit, whatever it is ("" for an empty `v`). */
  function ProtocolFromText(v: Text): (r: Text)
    ensures |v| > 0 ==> v == r + [v[|v| - 1]]
    ensures |v| == 0 ==> r == []
  {
    if |v| > 0 then v[..|v| - 1] else []
  }

  /** `protocol = protocol` leaves `_protocol` as it was. */
  lemma ProtocolRoundTrip(protocol: Text)
    ensures ProtocolFromText(ProtocolText(protocol)) == protocol
  {
    assert (protocol + [58])[..|protocol|] == protocol;
  }

  /** The `path` getter. */
  function PathText(f: Fields): Text
  {
    f.pathname + f.search
  }

  /** `_queryToSearch`: "" for a null or empty query, else "?" + query. */
  function QueryToSearch(query: Option<Text>): (r: Text)
    ensures r == [] <==> query == None || query == Some([])
    ensures query.Some? && query.value != [] ==> r == [63] + query.value
  {
    match query
    case None => []
    case Some(q) => if q == [] then [] else [63] + q
  }

  /** The relations between fields that `parse` keeps: the path starts with
      '/', `search` is what `_queryToSearch` makes of `query`, and a fragment
      starts with '#'. The constructor establishes them. */
  predicate Consistent(f: Fields)
  {
    && |f.pathname| > 0 && f.pathname[0] == 47
    && f.search == QueryToSearch(f.query)
    && (f.hash == [] || f.hash[0] == 35)
  }

  lemma InitialConsistent()
    ensures Consistent(INITIAL)
  {
  }

  /** Under `Consistent`, the `path` getter starts with '/' and ends with the
      query text. */
  lemma PathTextShape(f: Fields)
    requires Consistent(f)
    ensures |PathText(f)| > 0 && PathText(f)[0] == 47
    ensures PathText(f) == f.pathname + QueryToSearch(f.query)
  {
  }
}
