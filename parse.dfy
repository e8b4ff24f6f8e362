/** `parse` as a whole: trim, read the scheme, read the authority unless
    the scheme is "javascript", then hand what follows to the path, query or
    fragment scanner. */
module Parse {
  import opened JsText
  import opened UrlState
  import opened Scheme
  import opened Authority
  import opened Components

  const JAVASCRIPT: Text := Lit("javascript")

  /** The dispatch at the end of `parse`, from index `i`: only when at
      least two code units remain (`i < end`) does the code unit at `i`
      choose the scanner, and anything but '/', '?' or '#' is an error. */
  function DispatchSpec(f: Fields, s: Text, i: nat, end: int): (r: (Fields, Option<Error>))
    requires end < |s|
    ensures r.1.Some? ==> r.1 == Some(UnexpectedCharacter) && r.0 == f
    ensures r.1.Some? <==> i < end && s[i] != 47 && s[i] != 63 && s[i] != 35
  {
    if i < end then
      if s[i] == 47 then (PathSpec(f, s, i + 1, end), None)
      else if s[i] == 63 then (QuerySpec(f, s, i + 1, end), None)
      else if s[i] == 35 then (HashSpec(f, s, i + 1, end), None)
      else (f, Some(UnexpectedCharacter))
    else (f, None)
  }

  /** The trimmed range of the input: from the first to the last code unit
      above 32. */
  function TrimStart(s: Text): nat { SkipLeading(s, 0) }

  function TrimEnd(s: Text): (r: int)
    ensures -1 <= r < |s|
  {
    SkipTrailing(s, |s| - 1)
  }

  /** The fields a successful scheme scan leaves for the rest of `parse`:
      the scheme is stored, and the authority is read unless the scheme is
      "javascript"; the index where `parse` goes on, or the exception. */
  function AfterScheme(f: Fields, s: Text, name: Text, next: int, decode: Text -> Option<Text>):
    (r: (Fields, Result<int>))
    requires 0 <= next <= TrimEnd(s) + 1
  {
    var f1 := f.(protocol := name);
    if name == JAVASCRIPT then (f1, Ok(next)) else ParseHostSpec(f1, s, next, TrimEnd(s), decode)
  }

  /** `parse(str)` on an object with fields `f`: the fields afterwards and
      the exception, if one is raised. The fields a scanner wrote before an
      exception stay written. */
  function ParseSpec(f: Fields, s: Text, decode: Text -> Option<Text>): (r: (Fields, Option<Error>))
  {
    var start := TrimStart(s);
    var end := TrimEnd(s);
    match ScanProtocol(s, start, end, start, false)
    case NoColon => (f, Some(InvalidProtocol))
    case BadScheme => (f, Some(InvalidProtocol))
    case Found(name, next) =>
      var (f2, res) := AfterScheme(f, s, name, next, decode);
      match res
      case Err(e) => (f2, Some(e))
      case Ok(i) => DispatchSpec(f2, s, i, end)
  }
}
