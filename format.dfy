/** `format`, `_queryToSearch`'s use there, and the `href` getter with its
    cache. */
module Format {
  import opened JsText
  import opened UrlState

  /** `/%3A/i` matches at `i`: '%', '3', then 'A' or 'a'. */
  predicate ColonEscapeAt(t: Text, i: int)
  {
    0 <= i && i + 3 <= |t| && t[i] == 37 && t[i + 1] == 51 && (t[i + 2] == 65 || t[i + 2] == 97)
  }

  /** `t.replace(/%3A/i, ":")`: a regular expression without the `g` flag
      replaces its first match only. */
  function ReplaceFirstColonEscape(t: Text): Text
    decreases |t|
  {
    if |t| < 3 then t
    else if ColonEscapeAt(t, 0) then [58] + t[3..]
    else [t[0]] + ReplaceFirstColonEscape(t[1..])
  }

  /** Without a match the text is unchanged; otherwise the first match, and
      only it, becomes ':'. */
  lemma {:induction false} ReplaceFirstColonEscapeMeaning(t: Text)
    ensures (forall i :: !ColonEscapeAt(t, i)) ==> ReplaceFirstColonEscape(t) == t
    ensures forall i :: ColonEscapeAt(t, i) && (forall j :: 0 <= j < i ==> !ColonEscapeAt(t, j)) ==>
      ReplaceFirstColonEscape(t) == t[..i] + [58] + t[i + 3..]
    decreases |t|
  {
    if |t| >= 3 && !ColonEscapeAt(t, 0) {
      var u := t[1..];
      ReplaceFirstColonEscapeMeaning(u);
      assert forall i :: ColonEscapeAt(u, i) <==> ColonEscapeAt(t, i + 1);
      forall i | ColonEscapeAt(t, i) && (forall j :: 0 <= j < i ==> !ColonEscapeAt(t, j))
        ensures ReplaceFirstColonEscape(t) == t[..i] + [58] + t[i + 3..]
      {
        assert ColonEscapeAt(u, i - 1);
        assert forall j :: 0 <= j < i - 1 ==> !ColonEscapeAt(u, j) by {
          forall j | 0 <= j < i - 1 ensures !ColonEscapeAt(u, j) {
            assert !ColonEscapeAt(t, j + 1);
          }
        }
        assert [t[0]] + (u[..i - 1] + [58] + u[i + 2..]) == t[..i] + [58] + t[i + 3..];
      }
      if forall i :: !ColonEscapeAt(t, i) {
        assert forall i :: !ColonEscapeAt(u, i) by {
          forall i ensures !ColonEscapeAt(u, i) {
            assert !ColonEscapeAt(t, i + 1);
          }
        }
        assert [t[0]] + u == t;
      }
    }
  }

  /** The userinfo part of `format`: "" for an empty `auth`, else the
      percent-encoded `auth` with its first "%3A" turned back into ':', and
      '@'. `encode` stands for `encodeURIComponent`, `None` for the URIError
      it raises (on a lone surrogate). */
  function AuthText(auth: Text, encode: Text -> Option<Text>): (r: Option<Text>)
    ensures r == None <==> auth != [] && encode(auth) == None
    ensures r == Some([]) <==> auth == []
    ensures r.Some? && r.value != [] ==> r.value[|r.value| - 1] == 64
  {
    if auth == [] then Some([])
    else match encode(auth)
      case None => None
      case Some(e) => Some(ReplaceFirstColonEscape(e) + [64])
  }

  /** The own properties of `_slashProtocols`. */
  predicate IsSlashProtocol(p: Text)
  {
    p == Lit("http") || p == Lit("https") || p == Lit("gopher") || p == Lit("file") || p == Lit("ftp")
  }

  /** Whether `format` writes "://" after the protocol. */
  predicate Slashes(f: Fields)
  {
    f.slashes || f.protocol == [] || IsSlashProtocol(f.protocol)
  }

  /** The host part of `format`: `auth` and `host` when `host` is set, else
      `auth`, `hostname` and ":" and the port (when the port is not negative)
      if `hostname` is set, else "". */
  function HostPart(f: Fields, auth: Text): Text
  {
    if f.host != [] then auth + f.host
    else if f.hostname != [] then auth + f.hostname + (if f.port >= 0 then [58] + DecimalText(f.port) else [])
    else []
  }

  /** A non-empty part gets the code unit `c` in front unless it already
      starts with it. */
  function WithLead(t: Text, c: CodeUnit): (r: Text)
  {
    if t != [] && t[0] != c then [c] + t else t
  }

  /** The scheme part of `format`: the protocol and "://" or ":". */
  function SchemeText(f: Fields): Text
  {
    f.protocol + (if Slashes(f) then Lit("://") else Lit(":"))
  }

  /** `format()` on fields `f`; `_escapePathName` and `_escapeSearch`
      return their argument. It throws only where `encodeURIComponent` does. */
  function FormatSpec(f: Fields, encode: Text -> Option<Text>): Result<Text>
  {
    match AuthText(f.auth, encode)
    case None => Err(UnencodableUserinfo)
    case Some(auth) => Ok(FormatText(f, auth))
  }

  /** The text `format` returns once the userinfo part `auth` is built. */
  function FormatText(f: Fields, auth: Text): Text
  {
    var search := if f.search != [] then f.search else QueryToSearch(f.query);
    SchemeText(f) + (HostPart(f, auth) + (WithLead(f.pathname, 47) + (WithLead(search, 63) + WithLead(f.hash, 35))))
  }

  /** The `href` getter: the cached `_href` when it is not "", else the
      result of `format`, which it stores; when `format` throws, nothing is
      stored. Returns the text or the exception, and the fields afterwards. */
  function HrefSpec(f: Fields, encode: Text -> Option<Text>): (r: (Result<Text>, Fields))
  {
    if f.href != [] then (Ok(f.href), f)
    else match FormatSpec(f, encode)
      case Err(e) => (Err(e), f)
      case Ok(h) => (Ok(h), f.(href := h))
  }

  // ---------------------------------------------------------------------
  // Properties

  /** A part with the lead is empty exactly when it was, starts with the
      lead, ends with the part, and is left alone when it had the lead, so
      leading twice is leading once. */
  lemma WithLeadMeaning(t: Text, c: CodeUnit)
    ensures var r := WithLead(t, c);
      && (r == [] <==> t == [])
      && (r != [] ==> r[0] == c && r[|r| - |t|..] == t)
      && (t != [] && t[0] == c ==> r == t)
      && WithLead(r, c) == r
  {
    var r := WithLead(t, c);
    if t != [] && t[0] != c {
      assert r[|r| - |t|..] == t;
    }
  }

  /** The host part is empty exactly when `host` and `hostname` are, and
      otherwise starts with the userinfo part. */
  lemma HostPartMeaning(f: Fields, auth: Text)
    ensures HostPart(f, auth) == [] <==> f.host == [] && f.hostname == []
    ensures HostPart(f, auth) != [] ==> HostPart(f, auth)[..|auth|] == auth
  {
    if f.host != [] {
      assert (auth + f.host)[..|auth|] == auth;
    } else if f.hostname != [] {
      var p := if f.port >= 0 then [58] + DecimalText(f.port) else [];
      assert (auth + f.hostname + p)[..|auth|] == auth;
    }
  }

  /** The scheme is the protocol and ':', then "//" exactly when `Slashes`
      holds. */
  lemma SchemeTextMeaning(f: Fields)
    ensures var t, n := SchemeText(f), |f.protocol|;
      && t[..n] == f.protocol && t[n] == 58
      && (Slashes(f) ==> |t| == n + 3 && t[n..] == Lit("://"))
      && (!Slashes(f) ==> |t| == n + 1)
  {
    var sep := if Slashes(f) then Lit("://") else Lit(":");
    assert (f.protocol + sep)[..|f.protocol|] == f.protocol;
    assert (f.protocol + sep)[|f.protocol|..] == sep;
  }

  lemma Associative(a: Text, b: Text, c: Text)
    ensures (a + b) + c == a + (b + c)
  {
  }

  /** `x` ends with `h`. */
  predicate EndsWith(x: Text, h: Text)
  {
    |h| <= |x| && x[|x| - |h|..] == h
  }

  lemma EndsWithPrepend(a: Text, x: Text, h: Text)
    requires EndsWith(x, h)
    ensures EndsWith(a + x, h)
  {
    assert (a + x)[|a + x| - |h|..] == x[|x| - |h|..];
  }

  lemma EndsWithSelf(a: Text, h: Text)
    ensures EndsWith(a + h, h)
  {
    assert (a + h)[|a + h| - |h|..] == h;
  }

  /** A text of five parts starts with the first and ends with the last. */
  lemma FiveParts(s: Text, a: Text, b: Text, c: Text, h: Text)
    ensures var out := s + (a + (b + (c + h)));
      out[..|s|] == s && EndsWith(out, h)
  {
    EndsWithSelf(c, h);
    EndsWithPrepend(b, c + h, h);
    EndsWithPrepend(a, b + (c + h), h);
    EndsWithPrepend(s, a + (b + (c + h)), h);
    assert (s + (a + (b + (c + h))))[..|s|] == s;
  }

  /** The text starts with the scheme, so with the protocol and ':', and
      ends with the fragment with its lead. */
  lemma FormatTextLayout(f: Fields, auth: Text)
    ensures var out, scheme, h := FormatText(f, auth), SchemeText(f), WithLead(f.hash, 35);
      && |out| >= |scheme| > |f.protocol| && out[..|scheme|] == scheme
      && out[|out| - |h|..] == h
  {
    var search := if f.search != [] then f.search else QueryToSearch(f.query);
    SchemeTextMeaning(f);
    FiveParts(SchemeText(f), HostPart(f, auth), WithLead(f.pathname, 47), WithLead(search, 63),
              WithLead(f.hash, 35));
  }

  /** `format` throws exactly when `auth` is set and cannot be encoded.
      Otherwise it starts with the scheme, so with the protocol and ':', and
      ends with the fragment with its lead. */
  lemma FormatLayout(f: Fields, encode: Text -> Option<Text>)
    ensures FormatSpec(f, encode).Err? <==> f.auth != [] && encode(f.auth) == None
    ensures FormatSpec(f, encode).Err? ==> FormatSpec(f, encode).error == UnencodableUserinfo
    ensures FormatSpec(f, encode).Ok? ==>
      var out, scheme, h := FormatSpec(f, encode).value, SchemeText(f), WithLead(f.hash, 35);
      && |out| >= |scheme| > |f.protocol| && out[..|scheme|] == scheme
      && out[|out| - |h|..] == h
  {
    if AuthText(f.auth, encode).Some? {
      FormatTextLayout(f, AuthText(f.auth, encode).value);
    }
  }

  /** On consistent fields `format` adds no lead: after the scheme and the
      host part it is exactly what the `path` getter reads, then `hash`. */
  lemma FormatOfConsistent(f: Fields, encode: Text -> Option<Text>)
    requires Consistent(f)
    ensures AuthText(f.auth, encode).Some? ==>
      FormatSpec(f, encode) ==
        Ok(SchemeText(f) + HostPart(f, AuthText(f.auth, encode).value) + PathText(f) + f.hash)
  {
    WithLeadMeaning(f.pathname, 47);
    WithLeadMeaning(f.search, 63);
    WithLeadMeaning(f.hash, 35);
    if AuthText(f.auth, encode).Some? {
      var auth := AuthText(f.auth, encode).value;
      var s, hp := SchemeText(f), HostPart(f, auth);
      Associative(f.pathname, f.search, f.hash);
      Associative(hp, PathText(f), f.hash);
      Associative(s, hp + PathText(f), f.hash);
      Associative(s, hp, PathText(f));
    }
  }

  /** A successful `format` never returns "", so once a read of `href`
      succeeded the cache is set and every later read returns the same
      text and changes nothing, whatever else changed in between. */
  lemma HrefSticky(f: Fields, g: Fields, encode: Text -> Option<Text>, encode': Text -> Option<Text>)
    requires HrefSpec(f, encode).0.Ok?
    requires g.href == HrefSpec(f, encode).1.href
    ensures HrefSpec(g, encode') == (HrefSpec(f, encode).0, g)
  {
    FormatLayout(f, encode);
  }

  /** The first read of `href` is `format`, and a later one the cache. A
      successful read stores a non-empty text and changes nothing else; a
      read that throws (the URIError of encoding `auth`) changes nothing,
      so the next read calls `format` again. */
  lemma HrefFirstRead(f: Fields, encode: Text -> Option<Text>)
    ensures var (h, g) := HrefSpec(f, encode);
      && (f.href == [] ==> h == FormatSpec(f, encode))
      && (f.href != [] ==> h == Ok(f.href))
      && (h.Ok? ==> g == f.(href := h.value) && h.value != [])
      && (h.Err? ==> g == f && h.error == UnencodableUserinfo && f.auth != [] && encode(f.auth) == None)
  {
    FormatLayout(f, encode);
  }
}
