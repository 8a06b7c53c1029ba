/**
 * The parts of Go's net/url that the client relies on: url.Parse as far as it decides the
 * scheme, the opaque part and the raw query, with the errors it reports on the way, and
 * URL.String for a URL with no user information and nothing that needs escaping.
 */
module Urls {
  import opened Wrappers
  import opened Strings

  /** What url.Parse can report. */
  datatype UrlError =
    | InvalidControlCharacter   // "net/url: invalid control character in URL"
    | MissingProtocolScheme     // "missing protocol scheme"
    | ColonInFirstSegment       // "first path segment in URL cannot contain colon"
    | InvalidEscape             // an EscapeError from a malformed '%' escape

  /** The fields of a parsed url.URL the client reads. */
  datatype ParsedUrl = ParsedUrl(scheme: string, opaquePart: string, rawQuery: string)

  /** The fields of a url.URL the client composes. */
  datatype Url = Url(scheme: string, host: string, path: string, rawQuery: string, fragment: string)

  /** A byte below ' ' or DEL, which url.Parse refuses before the fragment. */
  predicate IsControl(c: char) {
    c < ' ' || c as int == 0x7f
  }

  predicate HasControl(s: string) {
    exists i :: 0 <= i < |s| && IsControl(s[i])
  }

  predicate IsLetter(c: char) {
    'a' <= c <= 'z' || 'A' <= c <= 'Z'
  }

  predicate IsSchemeTail(c: char) {
    '0' <= c <= '9' || c == '+' || c == '-' || c == '.'
  }

  /** A scheme that getScheme recognises: a letter, then letters, digits, '+', '-' or '.'. */
  predicate ValidScheme(s: string) {
    |s| > 0 && IsLetter(s[0]) && forall i :: 0 < i < |s| ==> IsLetter(s[i]) || IsSchemeTail(s[i])
  }

  predicate IsHex(c: char) {
    '0' <= c <= '9' || 'a' <= c <= 'f' || 'A' <= c <= 'F'
  }

  /** Every '%' is followed by two hexadecimal digits, as url's unescape demands. */
  predicate ValidEscapes(s: string)
    decreases |s|
  {
    if s == [] then true
    else if s[0] == '%' then |s| >= 3 && IsHex(s[1]) && IsHex(s[2]) && ValidEscapes(s[3..])
    else ValidEscapes(s[1..])
  }

  /** ASCII lower case, as strings.ToLower leaves a valid scheme. */
  function ToLower(s: string): (t: string)
    ensures |t| == |s|
  {
    if s == [] then ""
    else [if 'A' <= s[0] <= 'Z' then (s[0] as int + 32) as char else s[0]] + ToLower(s[1..])
  }

  /**
   * getScheme, from position `i` on: letters are scanned; a digit, '+', '-' or '.' ends the
   * search without a scheme when it comes first; ':' ends the scheme, or is an error when it
   * comes first; anything else means there is no scheme.
   */
  function SchemeFrom(raw: string, i: nat): (r: Result<(string, string), UrlError>)
    requires i <= |raw|
    requires forall k :: 0 <= k < i ==> IsLetter(raw[k]) || (k > 0 && IsSchemeTail(raw[k]))
    ensures r.Ok? && r.value.0 != "" ==> ValidScheme(r.value.0) && raw == r.value.0 + ":" + r.value.1
    ensures r.Ok? && r.value.0 == "" ==> r.value.1 == raw
    ensures r.Err? ==> r == Err(MissingProtocolScheme) && |raw| > 0 && raw[0] == ':'
    decreases |raw| - i
  {
    if i == |raw| then Ok(("", raw))
    else
      var c := raw[i];
      if IsLetter(c) then SchemeFrom(raw, i + 1)
      else if IsSchemeTail(c) then
        if i == 0 then Ok(("", raw)) else SchemeFrom(raw, i + 1)
      else if c == ':' then
        if i == 0 then Err(MissingProtocolScheme)
        else
          assert raw[..i] + ":" + raw[i + 1..] == raw;
          Ok((raw[..i], raw[i + 1..]))
      else Ok(("", raw))
  }

  /** getScheme: the scheme and the text after its ':'. */
  function GetScheme(raw: string): Result<(string, string), UrlError> {
    SchemeFrom(raw, 0)
  }

  /**
   * url.Parse. A URL whose rest does not start with '/' is opaque when it has a scheme; the
   * authority and the path of a hierarchical URL are not examined.
   */
  function Parse(raw: string): (r: Result<ParsedUrl, UrlError>)
    ensures HasControl(Cut(raw, '#').0) ==> r == Err(InvalidControlCharacter)
  {
    var (u, frag) := Cut(raw, '#');
    var url :- ParseWithoutFragment(u);
    if frag == "" || ValidEscapes(frag) then Ok(url) else Err(InvalidEscape)
  }

  /** url.parse, on the text before the fragment. */
  function ParseWithoutFragment(u: string): (r: Result<ParsedUrl, UrlError>)
    ensures HasControl(u) ==> r == Err(InvalidControlCharacter)
    ensures ':' !in u && !HasControl(u) ==> r.Ok? && r.value.opaquePart == ""
  {
    if HasControl(u) then Err(InvalidControlCharacter)
    else if u == "*" then Ok(ParsedUrl("", "", ""))
    else
      var (scheme, afterScheme) :- GetScheme(u);
      var (rest, query) := Cut(afterScheme, '?');
      if !HasPrefix(rest, "/") && scheme != "" then
        Ok(ParsedUrl(ToLower(scheme), rest, query))
      else if !HasPrefix(rest, "/") && ':' in Cut(rest, '/').0 then
        Err(ColonInFirstSegment)
      else
        Ok(ParsedUrl(ToLower(scheme), "", query))
  }

  /**
   * url.URL.String for a URL without user information, opaque part or ForceQuery, whose
   * parts need no escaping.
   */
  function ToString(u: Url): string {
    var head := if u.scheme != "" then u.scheme + ":" else "";
    var dot := if head == "" && u.host == "" && ':' in Cut(u.path, '/').0 then "./" else "";
    head + dot + Hierarchy(u) + QueryPart(u.rawQuery) + FragmentPart(u.fragment)
  }

  /** The "//host" and the path, with the '/' that String puts between a host and a relative path. */
  function Hierarchy(u: Url): string {
    var authority :=
      if (u.scheme != "" || u.host != "") && (u.host != "" || u.path != "") then "//" + u.host else "";
    var slash := if u.path != "" && u.path[0] != '/' && u.host != "" then "/" else "";
    authority + slash + u.path
  }

  function QueryPart(q: string): string {
    if q != "" then "?" + q else ""
  }

  function FragmentPart(f: string): string {
    if f != "" then "#" + f else ""
  }

  /** When the scheme is present, the text after "scheme:" is opaque unless it starts with '/'. */
  lemma OpaqueAfterScheme(scheme: string, rest: string)
    requires ValidScheme(scheme)
    requires !HasControl(rest) && '#' !in rest && '?' !in rest
    requires rest == [] || rest[0] != '/'
    ensures Parse(scheme + ":" + rest) == Ok(ParsedUrl(ToLower(scheme), rest, ""))
  {
    var raw := scheme + ":" + rest;
    assert forall k :: 0 <= k < |scheme| ==> raw[k] == scheme[k];
    SchemeAt(scheme, rest, 0);
    assert !HasControl(raw) by {
      assert forall k :: 0 <= k < |raw| ==> (k < |scheme| && raw[k] == scheme[k]) || raw[k] == ':' || raw[k] == rest[k - |scheme| - 1];
    }
    assert '#' !in raw by {
      assert forall k :: 0 <= k < |raw| ==> (k < |scheme| && raw[k] == scheme[k]) || raw[k] == ':' || raw[k] == rest[k - |scheme| - 1];
    }
  }

  lemma {:induction false} SchemeAt(scheme: string, rest: string, i: nat)
    requires ValidScheme(scheme) && i <= |scheme|
    ensures SchemeFrom(scheme + ":" + rest, i) == Ok((scheme, rest))
    decreases |scheme| - i
  {
    var raw := scheme + ":" + rest;
    assert raw[|scheme|] == ':';
    if i < |scheme| {
      SchemeAt(scheme, rest, i + 1);
    } else {
      assert raw[..|scheme|] == scheme && raw[|scheme| + 1..] == rest;
    }
  }

  lemma NoControlInConcat(a: string, b: string)
    requires !HasControl(a) && !HasControl(b)
    ensures !HasControl(a + b)
  {
    assert forall k :: 0 <= k < |a + b| ==> (a + b)[k] == if k < |a| then a[k] else b[k - |a|];
  }

  /** With a valid scheme and no control character, the query is whatever follows the first '?'. */
  lemma QueryAfterScheme(scheme: string, rest: string)
    requires ValidScheme(scheme) && !HasControl(rest)
    ensures ParseWithoutFragment(scheme + ":" + rest).Ok?
    ensures ParseWithoutFragment(scheme + ":" + rest).value.rawQuery == Cut(rest, '?').1
  {
    assert !HasControl(scheme + ":");
    NoControlInConcat(scheme + ":", rest);
    SchemeAt(scheme, rest, 0);
  }

  /** A well-escaped fragment does not change what the text before it parses to. */
  lemma FragmentIgnored(before: string, fragment: string)
    requires '#' !in before && ValidEscapes(fragment)
    ensures Parse(before + FragmentPart(fragment)) == ParseWithoutFragment(before)
  {
    if fragment != "" {
      CutAt(before, '#', fragment);
      assert before + ("#" + fragment) == before + ['#'] + fragment;
    } else {
      assert before + "" == before;
    }
  }

  lemma HierarchyClean(u: Url)
    requires !HasControl(u.host) && !HasControl(u.path)
    requires '#' !in u.host && '#' !in u.path && '?' !in u.host && '?' !in u.path
    ensures var h := Hierarchy(u); !HasControl(h) && '#' !in h && '?' !in h
  {
    var authority :=
      if (u.scheme != "" || u.host != "") && (u.host != "" || u.path != "") then "//" + u.host else "";
    var slash := if u.path != "" && u.path[0] != '/' && u.host != "" then "/" else "";
    assert !HasControl("//");
    NoControlInConcat("//", u.host);
    NoControlInConcat(authority, slash);
    NoControlInConcat(authority + slash, u.path);
  }

  lemma QueryCut(h: string, q: string)
    requires '?' !in h
    ensures Cut(h + QueryPart(q), '?').1 == q
  {
    if q != "" {
      CutAt(h, '?', q);
      assert h + ("?" + q) == h + ['?'] + q;
    } else {
      assert h + "" == h;
    }
  }

  /**
   * The raw query of a composed URL is what url.Parse reads back from its string form, when
   * the scheme is valid, only the fragment holds '#', neither host nor path holds '?', and
   * nothing before the fragment is a control character.
   */
  lemma QueryRoundTrip(u: Url)
    requires ValidScheme(u.scheme)
    requires !HasControl(u.host) && !HasControl(u.path) && !HasControl(u.rawQuery)
    requires '#' !in u.host && '#' !in u.path && '#' !in u.rawQuery
    requires '?' !in u.host && '?' !in u.path
    requires ValidEscapes(u.fragment)
    ensures Parse(ToString(u)).Ok?
    ensures Parse(ToString(u)).value.rawQuery == u.rawQuery
  {
    var h := Hierarchy(u);
    var qpart := QueryPart(u.rawQuery);
    var rest := h + qpart;
    var before := u.scheme + ":" + rest;
    assert ToString(u) == before + FragmentPart(u.fragment);
    HierarchyClean(u);
    assert !HasControl(qpart) by {
      assert !HasControl("?");
      NoControlInConcat("?", u.rawQuery);
    }
    NoControlInConcat(h, qpart);
    assert '#' !in before;
    FragmentIgnored(before, u.fragment);
    QueryAfterScheme(u.scheme, rest);
    QueryCut(h, u.rawQuery);
  }

  /** The text after the first '#' of a composed URL is its fragment. */
  lemma FragmentAfterHash(u: Url)
    requires '#' !in u.scheme && '#' !in u.host && '#' !in u.path && '#' !in u.rawQuery
    ensures Cut(ToString(u), '#').1 == u.fragment
  {
    var head := if u.scheme != "" then u.scheme + ":" else "";
    var dot := if head == "" && u.host == "" && ':' in Cut(u.path, '/').0 then "./" else "";
    var before := head + dot + Hierarchy(u) + QueryPart(u.rawQuery);
    assert '#' !in before;
    if u.fragment != "" {
      assert ToString(u) == before + ['#'] + u.fragment;
      CutAt(before, '#', u.fragment);
    } else {
      assert ToString(u) == before;
    }
  }
}
