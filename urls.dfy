/**
 * URLs as Python's `urllib.parse` sees them: the six components `urlparse` returns,
 * `geturl()` for a URL with a network location, and the network location `urlparse`
 * finds in a URL string.
 */
module Urls {
  import opened Strings

  /** The components of a parsed URL: `scheme://netloc/path;params?query#fragment`. */
  datatype Url = Url(scheme: string, netloc: string, path: string, params: string, query: string, fragment: string)

  predicate IsAsciiAlpha(c: char) {
    ('a' <= c <= 'z') || ('A' <= c <= 'Z')
  }

  /** A character of `urllib.parse.scheme_chars`. */
  predicate IsSchemeChar(c: char) {
    IsAsciiAlpha(c) || ('0' <= c <= '9') || c == '+' || c == '-' || c == '.'
  }

  /** A network-location delimiter: where `_splitnetloc` stops. */
  predicate IsNetlocDelim(c: char) {
    c == '/' || c == '?' || c == '#'
  }

  /** Components that `urlparse` can return: a scheme made of scheme characters starting
      with a letter (or none), and a network location free of delimiters. */
  ghost predicate WellFormed(u: Url) {
    && (u.scheme == [] || (IsAsciiAlpha(u.scheme[0]) && forall k :: 0 <= k < |u.scheme| ==> IsSchemeChar(u.scheme[k])))
    && (forall k :: 0 <= k < |u.netloc| ==> !IsNetlocDelim(u.netloc[k]))
  }

  /** `str.find(c)`, with |s| in place of -1 when `c` does not occur. */
  function IndexOf(s: string, c: char): (i: nat)
    ensures i <= |s|
    ensures forall k :: 0 <= k < i ==> s[k] != c
    ensures i < |s| ==> s[i] == c
  {
    if s == [] then 0 else if s[0] == c then 0 else 1 + IndexOf(s[1..], c)
  }

  /** Index of the first network-location delimiter of `s`, or |s|. */
  function FirstDelim(s: string): (i: nat)
    ensures i <= |s|
    ensures forall k :: 0 <= k < i ==> !IsNetlocDelim(s[k])
    ensures i < |s| ==> IsNetlocDelim(s[i])
  {
    if s == [] then 0 else if IsNetlocDelim(s[0]) then 0 else 1 + FirstDelim(s[1..])
  }

  /** What `urlsplit` leaves after taking off a scheme: the text after the first ':'
      when everything before it is a scheme starting with a letter. */
  function AfterScheme(s: string): string {
    var i := IndexOf(s, ':');
    if 0 < i < |s| && IsAsciiAlpha(s[0]) && (forall k :: 0 <= k < i ==> IsSchemeChar(s[k])) then s[i + 1..] else s
  }

  /** `urlparse(s).netloc`: after the scheme, the text between a leading "//" and the next delimiter. */
  function NetlocOf(s: string): string {
    var rest := AfterScheme(s);
    if StartsWith(rest, "//") then rest[2..][..FirstDelim(rest[2..])] else ""
  }

  /** What `geturl()` writes after the network location: the path (rooted, with its
      parameters), then the query and the fragment when present. */
  function Tail(u: Url): string {
    var path := if u.params != [] then u.path + ";" + u.params else u.path;
    var rooted := if path != [] && path[0] != '/' then "/" + path else path;
    var withQuery := if u.query != [] then rooted + "?" + u.query else rooted;
    if u.fragment != [] then withQuery + "#" + u.fragment else withQuery
  }

  /** `urlunparse(u)` (the `geturl()` of a parse result) for a URL with a network location. */
  function Unparse(u: Url): string
    requires u.netloc != []
  {
    (if u.scheme != [] then u.scheme + ":" else "") + "//" + u.netloc + Tail(u)
  }

  /** Reading back a written URL gives the network location it was written with. */
  lemma NetlocRoundTrip(u: Url)
    requires WellFormed(u) && u.netloc != []
    ensures NetlocOf(Unparse(u)) == u.netloc
  {
    var rest := u.netloc + Tail(u);
    SchemeRemoved(u);
    var after := AfterScheme(Unparse(u));
    assert after == "//" + rest;
    assert StartsWith(after, "//") && after[2..] == rest;
    TailStartsWithDelim(u);
    NetlocFirst(u.netloc, Tail(u));
  }

  /** The network location ends at the first delimiter after it. */
  lemma NetlocFirst(netloc: string, tail: string)
    requires forall k :: 0 <= k < |netloc| ==> !IsNetlocDelim(netloc[k])
    requires tail == [] || IsNetlocDelim(tail[0])
    ensures (netloc + tail)[..FirstDelim(netloc + tail)] == netloc
  {
    var rest := netloc + tail;
    forall k | 0 <= k < |netloc| ensures !IsNetlocDelim(rest[k]) {
      assert rest[k] == netloc[k];
    }
    FirstDelimAt(rest, |netloc|);
    assert rest[..|netloc|] == netloc;
  }

  lemma TailStartsWithDelim(u: Url)
    ensures Tail(u) == [] || IsNetlocDelim(Tail(u)[0])
  {
  }

  /** `urlsplit` takes off exactly the scheme `geturl()` wrote. */
  lemma SchemeRemoved(u: Url)
    requires WellFormed(u) && u.netloc != []
    ensures AfterScheme(Unparse(u)) == "//" + u.netloc + Tail(u)
  {
    var body := "//" + u.netloc + Tail(u);
    var s := Unparse(u);
    if u.scheme != [] {
      var i := |u.scheme|;
      assert s == (u.scheme + ":") + body;
      assert s[..i] == u.scheme && s[i] == ':' && s[i + 1..] == body;
      AfterSchemeAt(s, i);
    } else {
      assert s == body && s[0] == '/';
    }
  }

  /** A scheme followed by ':' is taken off. */
  lemma AfterSchemeAt(s: string, i: nat)
    requires 0 < i < |s| && s[i] == ':' && IsAsciiAlpha(s[0])
    requires forall k :: 0 <= k < i ==> IsSchemeChar(s[..i][k])
    ensures AfterScheme(s) == s[i + 1..]
  {
    forall k | 0 <= k < i ensures s[k] != ':' && IsSchemeChar(s[k]) {
      assert s[..i][k] == s[k];
    }
    IndexOfAt(s, ':', i);
  }

  lemma IndexOfAt(s: string, c: char, i: nat)
    requires i < |s| && s[i] == c
    requires forall k :: 0 <= k < i ==> s[k] != c
    ensures IndexOf(s, c) == i
  {
  }

  lemma FirstDelimAt(s: string, i: nat)
    requires i <= |s|
    requires forall k :: 0 <= k < i ==> !IsNetlocDelim(s[k])
    requires i < |s| ==> IsNetlocDelim(s[i])
    ensures FirstDelim(s) == i
  {
  }
}
