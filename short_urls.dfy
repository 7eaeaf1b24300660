/**
 * The short URL that the `/create` handler hands to the image encoder,
 * `protocol://host/r/code`, and its inverse: splitting a requested URL back
 * into protocol, host and the code that the `/r/:code` route captures.
 */
module ShortUrls {
  import opened Results

  /** The components a short URL is built from. */
  datatype Parts = Parts(protocol: string, host: string, code: string)

  /** Index of the first occurrence of `ch` in `s`, or `|s|` when there is none. */
  function IndexOf(s: string, ch: char): (i: nat)
    ensures i <= |s|
    ensures i < |s| ==> s[i] == ch
    ensures ch !in s[..i]
  {
    if |s| == 0 then 0
    else if s[0] == ch then 0
    else 1 + IndexOf(s[1..], ch)
  }

  /** The short URL of a code, as the create handler builds it. */
  function ShortUrl(protocol: string, host: string, code: string): string
  {
    protocol + "://" + host + "/r/" + code
  }

  /** A code the `/r/:code` route can capture: one path segment, not empty. */
  predicate RoutableCode(code: string)
  {
    |code| >= 1 && '/' !in code
  }

  /** A protocol and host that a URL can be split back into. */
  predicate WellFormedOrigin(protocol: string, host: string)
  {
    ':' !in protocol && '/' !in host
  }

  /**
   * The `/r/:code` route: a path "/r/" followed by one non-empty segment,
   * which is the code handed to the redirect handler.
   */
  function RedirectRoute(path: string): (r: Option<string>)
    ensures r.Some? ==> RoutableCode(r.value) && path == "/r/" + r.value
  {
    if |path| >= 4 && path[..3] == "/r/" && RoutableCode(path[3..]) then
      assert path == path[..3] + path[3..];
      Some(path[3..])
    else None
  }

  /** The redirect route accepts "/r/" followed by any routable code, and captures that code. */
  lemma RedirectRouteAccepts(code: string)
    requires RoutableCode(code)
    ensures RedirectRoute("/r/" + code) == Some(code)
  {
    var path := "/r/" + code;
    assert path[..3] == "/r/" && path[3..] == code;
  }

  /** Cuts a URL at its first ':', which must begin "://", into the protocol and the rest. */
  function SplitOrigin(u: string): (r: Option<(string, string)>)
    ensures r.Some? ==> ':' !in r.value.0 && u == r.value.0 + "://" + r.value.1
  {
    var i := IndexOf(u, ':');
    if i + 3 <= |u| && u[i..i + 3] == "://" then
      assert u == u[..i] + u[i..i + 3] + u[i + 3..];
      Some((u[..i], u[i + 3..]))
    else None
  }

  /** Cuts the part after "://" at its first '/' into the host and the path. */
  function SplitHost(rest: string): (r: (string, string))
    ensures '/' !in r.0 && rest == r.0 + r.1
    ensures r.1 == [] || r.1[0] == '/'
  {
    var j := IndexOf(rest, '/');
    (rest[..j], rest[j..])
  }

  /**
   * Splits a requested URL into protocol, host and the code that the
   * redirect route captures from its path.
   */
  function ParseShortUrl(u: string): (r: Option<Parts>)
  {
    match SplitOrigin(u)
    case None => None
    case Some((protocol, rest)) =>
      var (host, path) := SplitHost(rest);
      match RedirectRoute(path)
      case None => None
      case Some(code) => Some(Parts(protocol, host, code))
  }

  /** `SplitOrigin` finds the "://" right after a protocol free of ':'. */
  lemma SplitOriginOf(protocol: string, rest: string)
    requires ':' !in protocol
    ensures SplitOrigin(protocol + "://" + rest) == Some((protocol, rest))
  {
    var u := protocol + "://" + rest;
    assert u == protocol + [':'] + ("//" + rest);
    IndexOfAfterPrefix(protocol, ':', "//" + rest);
    assert u[|protocol|..|protocol| + 3] == "://";
    assert u[|protocol| + 3..] == rest;
  }

  /** `SplitHost` stops at the '/' right after a host free of '/'. */
  lemma SplitHostOf(host: string, path: string)
    requires '/' !in host && |path| > 0 && path[0] == '/'
    ensures SplitHost(host + path) == (host, path)
  {
    assert host + path == host + [path[0]] + path[1..];
    IndexOfAfterPrefix(host, '/', path[1..]);
    assert (host + path)[|host|..] == path;
  }

  /** `IndexOf` finds the separator placed right after a prefix free of it. */
  lemma IndexOfAfterPrefix(a: string, ch: char, b: string)
    requires ch !in a
    ensures IndexOf(a + [ch] + b, ch) == |a|
    ensures (a + [ch] + b)[..|a|] == a
  {
    var s := a + [ch] + b;
    assert s[|a|] == ch;
  }

  /** Splitting the short URL of a routable code gives back exactly its parts. */
  lemma ParseShortUrlRoundTrip(protocol: string, host: string, code: string)
    requires WellFormedOrigin(protocol, host) && RoutableCode(code)
    ensures ParseShortUrl(ShortUrl(protocol, host, code)) == Some(Parts(protocol, host, code))
  {
    var path := "/r/" + code;
    assert ShortUrl(protocol, host, code) == protocol + "://" + (host + path);
    SplitOriginOf(protocol, host + path);
    SplitHostOf(host, path);
    RedirectRouteAccepts(code);
  }

  /** Every URL that splits is the short URL of its parts, and the parts are well formed. */
  lemma ParseShortUrlSound(u: string, p: Parts)
    requires ParseShortUrl(u) == Some(p)
    ensures WellFormedOrigin(p.protocol, p.host) && RoutableCode(p.code)
    ensures ShortUrl(p.protocol, p.host, p.code) == u
  {
    var origin := SplitOrigin(u).value;
    var hostPath := SplitHost(origin.1);
    var code := RedirectRoute(hostPath.1).value;
    assert p == Parts(origin.0, hostPath.0, code);
    Reassemble(u, origin.0, origin.1, hostPath.0, hostPath.1, code);
  }

  /** Gluing back the pieces that the splitting functions cut a URL into gives the short URL. */
  lemma Reassemble(u: string, protocol: string, rest: string, host: string, path: string, code: string)
    requires u == protocol + "://" + rest && rest == host + path && path == "/r/" + code
    ensures ShortUrl(protocol, host, code) == u
  {
    assert u == protocol + "://" + (host + ("/r/" + code));
  }

  /** Distinct codes (or origins) give distinct short URLs, so each link encodes its own URL. */
  lemma ShortUrlInjective(p1: string, h1: string, c1: string, p2: string, h2: string, c2: string)
    requires WellFormedOrigin(p1, h1) && RoutableCode(c1)
    requires WellFormedOrigin(p2, h2) && RoutableCode(c2)
    requires ShortUrl(p1, h1, c1) == ShortUrl(p2, h2, c2)
    ensures p1 == p2 && h1 == h2 && c1 == c2
  {
    ParseShortUrlRoundTrip(p1, h1, c1);
    ParseShortUrlRoundTrip(p2, h2, c2);
  }
}
