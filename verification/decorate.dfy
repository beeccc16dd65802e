/** The "decorated" accessors of LinkWrapper: a component with its URL
    punctuation added, collapsing to "" in the cases the source singles out. */
module Decorate {
  import opened PhpString

  /** getSchemeDecorated: "scheme:" for a scheme that starts with "mailto"
      in any case, "scheme://" otherwise, and "" for an empty scheme. */
  function Scheme(scheme: string): (r: string)
    ensures r == "" <==> scheme == ""
    ensures scheme != "" && StartsWithCI(scheme, "mailto") ==> r == scheme + ":"
    ensures scheme != "" && !StartsWithCI(scheme, "mailto") ==> r == scheme + "://"
  {
    var result := if StartsWithCI(scheme, "mailto") then scheme + ":" else scheme + "://";
    if result == "://" then "" else result
  }

  /** getPortDecorated: rtrim(':' . port, ':'). */
  function Port(port: string): (r: string)
    ensures r == "" <==> AllIn(port, {':'})
    ensures r != "" ==> r == ":" + RTrim(port, {':'})
    ensures r == [] || r[|r| - 1] != ':'
    ensures port != "" && port[|port| - 1] != ':' ==> r == ":" + port
  {
    var r := RTrim(":" + port, {':'});
    assert AllIn(port, {':'}) ==> r == "" by {
      if AllIn(port, {':'}) {
        assert AllIn(":" + port, {':'});
        RTrimEmpty(":" + port, {':'});
      }
    }
    assert !AllIn(port, {':'}) ==> r == ":" + RTrim(port, {':'}) by {
      if !AllIn(port, {':'}) {
        RTrimBehind(":", port, {':'});
      }
    }
    r
  }

  /** getPathDecorated as written: "/" exactly when the path is made of
      slashes only (the empty path included), "" for every other path. */
  function Path(path: string): (r: string)
    ensures r == "/" <==> AllIn(path, {'/'})
    ensures r == "" <==> !AllIn(path, {'/'})
  {
    LTrimEmpty(path, {'/'});
    var decorated := "/" + LTrim(path, {'/'});
    if decorated == "/" then "/" else ""
  }

  /** getQueryDecorated: "?" followed by the query without its leading "?"s,
      or "" when nothing but "?"s is left. */
  function Query(query: string): (r: string)
    ensures r == "" <==> AllIn(query, {'?'})
    ensures r != "" ==> r[0] == '?' && r[1..] == LTrim(query, {'?'})
    ensures r != "" ==> |r| >= 2 && r[1] != '?'
    ensures query != "" && query[0] != '?' ==> r == "?" + query
  {
    LTrimEmpty(query, {'?'});
    var stripped := LTrim(query, {'?'});
    var decorated := "?" + stripped;
    if decorated == "?" then "" else decorated
  }

  /** getFragmentDecorated as written: its format string "#" has no
      placeholder, so the result is always "#" collapsed to "". */
  function Fragment(fragment: string): (r: string)
    ensures r == ""
  {
    var decorated := "#";
    if decorated == "#" then "" else decorated
  }

  /** getHostAndPort (and getHostDecorated): the host followed by the
      decorated port. */
  function HostAndPort(host: string, port: string): (r: string)
    ensures |host| <= |r| && r[..|host|] == host
    ensures AllIn(port, {':'}) ==> r == host
    ensures port != "" && port[|port| - 1] != ':' ==> r == host + ":" + port
  {
    host + Port(port)
  }

  /** Decorating a query twice is the same as decorating it once. */
  lemma {:induction false} QueryIdempotent(query: string)
    ensures Query(Query(query)) == Query(query)
  {
    var r := Query(query);
    if r != "" {
      LTrimBefore("?", r[1..], {'?'});
      assert "?" + r[1..] == r;
    }
  }

  /** The decorated port gives the port back when the port has no trailing
      colon: stripping the leading ":" inverts the decoration. */
  lemma PortInverse(port: string)
    requires port == "" || port[|port| - 1] != ':'
    ensures port == "" ==> Port(port) == ""
    ensures port != "" ==> Port(port)[0] == ':' && Port(port)[1..] == port
  {
  }
}
