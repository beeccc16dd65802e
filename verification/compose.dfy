/** The accessors of LinkWrapper that combine several fields of the parsed
    record: getAuth, getBase, getBaseDecorated, getTail, getTailDecorated
    and getNext. */
module Compose {
  import opened Wrappers
  import opened Errors
  import opened PhpString
  import opened Url
  import Decorate

  /** getAuth: the user, or "user:pass" with colons trimmed off both ends;
      a PHP-truthy password with a PHP-empty user is an error. */
  function Auth(p: Parsed): (r: Result<string, Error>)
    ensures r.Failure? <==> Truthy(p.pass) && !Truthy(p.user)
    ensures r.Failure? ==> r.error == InvalidAuth(NoUserMessage)
    ensures r.Success? && !Truthy(p.pass) ==> r.value == p.user
    ensures r.Success? && Truthy(p.pass) ==> TrimmedBy(r.value, {':'})
    ensures r.Success? && Truthy(p.pass) ==> r.value == Trim(p.user + ":" + p.pass, {':'})
  {
    if Truthy(p.pass) && !Truthy(p.user) then
      Failure(InvalidAuth(NoUserMessage))
    else if !Truthy(p.pass) then
      Success(p.user)
    else
      Success(Trim(p.user + ":" + p.pass, {':'}))
  }

  /** Splits credentials at their first colon into user and password (the
      password is "" when there is no colon). */
  function SplitCredentials(a: string): (r: (string, string))
    ensures ':' !in r.0
    ensures ':' !in a ==> r == (a, "")
  {
    if a == [] then ("", "")
    else if a[0] == ':' then ("", a[1..])
    else
      var rest := SplitCredentials(a[1..]);
      assert a == [a[0]] + a[1..];
      ([a[0]] + rest.0, rest.1)
  }

  /** Splitting undoes joining with a colon when the user has no colon. */
  lemma {:induction false} SplitJoin(user: string, pass: string)
    requires ':' !in user
    ensures SplitCredentials(user + ":" + pass) == (user, pass)
    decreases |user|
  {
    if user == [] {
      assert user + ":" + pass == [':'] + pass;
    } else {
      assert (user + ":" + pass)[1..] == user[1..] + ":" + pass;
      assert user[0] != ':';
      SplitJoin(user[1..], pass);
      assert [user[0]] + user[1..] == user;
    }
  }

  /** For a colon-free user and a password that does not end in a colon,
      getAuth joins them with one colon, and splitting gives both back. */
  lemma AuthRoundTrip(p: Parsed)
    requires Truthy(p.user) && Truthy(p.pass)
    requires ':' !in p.user && p.pass[|p.pass| - 1] != ':'
    ensures Auth(p) == Success(p.user + ":" + p.pass)
    ensures SplitCredentials(Auth(p).value) == (p.user, p.pass)
  {
    var joined := p.user + ":" + p.pass;
    assert TrimmedBy(joined, {':'}) by {
      assert joined[0] == p.user[0];
      assert joined[|joined| - 1] == p.pass[|p.pass| - 1];
    }
    SplitJoin(p.user, p.pass);
  }

  /** getBase: decorated scheme, then "auth@host:port" with stray "@"s
      trimmed, then every trailing "/" removed. */
  function Base(p: Parsed): (r: Result<string, Error>)
    ensures r.Failure? <==> Auth(p).Failure?
    ensures r.Failure? ==> r.error == InvalidAuth(NoUserMessage)
    ensures r.Success? ==> r.value == [] || r.value[|r.value| - 1] != '/'
    ensures r.Success? ==> var sd := Decorate.Scheme(p.scheme);
      |sd| < |r.value| ==> r.value[..|sd|] == sd && r.value[|sd|] != '@'
  {
    var auth :- Auth(p);
    var sd := Decorate.Scheme(p.scheme);
    var authHost := Trim(auth + "@" + Decorate.HostAndPort(p.host, p.port), {'@'});
    NoAtAfterPrefix(sd, authHost);
    Success(RTrim(sd + authHost, {'/'}))
  }

  /** Right-trimming slashes off `sd + t`, where `t` does not start with
      "@", leaves `sd` in front and never puts an "@" right after it. */
  lemma NoAtAfterPrefix(sd: string, t: string)
    requires t == [] || t[0] != '@'
    ensures var r := RTrim(sd + t, {'/'});
      |sd| < |r| ==> r[..|sd|] == sd && r[|sd|] != '@'
  {
    var r := RTrim(sd + t, {'/'});
    RTrimPrefix(sd + t, {'/'});
    if |sd| < |r| {
      assert r[|sd|] == (sd + t)[|sd|] == t[0];
    }
  }

  /** Trimming "@"s off "auth@hostport" drops the "@" exactly when there is
      no auth, provided neither part carries "@" at its outer ends. */
  lemma AuthorityTrim(a: string, hp: string)
    requires hp != "" && hp[0] != '@' && hp[|hp| - 1] != '@'
    requires a == "" || a[0] != '@'
    ensures Trim(a + "@" + hp, {'@'}) == (if a == "" then "" else a + "@") + hp
  {
    var middle := if a == "" then "" else a + "@";
    if a == "" {
      assert a + "@" + hp == "@" + hp;
      LTrimBefore("@", hp, {'@'});
    } else {
      assert a + "@" + hp == middle + hp;
      assert LTrim(middle + hp, {'@'}) == middle + hp;
    }
    RTrimAfter(middle + hp, "", {'@'});
    assert middle + hp + "" == middle + hp;
  }

  /** The string assembly of getBase, for parts that carry no stray "@" or
      trailing "/": nothing is trimmed but the "@" of an empty auth. */
  lemma AssembleBase(sd: string, a: string, hp: string)
    requires hp != "" && hp[0] != '@' && hp[|hp| - 1] != '@' && hp[|hp| - 1] != '/'
    requires a == "" || a[0] != '@'
    ensures RTrim(sd + Trim(a + "@" + hp, {'@'}), {'/'})
              == sd + (if a == "" then "" else a + "@") + hp
  {
    var middle := if a == "" then "" else a + "@";
    var ret := sd + (middle + hp);
    assert sd + middle + hp == ret;
    AuthorityTrim(a, hp);
    assert ret[|ret| - 1] == hp[|hp| - 1];
    RTrimAfter(ret, "", {'/'});
    assert ret + "" == ret;
  }

  /** For an authority whose host-and-port does not begin with "@" or end
      with "@" or "/", and an auth that does not begin with "@", getBase is
      exactly the decorated scheme, then "auth@" when there is an auth,
      then host and port. */
  lemma BaseShape(p: Parsed)
    requires Auth(p).Success?
    requires var hp := Decorate.HostAndPort(p.host, p.port);
      hp != "" && hp[0] != '@' && hp[|hp| - 1] != '@' && hp[|hp| - 1] != '/'
    requires Auth(p).value == "" || Auth(p).value[0] != '@'
    ensures var a := Auth(p).value;
      Base(p) == Success(Decorate.Scheme(p.scheme) + (if a == "" then "" else a + "@")
                         + Decorate.HostAndPort(p.host, p.port))
  {
    AssembleBase(Decorate.Scheme(p.scheme), Auth(p).value, Decorate.HostAndPort(p.host, p.port));
  }

  /** getBaseDecorated: the base with one "/" appended, or "" for an empty
      base; so a non-empty result ends in exactly one "/". */
  function BaseDecorated(p: Parsed): (r: Result<string, Error>)
    ensures r.Failure? <==> Auth(p).Failure?
    ensures r.Failure? ==> r.error == InvalidAuth(NoUserMessage)
    ensures r.Success? ==> (r.value == "" <==> Base(p).value == "")
    ensures r.Success? && r.value != "" ==>
      && r.value == Base(p).value + "/"
      && |r.value| >= 2 && r.value[|r.value| - 2] != '/'
  {
    var base :- Base(p);
    var decorated := base + "/";
    Success(if decorated == "/" then "" else decorated)
  }

  /** getTail: the raw path, then the decorated query; the fragment never
      contributes, since its decoration is always "". */
  function Tail(p: Parsed): (r: string)
    ensures r == p.path + Decorate.Query(p.query)
    ensures |p.path| <= |r| && r[..|p.path|] == p.path
    ensures |p.path| < |r| ==> r[|p.path|] == '?'
  {
    p.path + Decorate.Query(p.query) + Decorate.Fragment(p.fragment)
  }

  /** getTailDecorated: the decorated path, then the decorated query. */
  function TailDecorated(p: Parsed): (r: string)
    ensures r == Decorate.Path(p.path) + Decorate.Query(p.query)
    ensures r == "" <==> !AllIn(p.path, {'/'}) && AllIn(p.query, {'?'})
    ensures r != "" && r[0] != '?' ==> r[0] == '/' && AllIn(p.path, {'/'})
  {
    Decorate.Path(p.path) + Decorate.Query(p.query) + Decorate.Fragment(p.fragment)
  }

  /** getNext: the base followed by the decorated tail. */
  function Next(p: Parsed): (r: Result<string, Error>)
    ensures r.Failure? <==> Auth(p).Failure?
    ensures r.Failure? ==> r.error == InvalidAuth(NoUserMessage)
    ensures r.Success? ==> r.value == Base(p).value + TailDecorated(p)
  {
    var base :- Base(p);
    Success(base + TailDecorated(p))
  }
}
