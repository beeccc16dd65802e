/** Worked examples: the wrapper's getters and build on concrete hrefs,
    with parse_url's answer for each href written out as an input. */
module Examples {
  import opened Wrappers
  import opened Errors
  import opened PhpString
  import opened Url
  import Decorate
  import Compose
  import opened Dispatch
  import opened LinkWrapper

  /** parse_url("") answers with an empty path and nothing else. */
  const EmptyHrefParts: Components :=
    Components(None, None, None, None, None, Some(""), None, None)

  /** parse_url("https://example.org/x"). */
  const SecureParts: Components :=
    Components(Some("https"), None, None, Some("example.org"), None, Some("/x"), None, None)

  /** parse_url("/a/b?x=1"). */
  const RelativeParts: Components :=
    Components(None, None, None, None, None, Some("/a/b"), Some("x=1"), None)

  /** The empty href keeps its empty path; everything else comes from the
      defaults. */
  lemma EmptyHrefRecord()
    ensures Merge(EmptyHrefParts) == Parsed("http", "", "", "example.com", "", "", "", "")
  {
  }

  /** The default scheme and host, decorated. */
  lemma DefaultAuthority()
    ensures Decorate.Scheme("http") == "http://"
    ensures Decorate.HostAndPort("example.com", "") == "example.com"
  {
    assert !StartsWithCI("http", "mailto");
    assert "http" + "://" == "http://";
    assert AllIn("", {':'});
  }

  /** The empty path decorates to the root, the empty query to nothing. */
  lemma EmptyTail()
    ensures Decorate.Path("") == "/" && Decorate.Query("") == ""
  {
    assert AllIn("", {'/'}) && AllIn("", {'?'});
  }

  /** The empty href's next URL is the default scheme and host followed by
      the root path. */
  lemma EmptyHrefNext()
    ensures Compose.Next(Parsed("http", "", "", "example.com", "", "", "", "")) == Success("http://example.com/")
  {
    var p := Parsed("http", "", "", "example.com", "", "", "", "");
    DefaultAuthority();
    EmptyTail();
    assert "http://" + "" + "example.com" + ("/" + "") == "http://example.com/";
    assert Compose.Auth(p) == Success("");
    Compose.BaseShape(p);
  }

  /** With no host, getBase trims the scheme's "//" away too: the base is
      not longer than the decorated scheme and does not contain it. */
  lemma EmptyAuthorityBase(p: Parsed)
    requires p == Parsed("http", "", "", "", "", "/", "", "")
    ensures Compose.Base(p) == Success("http:")
  {
    DefaultAuthority();
    assert Decorate.HostAndPort("", "") == "" by {
      assert AllIn("", {':'});
    }
    assert Compose.Auth(p) == Success("");
    assert Trim("" + "@" + "", {'@'}) == "" by {
      assert "" + "@" + "" == "@";
      assert AllIn("@", {'@'});
    }
    assert "http://" + "" == "http://";
    assert RTrim("http://", {'/'}) == "http:" by {
      assert "http://"[..6] == "http:/";
      assert "http:/"[..5] == "http:";
    }
  }

  /** A secure href keeps its scheme, host and path. */
  lemma SecureRecord()
    ensures Merge(SecureParts) == Parsed("https", "", "", "example.org", "", "/x", "", "")
  {
    assert TrimmedBy("https", Whitespace);
    assert TrimmedBy("example.org", Whitespace);
    assert TrimmedBy("/x", Whitespace);
  }

  /** "scheme!" resolves to getSchemeDecorated. */
  lemma ResolveSchemeBang()
    ensures Resolve("scheme!") == Success(Decorated(Scheme))
  {
    assert Name(Scheme) + "!" == "scheme!";
    ResolveBang(Scheme, "!");
  }

  /** "host" resolves to getHost. */
  lemma ResolveHost()
    ensures Resolve("host") == Success(Plain(Host))
  {
    assert Key(Plain(Host)) == "host";
    ResolveKey(Plain(Host));
  }

  /** getSchemeDecorated on the record of "https://example.org/x". */
  lemma SecureScheme(p: Parsed)
    requires p == Parsed("https", "", "", "example.org", "", "/x", "", "")
    ensures Read(p, Decorated(Scheme)) == Success("https://")
  {
    assert Decorate.Scheme("https") == "https" + "://" by {
      assert !StartsWithCI("https", "mailto");
    }
    assert "https" + "://" == "https://";
    assert ReadDecorated(p, Scheme) == Success(Decorate.Scheme(p.scheme));
    assert Read(p, Decorated(Scheme)) == ReadDecorated(p, Scheme);
  }

  /** getHost on the record of "https://example.org/x". */
  lemma SecureHost(p: Parsed)
    requires p == Parsed("https", "", "", "example.org", "", "/x", "", "")
    ensures Read(p, Plain(Host)) == Success("example.org")
  {
    assert Read(p, Plain(Host)) == ReadPlain(p, Host);
  }

  /** The two pieces joined. */
  lemma SecureJoin()
    ensures Join(Success("https://"), Success("example.org")) == Success("https://example.org")
  {
    assert "https://" + "example.org" == "https://example.org";
  }

  /** build('scheme!', 'host') on a new instance whose href parse_url takes
      apart as "https://example.org/x" gives the scheme with its separator,
      then the host. */
  lemma BuildSchemeHost(w: Wrapper, parseUrl: ParseUrl)
    requires w.cache.None? && parseUrl(w.link.href) == Found(SecureParts)
    ensures Build(w, parseUrl, ["scheme!", "host"]).0 == Success("https://example.org")
  {
    var p := Parsed("https", "", "", "example.org", "", "/x", "", "");
    SecureRecord();
    assert GetParsed(w, parseUrl).0 == Success(p);
    ResolveSchemeBang();
    ResolveHost();
    SecureScheme(p);
    SecureHost(p);
    BuildSecure(w, parseUrl, p, "scheme!", "host");
  }

  /** The same, for any record and keys that read and resolve as these do. */
  lemma BuildSecure(w: Wrapper, parseUrl: ParseUrl, p: Parsed, k1: string, k2: string)
    requires GetParsed(w, parseUrl).0 == Success(p)
    requires Read(p, Decorated(Scheme)) == Success("https://") && Read(p, Plain(Host)) == Success("example.org")
    requires Resolve(k1) == Success(Decorated(Scheme)) && Resolve(k2) == Success(Plain(Host))
    ensures Build(w, parseUrl, [k1, k2]).0 == Success("https://example.org")
  {
    BuildTwoReads(w, parseUrl, k1, k2, Decorated(Scheme), Plain(Host));
    SecureJoin();
  }

  /** A relative href with a query falls back on the default scheme and
      host. */
  lemma RelativeRecord()
    ensures Merge(RelativeParts) == Parsed("http", "", "", "example.com", "", "/a/b", "x=1", "")
  {
    assert TrimmedBy("/a/b", Whitespace);
    assert TrimmedBy("x=1", Whitespace);
  }

  /** "path!" resolves to getPathDecorated. */
  lemma ResolvePathBang()
    ensures Resolve("path!") == Success(Decorated(Path))
  {
    assert Name(Path) + "!" == "path!";
    ResolveBang(Path, "!");
  }

  /** "query!" resolves to getQueryDecorated. */
  lemma ResolveQueryBang()
    ensures Resolve("query!") == Success(Decorated(Query))
  {
    assert Name(Query) + "!" == "query!";
    ResolveBang(Query, "!");
  }

  /** getPathDecorated on the record of "/a/b?x=1": a path with more than
      slashes decorates to "". */
  lemma RelativePath(p: Parsed)
    requires p == Parsed("http", "", "", "example.com", "", "/a/b", "x=1", "")
    ensures Read(p, Decorated(Path)) == Success("")
  {
    assert Decorate.Path("/a/b") == "" by {
      assert "/a/b"[1] !in {'/'};
    }
    assert ReadDecorated(p, Path) == Success(Decorate.Path(p.path));
    assert Read(p, Decorated(Path)) == ReadDecorated(p, Path);
  }

  /** getQueryDecorated on the record of "/a/b?x=1". */
  lemma RelativeQuery(p: Parsed)
    requires p == Parsed("http", "", "", "example.com", "", "/a/b", "x=1", "")
    ensures Read(p, Decorated(Query)) == Success("?x=1")
  {
    assert Decorate.Query("x=1") == "?" + "x=1" by {
      assert "x=1"[0] != '?';
    }
    assert "?" + "x=1" == "?x=1";
    assert ReadDecorated(p, Query) == Success(Decorate.Query(p.query));
    assert Read(p, Decorated(Query)) == ReadDecorated(p, Query);
  }

  /** build('path!', 'query!') on a new instance whose href parse_url takes
      apart as "/a/b?x=1": the decorated path of "/a/b" is empty, so only the
      query survives. */
  lemma BuildPathQuery(w: Wrapper, parseUrl: ParseUrl)
    requires w.cache.None? && parseUrl(w.link.href) == Found(RelativeParts)
    ensures Build(w, parseUrl, ["path!", "query!"]).0 == Success("?x=1")
  {
    var p := Parsed("http", "", "", "example.com", "", "/a/b", "x=1", "");
    RelativeRecord();
    assert GetParsed(w, parseUrl).0 == Success(p);
    ResolvePathBang();
    ResolveQueryBang();
    RelativePath(p);
    RelativeQuery(p);
    BuildRelative(w, parseUrl, p, "path!", "query!");
  }

  /** The same, for any record and keys that read and resolve as these do. */
  lemma BuildRelative(w: Wrapper, parseUrl: ParseUrl, p: Parsed, k1: string, k2: string)
    requires GetParsed(w, parseUrl).0 == Success(p)
    requires Read(p, Decorated(Path)) == Success("") && Read(p, Decorated(Query)) == Success("?x=1")
    requires Resolve(k1) == Success(Decorated(Path)) && Resolve(k2) == Success(Decorated(Query))
    ensures Build(w, parseUrl, [k1, k2]).0 == Success("?x=1")
  {
    BuildTwoReads(w, parseUrl, k1, k2, Decorated(Path), Decorated(Query));
    assert "" + "?x=1" == "?x=1";
  }

  /** A plain key no getter answers to fails, naming the method built
      from it. */
  lemma ResolveUnknown(k: string)
    requires PlainKey(k) && FromKey(k) == None
    ensures Resolve(k) == Failure(UnknownComponent(k, "get" + UcFirst(k)))
  {
    PlainMethodName(k);
    LookupKey(MethodName(k), k);
  }

  /** "unknownkey" is plain and names no getter. */
  lemma UnknownKey()
    ensures PlainKey("unknownkey") && FromKey("unknownkey") == None
    ensures "get" + UcFirst("unknownkey") == "getUnknownkey"
  {
    var k := "unknownkey";
    assert k[|k| - 9..] != "decorated";
    assert FromName(k) == None;
    assert UcFirst(k) == "Unknownkey";
  }

  /** A key that names no getter fails with the key and the method name
      built from it, whatever the href. */
  lemma BuildUnknown(w: Wrapper, parseUrl: ParseUrl)
    ensures Build(w, parseUrl, ["unknownkey"]).0 == Failure(UnknownComponent("unknownkey", "getUnknownkey"))
  {
    UnknownKey();
    ResolveUnknown("unknownkey");
    BuildOne(w, parseUrl, "unknownkey");
  }
}
