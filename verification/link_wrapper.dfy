/** A LinkWrapper instance as a value: the wrapped link plus the memoised
    parse, with getParsed, setLink, one getter call and build as functions
    from one state to the next. parse_url is a parameter of every operation
    that may parse. */
module LinkWrapper {
  import opened Wrappers
  import opened Errors
  import opened Url
  import Decorate
  import Compose
  import opened Dispatch

  /** What the wrapped link offers: the href attribute of its node ("" when
      the node has none) and the link's resolved URI. */
  datatype Link = Link(href: string, uri: string)

  /** The instance state: the link and the parsed record, once computed. */
  datatype Wrapper = Wrapper(link: Link, cache: Option<Parsed>)

  /** PHP's parse_url, which is not part of this model. */
  type ParseUrl = string -> ParseUrlAnswer

  /** The instance invariant: the record is cached only as getParsed stores
      it, from `array_map('trim', ...)`, so every cached field is trimmed. */
  predicate Valid(w: Wrapper) {
    w.cache.Some? ==> WellTrimmed(w.cache.value)
  }

  /** The constructor: nothing is parsed yet. */
  function New(link: Link): (r: Wrapper)
    ensures r.link == link && r.cache.None?
    ensures Valid(r)
  {
    Wrapper(link, None)
  }

  /** setLink: replaces the link and keeps whatever parse is cached. */
  function SetLink(w: Wrapper, link: Link): (r: Wrapper)
    ensures r.link == link
    ensures r.cache == w.cache
    ensures Valid(w) ==> Valid(r)
  {
    Wrapper(link, w.cache)
  }

  /** getParsed: the cached record if there is one; otherwise the link's
      href is parsed and, on success, cached. */
  function GetParsed(w: Wrapper, parseUrl: ParseUrl): (res: (Result<Parsed, Error>, Wrapper))
    ensures res.1.link == w.link
    ensures w.cache.Some? ==> res == (Success(w.cache.value), w)
    ensures w.cache.None? ==> res.0 == Parse(w.link.href, parseUrl(w.link.href))
    ensures Valid(w) ==> Valid(res.1)
    ensures Valid(w) && res.0.Success? ==> WellTrimmed(res.0.value)
    ensures res.0.Success? ==> res.1.cache == Some(res.0.value)
    ensures res.0.Failure? ==> res.1 == w && res.0.error == UrlParseError(w.link.href)
  {
    match w.cache
    case Some(p) => (Success(p), w)
    case None =>
      match Parse(w.link.href, parseUrl(w.link.href))
      case Success(p) => (Success(p), Wrapper(w.link, Some(p)))
      case Failure(e) => (Failure(e), w)
  }

  /** The first getParsed on a fresh instance parses the link's href. */
  lemma NewParses(link: Link, parseUrl: ParseUrl)
    ensures GetParsed(New(link), parseUrl).0 == Parse(link.href, parseUrl(link.href))
  {
  }

  /** Asking again gives the same answer and leaves the state as it was. */
  lemma GetParsedStable(w: Wrapper, parseUrl: ParseUrl)
    ensures var (r, w1) := GetParsed(w, parseUrl); GetParsed(w1, parseUrl) == (r, w1)
  {
  }

  /** Once a parse is cached, setLink does not invalidate it: getParsed keeps
      answering with the record of the old href. */
  lemma CacheSurvivesSetLink(w: Wrapper, parseUrl: ParseUrl, link: Link)
    requires GetParsed(w, parseUrl).0.Success?
    ensures var (r, w1) := GetParsed(w, parseUrl);
      GetParsed(SetLink(w1, link), parseUrl).0 == r
  {
  }

  /** The value of a pass-through getter: getHref, getUri or getRequestUri
      (an alias of getUri). */
  function PassThroughValue(link: Link, a: Accessor): (r: string)
    requires a.Defined() && a.PassThrough()
    ensures a.field == Href ==> r == link.href
    ensures a.field != Href ==> r == link.uri
  {
    if a.field == Href then link.href else link.uri
  }

  /** The value of a getter that reads the parsed record. Only the getters
      that go through getAuth (getAuth, getBase, getBaseDecorated and
      getNext) can fail, and only as getAuth does. */
  function Read(p: Parsed, a: Accessor): (r: Result<string, Error>)
    requires a.Defined() && !a.PassThrough()
    ensures r.Failure? <==> (a.field == Auth || a.field == Base || a.field == Next) && Compose.Auth(p).Failure?
    ensures r.Failure? ==> r.error == InvalidAuth(NoUserMessage)
  {
    if a.Plain? then ReadPlain(p, a.field) else ReadDecorated(p, a.field)
  }

  /** getX for a field X of the parsed record or derived from it. */
  function ReadPlain(p: Parsed, f: Field): (r: Result<string, Error>)
    requires !Plain(f).PassThrough()
    ensures r.Failure? <==> (f == Auth || f == Base || f == Next) && Compose.Auth(p).Failure?
    ensures r.Failure? ==> r.error == InvalidAuth(NoUserMessage)
    ensures f == Base ==> r == Compose.Base(p)
    ensures f == Next ==> r == Compose.Next(p)
  {
    match f
    case Next => Compose.Next(p)
    case Scheme => Success(p.scheme)
    case User => Success(p.user)
    case Pass => Success(p.pass)
    case Auth => Compose.Auth(p)
    case Host => Success(p.host)
    case HostAndPort => Success(Decorate.HostAndPort(p.host, p.port))
    case Port => Success(p.port)
    case Path => Success(p.path)
    case Query => Success(p.query)
    case Fragment => Success(p.fragment)
    case Base => Compose.Base(p)
    case Tail => Success(Compose.Tail(p))
  }

  /** getXDecorated for a field X that has a decorated getter. */
  function ReadDecorated(p: Parsed, f: Field): (r: Result<string, Error>)
    requires Decorated(f).Defined()
    ensures r.Failure? <==> f == Base && Compose.Auth(p).Failure?
    ensures r.Failure? ==> r.error == InvalidAuth(NoUserMessage)
    ensures f == Tail ==> r == Success(Compose.TailDecorated(p))
  {
    match f
    case Scheme => Success(Decorate.Scheme(p.scheme))
    case Host => Success(Decorate.HostAndPort(p.host, p.port))
    case Port => Success(Decorate.Port(p.port))
    case Path => Success(Decorate.Path(p.path))
    case Query => Success(Decorate.Query(p.query))
    case Fragment => Success(Decorate.Fragment(p.fragment))
    case Base => Compose.BaseDecorated(p)
    case Tail => Success(Compose.TailDecorated(p))
  }

  /** Calls one getter on the instance: pass-through getters leave the state
      alone; the others go through getParsed and so may parse and cache. */
  function Call(w: Wrapper, parseUrl: ParseUrl, a: Accessor): (res: (Result<string, Error>, Wrapper))
    requires a.Defined()
    ensures res.1.link == w.link
    ensures Valid(w) ==> Valid(res.1)
    ensures a.PassThrough() ==> res == (Success(PassThroughValue(w.link, a)), w)
    ensures !a.PassThrough() && GetParsed(w, parseUrl).0.Failure? ==>
      res == (Failure(GetParsed(w, parseUrl).0.error), w)
    ensures !a.PassThrough() && GetParsed(w, parseUrl).0.Success? ==>
      res == (Read(GetParsed(w, parseUrl).0.value, a), GetParsed(w, parseUrl).1)
    ensures res.0.Failure? ==> res.0.error.UrlParseError? || res.0.error == InvalidAuth(NoUserMessage)
  {
    if a.PassThrough() then
      (Success(PassThroughValue(w.link, a)), w)
    else
      var (parsed, w1) := GetParsed(w, parseUrl);
      match parsed
      case Failure(e) => (Failure(e), w1)
      case Success(p) =>
        (Read(p, a), w1)
  }

  /** One key of build: resolve it to a getter and call that getter; an
      unknown key fails without touching the state. */
  function Step(w: Wrapper, parseUrl: ParseUrl, key: string): (res: (Result<string, Error>, Wrapper))
    ensures res.1.link == w.link
    ensures Valid(w) ==> Valid(res.1)
    ensures w.cache.Some? ==> res.1 == w
    ensures Resolve(key).Failure? ==> res == (Failure(UnknownComponent(key, MethodName(key))), w)
    ensures res.0.Failure? && res.0.error.UnknownComponent? ==> Resolve(key).Failure?
  {
    match Resolve(key)
    case Failure(e) => (Failure(e), w)
    case Success(a) => Call(w, parseUrl, a)
  }

  /** Joins a getter's result with the result of the keys after it: the
      first error wins, otherwise the strings are concatenated. */
  function Join(first: Result<string, Error>, rest: Result<string, Error>): (r: Result<string, Error>)
    ensures r.Success? <==> first.Success? && rest.Success?
    ensures r.Success? ==> r.value == first.value + rest.value
    ensures r.Failure? ==> r.error == if first.Failure? then first.error else rest.error
  {
    if first.Failure? then first
    else if rest.Failure? then rest
    else Success(first.value + rest.value)
  }

  /** build: resolves each key in order, calls its getter and concatenates
      the results with no separator; the first unknown key or failing getter
      ends the call with its error. */
  function Build(w: Wrapper, parseUrl: ParseUrl, keys: seq<string>): (res: (Result<string, Error>, Wrapper))
    ensures res.1.link == w.link
    ensures keys == [] ==> res == (Success(""), w)
    decreases |keys|
  {
    if keys == [] then
      (Success(""), w)
    else
      var (v, w1) := Step(w, parseUrl, keys[0]);
      if v.Failure? then
        (v, w1)
      else
        var (rest, w2) := Build(w1, parseUrl, keys[1..]);
        (Join(v, rest), w2)
  }

  /** Build on a non-empty list of keys, one step unfolded. */
  lemma BuildCons(w: Wrapper, parseUrl: ParseUrl, keys: seq<string>)
    requires keys != []
    ensures var st := Step(w, parseUrl, keys[0]);
      Build(w, parseUrl, keys) ==
        if st.0.Failure? then st
        else (Join(st.0, Build(st.1, parseUrl, keys[1..]).0), Build(st.1, parseUrl, keys[1..]).1)
  {
  }

  /** Build keeps the instance invariant: whatever it caches is trimmed. */
  lemma {:induction false} BuildValid(w: Wrapper, parseUrl: ParseUrl, keys: seq<string>)
    ensures Valid(w) ==> Valid(Build(w, parseUrl, keys).1)
    decreases |keys|
  {
    if keys != [] {
      BuildCons(w, parseUrl, keys);
      var st := Step(w, parseUrl, keys[0]);
      if st.0.Success? {
        BuildValid(st.1, parseUrl, keys[1..]);
      }
    }
  }

  /** Once a parse is cached, build leaves the state as it found it. */
  lemma {:induction false} BuildKeepsCache(w: Wrapper, parseUrl: ParseUrl, keys: seq<string>)
    requires w.cache.Some?
    ensures Build(w, parseUrl, keys).1 == w
    decreases |keys|
  {
    if keys != [] {
      BuildCons(w, parseUrl, keys);
      BuildKeepsCache(w, parseUrl, keys[1..]);
    }
  }

  /** A step of build leaves getParsed's answer as it found it: it either
      keeps the state or caches the record getParsed answers with. */
  lemma StepKeepsParse(w: Wrapper, parseUrl: ParseUrl, key: string)
    ensures GetParsed(Step(w, parseUrl, key).1, parseUrl).0 == GetParsed(w, parseUrl).0
  {
  }

  /** A step of build depends on the instance only through its link and
      getParsed's answer. */
  lemma StepSameParse(w: Wrapper, v: Wrapper, parseUrl: ParseUrl, key: string)
    requires w.link == v.link && GetParsed(w, parseUrl).0 == GetParsed(v, parseUrl).0
    ensures Step(w, parseUrl, key).0 == Step(v, parseUrl, key).0
  {
  }

  /** Build leaves getParsed's answer as it found it, parsed or not. */
  lemma {:induction false} BuildKeepsParse(w: Wrapper, parseUrl: ParseUrl, keys: seq<string>)
    ensures GetParsed(Build(w, parseUrl, keys).1, parseUrl).0 == GetParsed(w, parseUrl).0
    decreases |keys|
  {
    if keys != [] {
      BuildCons(w, parseUrl, keys);
      var st := Step(w, parseUrl, keys[0]);
      StepKeepsParse(w, parseUrl, keys[0]);
      if st.0.Success? {
        BuildKeepsParse(st.1, parseUrl, keys[1..]);
      }
    }
  }

  /** Two instances with the same link and the same answer from getParsed
      build the same string: whether the record was already cached does not
      show in the result. */
  lemma {:induction false} BuildSameParse(w: Wrapper, v: Wrapper, parseUrl: ParseUrl, keys: seq<string>)
    requires w.link == v.link && GetParsed(w, parseUrl).0 == GetParsed(v, parseUrl).0
    ensures Build(w, parseUrl, keys).0 == Build(v, parseUrl, keys).0
    decreases |keys|
  {
    if keys != [] {
      BuildCons(w, parseUrl, keys);
      BuildCons(v, parseUrl, keys);
      var sw := Step(w, parseUrl, keys[0]);
      var sv := Step(v, parseUrl, keys[0]);
      StepSameParse(w, v, parseUrl, keys[0]);
      StepKeepsParse(w, parseUrl, keys[0]);
      StepKeepsParse(v, parseUrl, keys[0]);
      if sw.0.Success? {
        BuildSameParse(sw.1, sv.1, parseUrl, keys[1..]);
      }
    }
  }

  /** A build that succeeds used only keys that name a getter. */
  lemma {:induction false} BuildKnownKeys(w: Wrapper, parseUrl: ParseUrl, keys: seq<string>)
    ensures Build(w, parseUrl, keys).0.Success? ==>
      forall i :: 0 <= i < |keys| ==> Resolve(keys[i]).Success?
    decreases |keys|
  {
    if keys != [] && Build(w, parseUrl, keys).0.Success? {
      BuildCons(w, parseUrl, keys);
      var (v, w1) := Step(w, parseUrl, keys[0]);
      assert v.Success?;
      assert Resolve(keys[0]).Success?;
      BuildKnownKeys(w1, parseUrl, keys[1..]);
      forall i | 1 <= i < |keys| ensures Resolve(keys[i]).Success? {
        assert keys[i] == keys[1..][i - 1];
      }
    }
  }

  /** The error of an unknown key names a key that was passed and that
      resolves to no getter. */
  lemma {:induction false} BuildUnknownKey(w: Wrapper, parseUrl: ParseUrl, keys: seq<string>)
    ensures var r := Build(w, parseUrl, keys).0;
      r.Failure? && r.error.UnknownComponent? ==>
        r.error.key in keys && Resolve(r.error.key).Failure? && r.error.methodName == MethodName(r.error.key)
    decreases |keys|
  {
    var r := Build(w, parseUrl, keys).0;
    if keys != [] && r.Failure? && r.error.UnknownComponent? {
      BuildCons(w, parseUrl, keys);
      var (v, w1) := Step(w, parseUrl, keys[0]);
      if v.Success? {
        BuildUnknownKey(w1, parseUrl, keys[1..]);
        var e := Build(w1, parseUrl, keys[1..]).0.error;
        assert e.key in keys by {
          var i :| 0 <= i < |keys[1..]| && keys[1..][i] == e.key;
          assert keys[i + 1] == e.key;
        }
      }
    }
  }

  /** Sequencing two builds: build(a + b) is build(a) followed, on the state
      it leaves, by build(b), the results joined. */
  lemma {:induction false} BuildAppend(w: Wrapper, parseUrl: ParseUrl, a: seq<string>, b: seq<string>)
    ensures Build(w, parseUrl, a).0.Failure? ==> Build(w, parseUrl, a + b) == Build(w, parseUrl, a)
    ensures Build(w, parseUrl, a).0.Success? ==>
      var w1 := Build(w, parseUrl, a).1;
      Build(w, parseUrl, a + b) ==
        (Join(Build(w, parseUrl, a).0, Build(w1, parseUrl, b).0), Build(w1, parseUrl, b).1)
    decreases |a|
  {
    if a == [] {
      assert a + b == b;
      var rb := Build(w, parseUrl, b).0;
      if rb.Success? {
        assert "" + rb.value == rb.value;
      }
    } else {
      assert (a + b)[0] == a[0];
      assert (a + b)[1..] == a[1..] + b;
      BuildCons(w, parseUrl, a);
      BuildCons(w, parseUrl, a + b);
      var st := Step(w, parseUrl, a[0]);
      if st.0.Success? {
        BuildAppend(st.1, parseUrl, a[1..], b);
        var ra := Build(st.1, parseUrl, a[1..]);
        var rab := Build(st.1, parseUrl, a[1..] + b);
        assert Build(w, parseUrl, a) == (Join(st.0, ra.0), ra.1);
        assert Build(w, parseUrl, a + b) == (Join(st.0, rab.0), rab.1);
        if ra.0.Success? {
          var rb := Build(ra.1, parseUrl, b);
          assert rab == (Join(ra.0, rb.0), rb.1);
          JoinAssociative(st.0, ra.0, rb.0);
        } else {
          assert rab == ra;
        }
      }
    }
  }

  /** Joining is associative once the first result is a success. */
  lemma JoinAssociative(x: Result<string, Error>, y: Result<string, Error>, z: Result<string, Error>)
    requires x.Success?
    ensures y.Failure? ==> Join(x, y) == y
    ensures y.Success? ==> Join(x, Join(y, z)) == Join(Join(x, y), z)
  {
    if y.Success? && z.Success? {
      assert x.value + (y.value + z.value) == (x.value + y.value) + z.value;
    }
  }

  /** Build of a concatenation is the concatenation of the builds, each on
      the same instance, whether or not a parse is cached. */
  lemma BuildConcat(w: Wrapper, parseUrl: ParseUrl, a: seq<string>, b: seq<string>)
    ensures Build(w, parseUrl, a + b).0 == Join(Build(w, parseUrl, a).0, Build(w, parseUrl, b).0)
  {
    BuildAppend(w, parseUrl, a, b);
    var ra := Build(w, parseUrl, a);
    if ra.0.Success? {
      BuildKeepsParse(w, parseUrl, a);
      BuildSameParse(ra.1, w, parseUrl, b);
    }
  }

  /** Build of a single key is that key's step, its result unchanged. */
  lemma BuildOne(w: Wrapper, parseUrl: ParseUrl, key: string)
    ensures Build(w, parseUrl, [key]) == Step(w, parseUrl, key)
  {
    BuildCons(w, parseUrl, [key]);
    assert [key][1..] == [];
    var v := Step(w, parseUrl, key).0;
    if v.Success? {
      assert v.value + "" == v.value;
    }
  }

  /** getHostDecorated and getHostAndPort are the same getter. */
  lemma HostDecoratedIsHostAndPort(w: Wrapper, parseUrl: ParseUrl)
    ensures Call(w, parseUrl, Decorated(Host)) == Call(w, parseUrl, Plain(HostAndPort))
  {
  }

  /** A getter called after another one that succeeded reads the record the
      first one parsed or found. */
  lemma CallAfterCall(w: Wrapper, parseUrl: ParseUrl, a: Accessor, b: Accessor)
    requires a.Defined() && !a.PassThrough() && b.Defined() && !b.PassThrough()
    requires GetParsed(w, parseUrl).0.Success?
    ensures var p := GetParsed(w, parseUrl).0.value;
      Call(Call(w, parseUrl, a).1, parseUrl, b) == (Read(p, b), Call(w, parseUrl, a).1)
  {
  }

  /** getBase, read from a parsed record. */
  lemma ReadBase(p: Parsed)
    ensures Read(p, Plain(Base)) == Compose.Base(p)
  {
    assert Read(p, Plain(Base)) == ReadPlain(p, Base);
  }

  /** getTailDecorated, read from a parsed record. */
  lemma ReadTailDecorated(p: Parsed)
    ensures Read(p, Decorated(Tail)) == Success(Compose.TailDecorated(p))
  {
    var r := Read(p, Decorated(Tail));
    assert r.Success?;
    assert r.value == Compose.TailDecorated(p);
  }

  /** getNext, read from a parsed record. */
  lemma ReadNext(p: Parsed)
    ensures Read(p, Plain(Next)) == Compose.Next(p)
  {
    assert Read(p, Plain(Next)) == ReadPlain(p, Next);
  }

  /** Build of two keys is the first key's step, then, if that succeeded,
      the second key's step on the state the first left. */
  lemma BuildTwo(w: Wrapper, parseUrl: ParseUrl, k1: string, k2: string)
    ensures var st := Step(w, parseUrl, k1);
      Build(w, parseUrl, [k1, k2]) ==
        if st.0.Failure? then st
        else (Join(st.0, Step(st.1, parseUrl, k2).0), Step(st.1, parseUrl, k2).1)
  {
    BuildCons(w, parseUrl, [k1, k2]);
    assert [k1, k2][1..] == [k2];
    BuildOne(Step(w, parseUrl, k1).1, parseUrl, k2);
  }

  /** With the record parsed, build('base', 'tail!') gives getNext's value. */
  lemma BaseThenTailParsed(w: Wrapper, parseUrl: ParseUrl)
    requires GetParsed(w, parseUrl).0.Success?
    ensures var (r, w1) := GetParsed(w, parseUrl);
      Build(w, parseUrl, ["base", "tail!"]) == (Compose.Next(r.value), w1)
  {
    ResolveBase();
    ResolveTailBang();
    BaseThenTailKeys(w, parseUrl, "base", "tail!");
  }

  /** The same for any two keys that resolve to getBase and
      getTailDecorated. */
  lemma BaseThenTailKeys(w: Wrapper, parseUrl: ParseUrl, k1: string, k2: string)
    requires Resolve(k1) == Success(Plain(Base)) && Resolve(k2) == Success(Decorated(Tail))
    requires GetParsed(w, parseUrl).0.Success?
    ensures var (r, w1) := GetParsed(w, parseUrl);
      Build(w, parseUrl, [k1, k2]) == (Compose.Next(r.value), w1)
  {
    var (r, w1) := GetParsed(w, parseUrl);
    var p := r.value;
    BuildTwoReads(w, parseUrl, k1, k2, Plain(Base), Decorated(Tail));
    ReadBase(p);
    ReadTailDecorated(p);
    NextIsJoin(p);
    BuildTwoState(w, parseUrl, k1, k2, Plain(Base), Decorated(Tail));
  }

  /** getNext joins getBase with getTailDecorated. */
  lemma NextIsJoin(p: Parsed)
    ensures Compose.Next(p) == Join(Compose.Base(p), Success(Compose.TailDecorated(p)))
  {
  }

  /** With the record parsed, build of two keys that name record getters
      leaves the instance getParsed left. */
  lemma BuildTwoState(w: Wrapper, parseUrl: ParseUrl, k1: string, k2: string, a1: Accessor, a2: Accessor)
    requires a1.Defined() && !a1.PassThrough() && a2.Defined() && !a2.PassThrough()
    requires Resolve(k1) == Success(a1) && Resolve(k2) == Success(a2)
    requires GetParsed(w, parseUrl).0.Success?
    ensures Build(w, parseUrl, [k1, k2]).1 == GetParsed(w, parseUrl).1
  {
    BuildTwo(w, parseUrl, k1, k2);
    CallAfterCall(w, parseUrl, a1, a2);
  }

  /** getNext is build('base', 'tail!'): the base followed by the decorated
      tail, failing as getBase fails. */
  lemma NextIsBaseThenTail(w: Wrapper, parseUrl: ParseUrl)
    ensures Build(w, parseUrl, ["base", "tail!"]) == Build(w, parseUrl, ["next"])
  {
    ResolveBase();
    ResolveNext();
    BuildOne(w, parseUrl, "next");
    BuildTwo(w, parseUrl, "base", "tail!");
    var parsed := GetParsed(w, parseUrl);
    if parsed.0.Success? {
      BaseThenTailParsed(w, parseUrl);
      ReadNext(parsed.0.value);
    }
  }

  /** With the record parsed, build of two keys that name record getters is
      the first getter's value joined with the second's. */
  lemma BuildTwoReads(w: Wrapper, parseUrl: ParseUrl, k1: string, k2: string, a1: Accessor, a2: Accessor)
    requires a1.Defined() && !a1.PassThrough() && a2.Defined() && !a2.PassThrough()
    requires Resolve(k1) == Success(a1) && Resolve(k2) == Success(a2)
    requires GetParsed(w, parseUrl).0.Success?
    ensures var p := GetParsed(w, parseUrl).0.value;
      Build(w, parseUrl, [k1, k2]).0 == Join(Read(p, a1), Read(p, a2))
  {
    BuildTwo(w, parseUrl, k1, k2);
    CallAfterCall(w, parseUrl, a1, a2);
  }
}
