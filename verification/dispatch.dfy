/** How LinkWrapper::build turns a key into an accessor: "get" + ucfirst of
    the key with its underscores removed, trailing "!"s replaced by
    "Decorated", then a case-insensitive look-up (PHP method names ignore
    case) in the closed table of string-valued accessors. */
module Dispatch {
  import opened Wrappers
  import opened Errors
  import opened PhpString

  /** The quantities LinkWrapper has a string-valued getter for. */
  datatype Field =
    | Href | Uri | RequestUri
    | Scheme | User | Pass | Auth
    | Host | HostAndPort | Port
    | Path | Query | Fragment
    | Base | Tail | Next

  /** A getter: getX (`Plain(X)`) or getXDecorated (`Decorated(X)`). */
  datatype Accessor = Plain(field: Field) | Decorated(field: Field) {

    /** The class defines this getter: every plain one, and the decorated
        variants of scheme, host, port, path, query, fragment, base and tail. */
    predicate Defined() {
      Plain? || field in {Scheme, Host, Port, Path, Query, Fragment, Base, Tail}
    }

    /** The getter reads the link itself rather than the parsed record. */
    predicate PassThrough() {
      field in {Href, Uri, RequestUri}
    }
  }

  /** The lower-case name a field has in its getter's method name. */
  function Name(f: Field): string {
    match f
    case Href => "href"
    case Uri => "uri"
    case RequestUri => "requesturi"
    case Scheme => "scheme"
    case User => "user"
    case Pass => "pass"
    case Auth => "auth"
    case Host => "host"
    case HostAndPort => "hostandport"
    case Port => "port"
    case Path => "path"
    case Query => "query"
    case Fragment => "fragment"
    case Base => "base"
    case Tail => "tail"
    case Next => "next"
  }

  /** The field a lower-case name denotes, if any. */
  function FromName(n: string): (r: Option<Field>)
    ensures r.Some? ==> Name(r.value) == n
  {
    match n
    case "href" => Some(Href)
    case "uri" => Some(Uri)
    case "requesturi" => Some(RequestUri)
    case "scheme" => Some(Scheme)
    case "user" => Some(User)
    case "pass" => Some(Pass)
    case "auth" => Some(Auth)
    case "host" => Some(Host)
    case "hostandport" => Some(HostAndPort)
    case "port" => Some(Port)
    case "path" => Some(Path)
    case "query" => Some(Query)
    case "fragment" => Some(Fragment)
    case "base" => Some(Base)
    case "tail" => Some(Tail)
    case "next" => Some(Next)
    case _ => None
  }

  /** Field names are distinct, so a field is found from its name. */
  lemma NameInverse(f: Field)
    ensures FromName(Name(f)) == Some(f)
  {
  }

  /** The lower-case method name of a getter without its "get" prefix. */
  function Key(a: Accessor): string {
    match a
    case Plain(f) => Name(f)
    case Decorated(f) => Name(f) + "decorated"
  }

  /** Field names are short, so none of them ends in "decorated" (whose nine
      letters would leave at least three more for a decorated key). */
  lemma NameShort(f: Field)
    ensures 3 <= |Name(f)| <= 11
    ensures |Name(f)| <= 9 || Name(f)[|Name(f)| - 9..] != "decorated"
  {
  }

  /** The key of a decorated getter is its field's name followed by
      "decorated". */
  lemma DecoratedKey(f: Field)
    ensures var k := Key(Decorated(f));
      |k| > 9 && k[|k| - 9..] == "decorated" && k[..|k| - 9] == Name(f)
  {
    var k := Key(Decorated(f));
    assert k == Name(f) + "decorated";
  }

  /** The defined getter with lower-case key `k`, if any: a key ending in
      "decorated" names the decorated getter of the field before it. */
  function FromKey(k: string): (r: Option<Accessor>)
    ensures r.Some? ==> r.value.Defined() && Key(r.value) == k
  {
    if |k| > 9 && k[|k| - 9..] == "decorated" then
      match FromName(k[..|k| - 9])
      case Some(f) =>
        assert k == k[..|k| - 9] + "decorated";
        if Decorated(f).Defined() then Some(Decorated(f)) else None
      case None => None
    else
      match FromName(k)
      case Some(f) => Some(Plain(f))
      case None => None
  }

  /** Keys of defined getters are distinct, so a getter is found from its key. */
  lemma FromKeyInverse(a: Accessor)
    requires a.Defined()
    ensures FromKey(Key(a)) == Some(a)
  {
    NameInverse(a.field);
    if a.Decorated? {
      DecoratedKey(a.field);
    } else {
      NameShort(a.field);
    }
  }

  /** A key names no getter exactly when FromKey finds none. */
  lemma FromKeyNone(k: string)
    ensures FromKey(k).None? <==> forall a: Accessor :: a.Defined() ==> Key(a) != k
  {
    if FromKey(k).None? {
      forall a: Accessor | a.Defined() ensures Key(a) != k {
        FromKeyInverse(a);
      }
    }
  }

  /** The decorated key of a field with no decorated getter is not found. */
  lemma UndefinedDecoration(f: Field)
    requires !Decorated(f).Defined()
    ensures FromKey(Key(Decorated(f))) == None
  {
    DecoratedKey(f);
    NameInverse(f);
  }

  /** The getter a method name denotes, ignoring ASCII case: its lower-case
      form is "get" followed by a getter's key. */
  function Lookup(name: string): (r: Option<Accessor>)
    ensures r.Some? ==> r.value.Defined() && "get" + Key(r.value) == Lower(name)
  {
    var n := Lower(name);
    if |n| >= 3 && n[..3] == "get" then
      assert n == n[..3] + n[3..];
      FromKey(n[3..])
    else
      None
  }

  /** A method name whose lower-case form is "get" + a key is looked up by
      that key. */
  lemma LookupKey(name: string, k: string)
    requires Lower(name) == "get" + k
    ensures Lookup(name) == FromKey(k)
  {
    var n := Lower(name);
    assert n[..3] == "get" && n[3..] == k;
  }

  /** Every defined getter is found from a method name that lower-cases to
      "get" + its key. */
  lemma LookupComplete(name: string, a: Accessor)
    requires a.Defined() && "get" + Key(a) == Lower(name)
    ensures Lookup(name) == Some(a)
  {
    LookupKey(name, Key(a));
    FromKeyInverse(a);
  }

  /** The method name build derives from a key: "get" + ucfirst(key without
      underscores), with a trailing run of "!" replaced by "Decorated". */
  function MethodName(key: string): (name: string)
    ensures |name| >= 3 && name[..3] == "get"
  {
    var fn := "get" + UcFirst(Remove(key, '_'));
    if fn[|fn| - 1] == '!' then
      var stem := RTrim(fn, {'!'});
      assert |stem| >= 3 && stem[..3] == "get" by {
        RTrimPrefix(fn, {'!'});
        assert fn[2] == 't';
      }
      stem + "Decorated"
    else
      fn
  }

  /** Resolves one key of build to its getter, or fails naming the key and
      the method name it produced. */
  function Resolve(key: string): (r: Result<Accessor, Error>)
    ensures r.Success? ==> r.value.Defined()
    ensures r.Failure? ==> r.error == UnknownComponent(key, MethodName(key))
  {
    match Lookup(MethodName(key))
    case Some(a) => Success(a)
    case None => Failure(UnknownComponent(key, MethodName(key)))
  }

  /** A key resolves to the defined getter whose method name matches the
      one built from the key, ignoring case, and fails exactly when no
      defined getter matches. */
  lemma ResolveMatches(key: string)
    ensures Resolve(key).Success? ==> "get" + Key(Resolve(key).value) == Lower(MethodName(key))
    ensures Resolve(key).Failure? <==>
      forall a: Accessor :: a.Defined() ==> "get" + Key(a) != Lower(MethodName(key))
  {
    var m := MethodName(key);
    if Resolve(key).Failure? {
      forall a: Accessor | a.Defined() ensures "get" + Key(a) != Lower(m) {
        if "get" + Key(a) == Lower(m) {
          LookupComplete(m, a);
        }
      }
    }
  }

  /** A key made of lower-case ASCII letters only. */
  predicate PlainKey(k: string) {
    k != "" && forall i :: 0 <= i < |k| ==> 'a' <= k[i] <= 'z'
  }

  /** Every field name is made of lower-case letters. */
  lemma NameIsPlain(f: Field)
    ensures PlainKey(Name(f))
  {
  }

  /** Plain keys stay plain when joined. */
  lemma PlainJoin(a: string, b: string)
    requires PlainKey(a) && PlainKey(b)
    ensures PlainKey(a + b)
  {
    assert forall i :: 0 <= i < |a| ==> (a + b)[i] == a[i];
    assert forall i :: |a| <= i < |a| + |b| ==> (a + b)[i] == b[i - |a|];
  }

  /** Every getter's key is made of lower-case letters. */
  lemma KeyIsPlain(a: Accessor)
    ensures PlainKey(Key(a))
  {
    NameIsPlain(a.field);
    if a.Decorated? {
      assert PlainKey("decorated");
      PlainJoin(Name(a.field), "decorated");
    }
  }

  /** Underscores anywhere in a key are ignored. */
  lemma UnderscoreIgnored(a: string, b: string)
    ensures MethodName(a + "_" + b) == MethodName(a + b)
  {
    RemoveAppend(a + "_", b, '_');
    RemoveAppend(a, "_", '_');
    RemoveAppend(a, b, '_');
    assert Remove("_", '_') == [];
    assert Remove(a, '_') + [] == Remove(a, '_');
  }

  /** Lower-casing leaves a string without upper-case letters alone. */
  lemma LowerIdentity(s: string)
    requires forall i :: 0 <= i < |s| ==> !('A' <= s[i] <= 'Z')
    ensures Lower(s) == s
  {
    LowerAt(s);
  }

  /** ucfirst is undone by lower-casing on a plain key. */
  lemma LowerUcFirst(k: string)
    requires PlainKey(k)
    ensures Lower(UcFirst(k)) == k
  {
    var u := UcFirst(k);
    LowerAt(u);
    forall i | 0 <= i < |k| ensures Lower(u)[i] == k[i] {
      if i > 0 {
        assert u[i] == u[1..][i - 1] == k[i];
      }
    }
  }

  /** The method name of a key with no underscore and no trailing "!" is
      "get" + ucfirst of the key. */
  lemma UndecoratedMethodName(k: string)
    requires '_' !in k
    requires k == [] || k[|k| - 1] != '!'
    ensures MethodName(k) == "get" + UcFirst(k)
  {
    assert Remove(k, '_') == k;
    HeadNotBang(k);
  }

  /** "get" + ucfirst of a plain key lower-cases to "get" + the key. */
  lemma LowerGetUcFirst(k: string)
    requires PlainKey(k)
    ensures Lower("get" + UcFirst(k)) == "get" + k
  {
    LowerUcFirst(k);
    LowerAppend("get", UcFirst(k));
    LowerIdentity("get");
  }

  /** The method name of a plain key is "get" + the key with its first
      letter upper-cased, and lower-cases to "get" + the key. */
  lemma PlainMethodName(k: string)
    requires PlainKey(k)
    ensures MethodName(k) == "get" + UcFirst(k)
    ensures Lower(MethodName(k)) == "get" + k
  {
    assert '_' !in k && k[|k| - 1] != '!' by {
      assert forall i :: 0 <= i < |k| ==> k[i] != '_' && k[i] != '!';
    }
    UndecoratedMethodName(k);
    LowerGetUcFirst(k);
  }

  /** The head "get" + ucfirst(s) of a method name does not end in "!" when
      `s` does not. */
  lemma HeadNotBang(s: string)
    requires s == [] || s[|s| - 1] != '!'
    ensures var head := "get" + UcFirst(s); head[|head| - 1] != '!'
  {
    var u := UcFirst(s);
    if s != [] {
      if |u| == 1 { assert u[0] == UpperChar(s[0]); } else { assert u[|u| - 1] == s[|s| - 1]; }
      assert ("get" + u)[|"get" + u| - 1] == u[|u| - 1];
    }
  }

  /** Appending "!"s commutes with removing underscores and with ucfirst. */
  lemma BangsPassThrough(k: string, bangs: string)
    requires bangs != [] && AllIn(bangs, {'!'})
    ensures "get" + UcFirst(Remove(k + bangs, '_')) == "get" + UcFirst(Remove(k, '_')) + bangs
  {
    var s := Remove(k, '_');
    RemoveAppend(k, bangs, '_');
    assert '_' !in bangs;
    assert UcFirst(s + bangs) == UcFirst(s) + bangs by {
      if s == [] {
        assert s + bangs == bangs;
        assert bangs[0] == '!';
        assert UcFirst(bangs) == [bangs[0]] + bangs[1..] == bangs;
      } else {
        UcFirstAppend(s, bangs);
      }
    }
  }

  /** A key whose underscore-free form does not end in "!", followed by one
      or more "!", names the key's method with "Decorated" appended. */
  lemma BangMeansDecorated(k: string, bangs: string)
    requires bangs != [] && AllIn(bangs, {'!'})
    requires var s := Remove(k, '_'); s == [] || s[|s| - 1] != '!'
    ensures MethodName(k + bangs) == MethodName(k) + "Decorated"
  {
    var head := "get" + UcFirst(Remove(k, '_'));
    HeadNotBang(Remove(k, '_'));
    NoBangMethodName(k);
    BangsPassThrough(k, bangs);
    TrailingBangs(k + bangs, head, bangs);
  }

  /** A key whose underscore-free form does not end in "!" names
      "get" + ucfirst of that form. */
  lemma NoBangMethodName(k: string)
    requires var s := Remove(k, '_'); s == [] || s[|s| - 1] != '!'
    ensures MethodName(k) == "get" + UcFirst(Remove(k, '_'))
  {
    HeadNotBang(Remove(k, '_'));
  }

  /** A key whose "get" + ucfirst form is a head not ending in "!" followed
      by a run of "!" names the head's method with "Decorated" appended. */
  lemma TrailingBangs(key: string, head: string, bangs: string)
    requires bangs != [] && AllIn(bangs, {'!'})
    requires head != [] && head[|head| - 1] != '!'
    requires "get" + UcFirst(Remove(key, '_')) == head + bangs
    ensures MethodName(key) == head + "Decorated"
  {
    var fn := head + bangs;
    assert fn[|fn| - 1] == '!';
    RTrimAfter(head, bangs, {'!'});
  }

  /** The key of every defined getter resolves to it. */
  lemma ResolveKey(a: Accessor)
    requires a.Defined()
    ensures Resolve(Key(a)) == Success(a)
  {
    KeyIsPlain(a);
    PlainMethodName(Key(a));
    LookupComplete(MethodName(Key(a)), a);
  }

  /** "Decorated" lower-cases to "decorated". */
  lemma LowerDecorated()
    ensures Lower("Decorated") == "decorated"
  {
    var d := "Decorated";
    LowerAt(d);
    assert Lower(d)[0] == LowerChar('D') == 'd';
  }

  /** A plain key followed by "!"s has a method name that lower-cases to
      "get" + the key + "decorated". */
  lemma BangMethodName(k: string, bangs: string)
    requires PlainKey(k)
    requires bangs != [] && AllIn(bangs, {'!'})
    ensures Lower(MethodName(k + bangs)) == "get" + (k + "decorated")
  {
    var m := MethodName(k);
    assert m == "get" + UcFirst(k) && Lower(m) == "get" + k by {
      PlainMethodName(k);
    }
    assert MethodName(k + bangs) == m + "Decorated" by {
      assert Remove(k, '_') == k by {
        assert forall i :: 0 <= i < |k| ==> k[i] != '_';
      }
      BangMeansDecorated(k, bangs);
    }
    assert Lower(m + "Decorated") == Lower(m) + "decorated" by {
      LowerAppend(m, "Decorated");
      LowerDecorated();
    }
    Associative("get", k, "decorated");
  }

  /** Concatenation of strings is associative. */
  lemma Associative(a: string, b: string, c: string)
    ensures (a + b) + c == a + (b + c)
  {
  }

  /** A field's key followed by one or more "!" resolves to the decorated
      getter when the class defines it, and is an unknown component otherwise. */
  lemma ResolveBang(f: Field, bangs: string)
    requires bangs != [] && AllIn(bangs, {'!'})
    ensures Decorated(f).Defined() ==> Resolve(Name(f) + bangs) == Success(Decorated(f))
    ensures !Decorated(f).Defined() ==>
      Resolve(Name(f) + bangs) == Failure(UnknownComponent(Name(f) + bangs, MethodName(Name(f) + bangs)))
  {
    KeyIsPlain(Plain(f));
    BangMethodName(Name(f), bangs);
    LookupKey(MethodName(Name(f) + bangs), Key(Decorated(f)));
    if Decorated(f).Defined() {
      FromKeyInverse(Decorated(f));
    } else {
      UndefinedDecoration(f);
    }
  }

  /** "base" resolves to getBase. */
  lemma ResolveBase()
    ensures Resolve("base") == Success(Plain(Base))
  {
    assert Key(Plain(Base)) == "base";
    ResolveKey(Plain(Base));
  }

  /** "next" resolves to getNext. */
  lemma ResolveNext()
    ensures Resolve("next") == Success(Plain(Next))
  {
    assert Key(Plain(Next)) == "next";
    ResolveKey(Plain(Next));
  }

  /** "tail!" resolves to getTailDecorated. */
  lemma ResolveTailBang()
    ensures Resolve("tail!") == Success(Decorated(Tail))
  {
    assert Name(Tail) + "!" == "tail!";
    ResolveBang(Tail, "!");
  }
}
