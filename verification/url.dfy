/** The parsed form of a link's href: the answer of PHP's parse_url merged
    over a fixed record of defaults, every field trimmed (LinkWrapper::getParsed). */
module Url {
  import opened Wrappers
  import opened Errors
  import opened PhpString

  /** The components parse_url reported for an href; a component it did not
      report is `None`. The port is carried as its string form. */
  datatype Components = Components(
    scheme: Option<string>,
    user: Option<string>,
    pass: Option<string>,
    host: Option<string>,
    port: Option<string>,
    path: Option<string>,
    query: Option<string>,
    fragment: Option<string>)

  /** What parse_url answered: an array of components, or `false`. */
  datatype ParseUrlAnswer = Found(parts: Components) | Unparseable

  /** The normalised eight-field record every accessor reads from. */
  datatype Parsed = Parsed(
    scheme: string,
    user: string,
    pass: string,
    host: string,
    port: string,
    path: string,
    query: string,
    fragment: string)

  /** The record parse_url's answer is merged over. */
  const Defaults: Parsed := Parsed("http", "", "", "example.com", "", "/", "", "")

  /** No field starts or ends with PHP whitespace. */
  predicate WellTrimmed(p: Parsed) {
    && TrimmedBy(p.scheme, Whitespace)
    && TrimmedBy(p.user, Whitespace)
    && TrimmedBy(p.pass, Whitespace)
    && TrimmedBy(p.host, Whitespace)
    && TrimmedBy(p.port, Whitespace)
    && TrimmedBy(p.path, Whitespace)
    && TrimmedBy(p.query, Whitespace)
    && TrimmedBy(p.fragment, Whitespace)
  }

  /** One field of the merge: the reported value if any, else the default,
      then trimmed. */
  function Field(reported: Option<string>, default: string): (r: string)
    ensures TrimmedBy(r, Whitespace)
    ensures reported.None? && TrimmedBy(default, Whitespace) ==> r == default
    ensures reported.Some? && TrimmedBy(reported.value, Whitespace) ==> r == reported.value
  {
    Trim(reported.GetOr(default), Whitespace)
  }

  /** array_map('trim', array_merge($defaults, $parts)). */
  function Merge(c: Components): (p: Parsed)
    ensures WellTrimmed(p)
    ensures c.scheme.None? ==> p.scheme == "http"
    ensures c.user.None? ==> p.user == ""
    ensures c.pass.None? ==> p.pass == ""
    ensures c.host.None? ==> p.host == "example.com"
    ensures c.port.None? ==> p.port == ""
    ensures c.path.None? ==> p.path == "/"
    ensures c.query.None? ==> p.query == ""
    ensures c.fragment.None? ==> p.fragment == ""
    ensures c.scheme.Some? && TrimmedBy(c.scheme.value, Whitespace) ==> p.scheme == c.scheme.value
    ensures c.user.Some? && TrimmedBy(c.user.value, Whitespace) ==> p.user == c.user.value
    ensures c.pass.Some? && TrimmedBy(c.pass.value, Whitespace) ==> p.pass == c.pass.value
    ensures c.host.Some? && TrimmedBy(c.host.value, Whitespace) ==> p.host == c.host.value
    ensures c.port.Some? && TrimmedBy(c.port.value, Whitespace) ==> p.port == c.port.value
    ensures c.path.Some? && TrimmedBy(c.path.value, Whitespace) ==> p.path == c.path.value
    ensures c.query.Some? && TrimmedBy(c.query.value, Whitespace) ==> p.query == c.query.value
    ensures c.fragment.Some? && TrimmedBy(c.fragment.value, Whitespace) ==> p.fragment == c.fragment.value
  {
    assert WellTrimmed(Defaults);
    Parsed(
      Field(c.scheme, Defaults.scheme),
      Field(c.user, Defaults.user),
      Field(c.pass, Defaults.pass),
      Field(c.host, Defaults.host),
      Field(c.port, Defaults.port),
      Field(c.path, Defaults.path),
      Field(c.query, Defaults.query),
      Field(c.fragment, Defaults.fragment))
  }

  /** The uncached part of getParsed: merge parse_url's answer for `href`
      over the defaults, or fail when parse_url answered `false`. */
  function Parse(href: string, answer: ParseUrlAnswer): (r: Result<Parsed, Error>)
    ensures r.Failure? <==> answer.Unparseable?
    ensures r.Failure? ==> r.error == UrlParseError(href)
    ensures r.Success? ==> WellTrimmed(r.value)
    ensures answer == Found(Components(None, None, None, None, None, None, None, None)) ==>
              r == Success(Defaults)
  {
    match answer
    case Unparseable => Failure(UrlParseError(href))
    case Found(c) => Success(Merge(c))
  }

  /** `r` is `v` with a run of PHP whitespace cut from each end and none
      left at either end of `r`. */
  ghost predicate TrimOf(v: string, r: string) {
    TrimmedBy(r, Whitespace) && exists i :: PaddedBy(v, r, Whitespace, i)
  }

  /** A reported component is kept up to the whitespace at its ends. */
  lemma FieldTrims(reported: Option<string>, default: string)
    requires reported.Some?
    ensures TrimOf(reported.value, Field(reported, default))
  {
    TrimInside(reported.value, Whitespace);
  }

  /** Every component parse_url reported reaches the record trimmed, and
      nothing else of it is changed. */
  lemma MergeKeepsContent(c: Components)
    ensures var p := Merge(c);
      && (c.scheme.Some? ==> TrimOf(c.scheme.value, p.scheme))
      && (c.user.Some? ==> TrimOf(c.user.value, p.user))
      && (c.pass.Some? ==> TrimOf(c.pass.value, p.pass))
      && (c.host.Some? ==> TrimOf(c.host.value, p.host))
      && (c.port.Some? ==> TrimOf(c.port.value, p.port))
      && (c.path.Some? ==> TrimOf(c.path.value, p.path))
      && (c.query.Some? ==> TrimOf(c.query.value, p.query))
      && (c.fragment.Some? ==> TrimOf(c.fragment.value, p.fragment))
  {
    if c.scheme.Some? { FieldTrims(c.scheme, Defaults.scheme); }
    if c.user.Some? { FieldTrims(c.user, Defaults.user); }
    if c.pass.Some? { FieldTrims(c.pass, Defaults.pass); }
    if c.host.Some? { FieldTrims(c.host, Defaults.host); }
    if c.port.Some? { FieldTrims(c.port, Defaults.port); }
    if c.path.Some? { FieldTrims(c.path, Defaults.path); }
    if c.query.Some? { FieldTrims(c.query, Defaults.query); }
    if c.fragment.Some? { FieldTrims(c.fragment, Defaults.fragment); }
  }

  /** Merging is a normal form: merging a record that is already merged
      (every field reported) gives it back unchanged. */
  lemma MergeIdempotent(c: Components)
    ensures var p := Merge(c);
      Merge(Components(Some(p.scheme), Some(p.user), Some(p.pass), Some(p.host),
                       Some(p.port), Some(p.path), Some(p.query), Some(p.fragment))) == p
  {
  }
}
