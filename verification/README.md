# LinkWrapper URL composition, modelled in Dafny

`Scraper\LinkWrapper` wraps a Symfony DomCrawler `Link`. It takes the link's
`href` apart with PHP's `parse_url` and completes it from a fixed default
record: scheme `http`, host `example.com`, path `/`, and every other field
empty. It trims every field and caches the record in the instance. It then
serves the record through getters:

- raw getters: `getScheme`, `getUser`, `getHost`, …;
- `getAuth`, which throws on a password without a user;
- "decorated" getters, which add URL punctuation or collapse to `""`;
- composites: `getBase`, `getTail`, `getNext`;
- `build('scheme!', 'host', …)`, which turns each key into a getter name
  and concatenates the getters' results.

The model is functional, one module per concern:

| file | module | what it holds |
|---|---|---|
| `wrappers.dfy` | `Wrappers`, `Errors` | `Option`, `Result`; the three errors the class raises |
| `php_string.dfy` | `PhpString` | `trim`/`ltrim`/`rtrim` with a character list, PHP truthiness, ASCII case mapping, `ucfirst`, `str_replace` of one character, the `stripos(...) === 0` prefix test |
| `url.dfy` | `Url` | `parse_url`'s answer as an input, the eight-field record, the default merge and trim |
| `decorate.dfy` | `Decorate` | the decorated getters of single fields |
| `compose.dfy` | `Compose` | `getAuth`, `getBase`, `getBaseDecorated`, `getTail`, `getTailDecorated`, `getNext` |
| `dispatch.dfy` | `Dispatch` | how `build` turns a key into a method name and a getter |
| `link_wrapper.dfy` | `LinkWrapper` | the instance (link plus memo field), `getParsed`, `setLink`, getter calls and `build` |
| `examples_concrete.dfy` | `Examples` | worked examples on concrete hrefs |

The instance is the value `Wrapper(link, cache)`. Every operation that may
parse returns the new instance together with its result. `parse_url` is a
parameter `ParseUrl = string -> ParseUrlAnswer`. Its answer is either the
components it found (each an `Option<string>`) or `Unparseable` (PHP's
`false`). Exceptions are `Result` failures: `InvalidAuth` for the
`LogicException` of `getAuth`, `UnknownComponent(key, methodName)` for the
`BadMethodCallException` of `build`, and `UrlParseError(href)` for an href
`parse_url` rejects.

## Model

| member | source | states |
|---|---|---|
| `PhpString.Trim` | LinkWrapper.php:82 | trim leaves no character of the list at either end; it leaves `""` exactly when every character is in the list; it leaves an already trimmed string alone |
| `PhpString.TrimInside` | LinkWrapper.php:82 | what trim keeps is a contiguous piece of the input with only list characters cut from around it |
| `PhpString.LTrimSuffix` | LinkWrapper.php:190 | ltrim keeps a suffix of its input and removes only list characters |
| `PhpString.RTrimPrefix` | LinkWrapper.php:243 | rtrim keeps a prefix of its input and removes only list characters |
| `PhpString.RTrimAfter` | LinkWrapper.php:243 | rtrim removes exactly a trailing run of list characters that follows a part ending outside the list |
| `PhpString.LTrimBefore` | LinkWrapper.php:242 | ltrim removes exactly a leading run of list characters in front of a part starting outside the list |
| `PhpString.LTrimIdempotent` | LinkWrapper.php:301 | ltrim applied twice is ltrim applied once |
| `PhpString.UcFirst` | LinkWrapper.php:269 | ucfirst keeps the length and every character after the first, changes the first only in case, upper-cases a lower-case first letter and leaves any other first character as it is |
| `PhpString.UcFirstAppend` | LinkWrapper.php:269 | ucfirst of a concatenation with a non-empty left part touches only that part |
| `PhpString.Remove` | LinkWrapper.php:269 | `str_replace('_', '', s)` leaves no underscore and removes nothing else: the result is shorter than the input by exactly the number of underscores in it, and is the input itself when there are none |
| `PhpString.RemoveAppend` | LinkWrapper.php:269 | removing underscores distributes over concatenation |
| `PhpString.LTrim` | LinkWrapper.php:190 | ltrim never lengthens its input and leaves no list character at the front |
| `PhpString.RTrim` | LinkWrapper.php:172 | rtrim never lengthens its input and leaves no list character at the end |
| `PhpString.Truthy` | LinkWrapper.php:96-102 | only `""` and `"0"` are falsy: a truthy string is non-empty, every string of two or more characters (`"00"` included) is truthy, and a one-character string is truthy exactly when it is not `0` |
| `PhpString.Lower` | LinkWrapper.php:141 | ASCII lower-casing keeps the length |
| `PhpString.LowerAt` | LinkWrapper.php:141 | each character of the lower-cased string is the corresponding character lower-cased |
| `PhpString.StartsWithCI` | LinkWrapper.php:141 | `stripos(s, prefix) === 0` needs the prefix to be no longer than `s`, and holds for the empty prefix |
| `PhpString.StartsWithCIChars` | LinkWrapper.php:141 | `stripos(s, prefix) === 0` holds exactly when `s` is long enough and its first characters equal the prefix's up to ASCII case |
| `PhpString.LowerEqual` | LinkWrapper.php:141 | two strings lower-case alike exactly when they agree letter by letter up to ASCII case |
| `PhpString.LowerAppend` | LinkWrapper.php:141 | lower-casing distributes over concatenation |
| `Url.Field` | LinkWrapper.php:81-82 | a field of the merge is trimmed, is its default when `parse_url` reported nothing, and is the reported value when that was already trimmed |
| `Url.Merge` | LinkWrapper.php:71-82 | the merged record has every field trimmed; an absent component takes its default (`http`, `""`, `""`, `example.com`, `""`, `/`, `""`, `""`); a reported trimmed component is kept as is |
| `Url.FieldTrims` | LinkWrapper.php:82 | a reported component reaches the record as itself with whitespace cut from its ends only |
| `Url.MergeKeepsContent` | LinkWrapper.php:81-82 | every reported component reaches the record with only PHP whitespace cut from its ends |
| `Url.MergeIdempotent` | LinkWrapper.php:81-82 | merging a merged record, every field reported, gives it back unchanged |
| `Url.Parse` | LinkWrapper.php:81 | parsing fails exactly when `parse_url` answers `false`, with the href in the error; success gives a trimmed record, the defaults when nothing was found |
| `LinkWrapper.New` | LinkWrapper.php:37-40 | a new instance holds the given link and no parsed record, so it meets the invariant that every cached field is trimmed |
| `LinkWrapper.NewParses` | LinkWrapper.php:37-40 | the first getParsed on a new instance parses the link's href |
| `LinkWrapper.SetLink` | LinkWrapper.php:55-58 | setLink replaces the link and keeps the cached record, whatever it is, and with it the trimmed-cache invariant |
| `LinkWrapper.GetParsed` | LinkWrapper.php:64-84 | a cached record is returned as is with the instance unchanged; otherwise the href is parsed and a successful parse is cached; a failed parse leaves the instance alone; the link is never changed; on an instance whose cache holds only trimmed records (as `New`, `SetLink`, getter calls and build keep it) every record returned has all eight fields trimmed, and the invariant is kept |
| `LinkWrapper.GetParsedStable` | LinkWrapper.php:66-69 | asking again returns the same record and leaves the instance as it was |
| `LinkWrapper.CacheSurvivesSetLink` | LinkWrapper.php:55-58 | after a successful parse, setLink keeps the cached record, so getParsed still answers for the old href |
| `LinkWrapper.Read` | LinkWrapper.php:91-100 | a getter on the parsed record fails exactly when it is getAuth, getBase, getBaseDecorated or getNext and the auth check fails, and then with the auth error |
| `LinkWrapper.ReadPlain` | LinkWrapper.php:91-100 | of the undecorated record getters, only getAuth, getBase and getNext can fail, exactly when the auth check fails and with its error; getBase and getNext give the composed base and next URL |
| `LinkWrapper.ReadDecorated` | LinkWrapper.php:250-254 | of the decorated getters only getBaseDecorated can fail, exactly when the auth check fails and with its error; getTailDecorated gives the composed decorated tail |
| `LinkWrapper.Call` | LinkWrapper.php:277-281 | calling a getter leaves the link alone; a pass-through getter leaves the instance alone; a record getter parses (or uses the cache) first and fails only with a parse or auth error; the trimmed-cache invariant is kept |
| `LinkWrapper.Step` | LinkWrapper.php:269-290 | one key of build fails with `UnknownComponent(key, methodName)`, the instance untouched, exactly when it resolves to no getter; with a cached record the instance is unchanged; the trimmed-cache invariant is kept |
| `LinkWrapper.Join` | LinkWrapper.php:292 | joining two results succeeds exactly when both succeed, concatenating them; otherwise the first error wins |
| `LinkWrapper.Build` | LinkWrapper.php:263-293 | build keeps the link, and build of no keys is `""` with the instance unchanged |
| `LinkWrapper.BuildValid` | LinkWrapper.php:83 | build keeps the invariant that every cached field is trimmed |
| `LinkWrapper.BuildKeepsCache` | LinkWrapper.php:64-69 | once a record is cached, build leaves the instance as it found it |
| `LinkWrapper.StepKeepsParse` | LinkWrapper.php:64-69 | one key of build leaves getParsed's answer as it found it |
| `LinkWrapper.StepSameParse` | LinkWrapper.php:277-281 | one key of build depends on the instance only through its link and getParsed's answer |
| `LinkWrapper.BuildKeepsParse` | LinkWrapper.php:64-69 | build leaves getParsed's answer as it found it, whether it parsed or not |
| `LinkWrapper.BuildSameParse` | LinkWrapper.php:263-293 | two instances with the same link and the same answer from getParsed build the same result: whether the record was already cached does not show |
| `LinkWrapper.BuildKnownKeys` | LinkWrapper.php:277-290 | a build that succeeds was given only keys that name a getter |
| `LinkWrapper.BuildUnknownKey` | LinkWrapper.php:284-289 | an unknown-component error names one of the given keys, a key that resolves to no getter, together with the method name built from it |
| `LinkWrapper.BuildAppend` | LinkWrapper.php:267-292 | build of `a + b` is build of `a`, then build of `b` on the instance it left, the results joined; a failure in `a` is the whole result |
| `LinkWrapper.JoinAssociative` | LinkWrapper.php:292 | concatenating results is associative, and a failure after a success is passed on |
| `LinkWrapper.BuildConcat` | LinkWrapper.php:263-293 | on every instance, cached or not, `build(a + b)` is `build(a)` joined with `build(b)`, each on that instance |
| `LinkWrapper.BuildOne` | LinkWrapper.php:267-292 | build of one key is that key's getter call, result and instance alike |
| `LinkWrapper.BuildTwo` | LinkWrapper.php:267-292 | build of two keys is the first key's step and, if that succeeds, the second key's step on the instance it left |
| `LinkWrapper.BuildTwoReads` | LinkWrapper.php:267-292 | with a record parsed, build of two keys naming record getters joins the two getters' values on that record |
| `LinkWrapper.CallAfterCall` | LinkWrapper.php:64-69 | a getter called after another one that succeeded reads the record the first one parsed or found |
| `LinkWrapper.HostDecoratedIsHostAndPort` | LinkWrapper.php:198-201 | getHostDecorated and getHostAndPort give the same result and the same instance |
| `LinkWrapper.BaseThenTailParsed` | LinkWrapper.php:343-348 | with a record parsed, `build('base', 'tail!')` is getNext's value on that record |
| `LinkWrapper.BuildTwoState` | LinkWrapper.php:64-69 | with a record parsed, build of two keys naming record getters leaves the instance getParsed left |
| `LinkWrapper.NextIsJoin` | LinkWrapper.php:343-348 | getNext is getBase joined with getTailDecorated: the base's failure, or the two concatenated |
| `LinkWrapper.BaseThenTailKeys` | LinkWrapper.php:343-348 | with a record parsed, any two keys that resolve to getBase and getTailDecorated build getNext's value on that record |
| `LinkWrapper.NextIsBaseThenTail` | LinkWrapper.php:343-348 | `build('base', 'tail!')` and `build('next')` agree on every instance, result and state alike |
| `Compose.Auth` | LinkWrapper.php:91-105 | getAuth fails exactly when the password is PHP-truthy and the user is not (`""` and `"0"` are empty); otherwise it is the user when the password is empty, else `user:pass` with colons trimmed off both ends |
| `Compose.SplitCredentials` | LinkWrapper.php:104 | splitting at the first colon gives a colon-free user, and a colon-free string is all user |
| `Compose.SplitJoin` | LinkWrapper.php:104 | splitting `user:pass` at its first colon gives back a colon-free user and the password |
| `Compose.AuthRoundTrip` | LinkWrapper.php:102-104 | for a colon-free user and a password not ending in a colon, getAuth is `user:pass` and splitting it gives both back |
| `Compose.Base` | LinkWrapper.php:236-244 | getBase fails exactly as getAuth does; it never ends in `/`; when it is longer than the decorated scheme it starts with that scheme and has no `@` right after it (it can be shorter: with no authority, `rtrim` eats the scheme's `//`, see `Examples.EmptyAuthorityBase`) |
| `Compose.AuthorityTrim` | LinkWrapper.php:241-242 | trimming `@` off `auth@hostport` drops the `@` exactly when the auth is empty |
| `Compose.AssembleBase` | LinkWrapper.php:241-243 | for parts with no stray `@` or trailing `/`, getBase's assembly trims nothing but the `@` of an empty auth |
| `Compose.BaseShape` | LinkWrapper.php:236-244 | for such parts getBase is the decorated scheme, `auth@` when there is an auth, then host and port |
| `Compose.BaseDecorated` | LinkWrapper.php:250-254 | getBaseDecorated fails as getBase does; it is `""` exactly when the base is, and otherwise the base followed by exactly one `/` |
| `Compose.Tail` | LinkWrapper.php:319-325 | getTail starts with the raw path and continues, if at all, with `?` and the query |
| `Compose.TailDecorated` | LinkWrapper.php:331-337 | getTailDecorated is the decorated path and query; it is `""` exactly when the path has more than slashes and the query only `?`s |
| `Compose.Next` | LinkWrapper.php:343-348 | getNext fails as getAuth does; otherwise it is the base followed by the decorated tail |
| `Decorate.Scheme` | LinkWrapper.php:138-144 | the decorated scheme is `""` exactly for the empty scheme; it is `scheme:` when the scheme starts with `mailto` in any case, else `scheme://` |
| `Decorate.Port` | LinkWrapper.php:169-173 | the decorated port is `""` exactly when the port is only colons; otherwise it is `:` and the port with trailing colons removed, never ending in `:` |
| `Decorate.PortInverse` | LinkWrapper.php:172 | dropping the leading `:` of a decorated port gives back a port without trailing colon |
| `Decorate.Path` | LinkWrapper.php:188-192 | the decorated path is `/` exactly when the path is only slashes (the empty path included), and `""` otherwise |
| `Decorate.Query` | LinkWrapper.php:299-303 | the decorated query is `""` exactly when the query is only `?`s; otherwise it is `?` and the query without its leading `?`s |
| `Decorate.QueryIdempotent` | LinkWrapper.php:301 | decorating a decorated query changes nothing |
| `Decorate.Fragment` | LinkWrapper.php:309-313 | the decorated fragment is always `""` |
| `Decorate.HostAndPort` | LinkWrapper.php:225-230 | getHostAndPort starts with the host; it is the host alone for a port of colons only, else `host:port` for a port without trailing colon |
| `Dispatch.FromName` | LinkWrapper.php:277-281 | a name found in the getter table is the name of the field found |
| `Dispatch.NameInverse` | LinkWrapper.php:277-281 | every field is found from its own name |
| `Dispatch.FromKey` | LinkWrapper.php:277-281 | a key found in the table is the key of a getter the class defines |
| `Dispatch.FromKeyInverse` | LinkWrapper.php:277-281 | every getter the class defines is found from its key |
| `Dispatch.FromKeyNone` | LinkWrapper.php:277 | a key is not found exactly when no defined getter has it |
| `Dispatch.UndefinedDecoration` | LinkWrapper.php:277 | the decorated key of a field the class has no decorated getter for is not found |
| `Dispatch.Lookup` | LinkWrapper.php:277 | a method name is looked up ignoring ASCII case: what it finds is a defined getter whose lower-case name is the method name lower-cased |
| `Dispatch.LookupComplete` | LinkWrapper.php:277 | every defined getter is found from any method name that matches it ignoring case |
| `Dispatch.MethodName` | LinkWrapper.php:269-275 | the method name build derives from a key always starts with `get` |
| `Dispatch.Resolve` | LinkWrapper.php:269-290 | a key resolves to a defined getter or fails naming the key and its method name |
| `Dispatch.ResolveMatches` | LinkWrapper.php:269-290 | a key resolves to the getter whose name matches its method name ignoring case, and fails exactly when no defined getter matches |
| `Dispatch.UnderscoreIgnored` | LinkWrapper.php:269 | an underscore anywhere in a key does not change its method name |
| `Dispatch.PlainMethodName` | LinkWrapper.php:269 | a lower-case key names `get` + ucfirst(key), which lower-cases to `get` + key |
| `Dispatch.BangMeansDecorated` | LinkWrapper.php:272-275 | a key followed by one or more `!` names the key's method with `Decorated` appended |
| `Dispatch.NoBangMethodName` | LinkWrapper.php:269-275 | a key whose underscore-free form does not end in `!` names `get` + ucfirst of that form |
| `Dispatch.TrailingBangs` | LinkWrapper.php:272-275 | when `get` + ucfirst of a key is a head not ending in `!` followed by `!`s, the method name is the head + `Decorated` |
| `Dispatch.ResolveKey` | LinkWrapper.php:269-281 | every defined getter's key resolves to that getter |
| `Dispatch.ResolveBang` | LinkWrapper.php:272-281 | a field's name followed by `!`s resolves to its decorated getter when the class defines one, and is an unknown component otherwise |
| `Examples.EmptyHrefRecord` | LinkWrapper.php:71-82 | the empty href, whose path `parse_url` reports as `""`, keeps that empty path and takes every other field from the defaults |
| `Examples.EmptyHrefNext` | LinkWrapper.php:343-348 | the empty href's next URL is `http://example.com/` |
| `Examples.EmptyAuthorityBase` | LinkWrapper.php:236-244 | with scheme `http` and no user, password, host or port, getBase is `http:`, the `//` trimmed away with the trailing slashes |
| `Examples.SecureRecord` | LinkWrapper.php:71-82 | `https://example.org/x` keeps its scheme, host and path |
| `Examples.BuildSchemeHost` | LinkWrapper.php:259-260 | on a new instance whose href `parse_url` splits as `https://example.org/x`, `build('scheme!', 'host')` is `https://example.org` |
| `Examples.RelativeRecord` | LinkWrapper.php:71-82 | `/a/b?x=1` takes the default scheme and host |
| `Examples.BuildPathQuery` | LinkWrapper.php:188-192 | on a new instance whose href `parse_url` splits as `/a/b?x=1`, `build('path!', 'query!')` is `?x=1`, the decorated path being `""` |
| `Examples.BuildUnknown` | LinkWrapper.php:284-289 | `build('unknownkey')` fails naming the key and the method `getUnknownkey` |

## Where the code differs from its evident intent

The model follows the code as written in each of these cases.

- `getPathDecorated` (LinkWrapper.php:190-191) returns `/` when the path is
  only slashes and `""` for every other path. The intent was the path with
  exactly one leading slash, collapsing to `""` only for the bare root. As
  written, `getTailDecorated` and `getNext` drop every path but the root.
- `getFragmentDecorated` (LinkWrapper.php:311) formats `'#'`, a format string
  with no placeholder. The result is always `#`, which collapses to `""`, so
  no fragment ever reaches a composite.
- The `mailto` test (LinkWrapper.php:141) is a case-insensitive prefix test,
  not an equality test: a scheme `mailtox` also gets `:`.
- `setLink` (LinkWrapper.php:55-58) does not clear the cached record, so
  every getter keeps answering for the first href parsed. The intent was
  that replacing the link invalidates the cache.
- `getBase` (LinkWrapper.php:243) removes every trailing `/`, not just one.
- PHP `empty()` and truthiness treat `"0"` as empty (LinkWrapper.php:96,
  102): a user `"0"` with a password is an error, and a password `"0"` is
  dropped.
- An href `parse_url` rejects makes `array_merge` fail before the record is
  cached (LinkWrapper.php:81-83). The model returns `UrlParseError(href)`
  and leaves the instance uncached.

## Left out

- `parse_url` is a PHP builtin whose grammar is not part of this model: its
  answer is an input to every operation that parses.
- `getLink`, `getNode` and `getAttributes` return objects (the Symfony
  `Link`, a `DOMElement`, an `ArrayObject`) and are not modelled. For the
  same reason `build` treats their keys, and `parsed`, as unknown.
- `getHref` reads the DOM node's `href` attribute, or `""` when it has none.
  The model takes that value as the `href` field of `Link`. `getUri` and
  `getRequestUri` answer the `uri` field, which stands for Symfony's
  `Link::getUri`.
- `build`'s error message, built with `sprintf`, `htmlentities` and the class
  and method names, is reduced to the key and the method name it produced.
- `is_callable` and `call_user_func_array` are modelled as a closed,
  case-insensitive table of the class's string-valued getters.
- `parse_url` reports the port as an integer; the model treats the port as a
  string throughout, as `getPortDecorated`'s `(string)` cast does.
- `LinkWrapper.Build`: its own contract states only the empty case and that
  the link is kept. Its meaning is stated by `BuildOne`, `BuildAppend`,
  `BuildConcat`, `BuildSameParse`, `BuildKnownKeys` and `BuildUnknownKey`.
- `Dispatch.MethodName`: its contract states only the `get` prefix. What it
  builds is stated by `PlainMethodName`, `UnderscoreIgnored` and
  `BangMeansDecorated`.
- The model follows PHP 8.2 or later. On PHP 8, `array_merge` with `false`
  (an href `parse_url` rejects, LinkWrapper.php:81) throws a `TypeError`,
  which the model renders as `UrlParseError`. PHP 7 only warns there:
  `array_merge` and then `array_map` return `null`, nothing is cached, and
  the getters read fields of `null`. That path is not modelled.
- Case folding is ASCII-only throughout. For `ucfirst` and the case folding
  in `stripos` this is PHP 8.2 behaviour; before 8.2 they folded case by the
  locale, which is not modelled. `is_callable`'s case-insensitive method
  lookup has been ASCII-only since PHP 5.5.
- PHP strings are byte strings; the model's strings are sequences of
  characters. Every operation here compares, trims and case-maps one unit at
  a time, so the model matches PHP on single-byte (ASCII) input and does not
  model multi-byte characters.
