/** The PHP string builtins the link wrapper relies on, over `seq<char>`:
    trim/ltrim/rtrim with a character list, truthiness, ASCII case mapping,
    ucfirst, str_replace of one character and a case-insensitive prefix test. */
module PhpString {

  /** The characters PHP's trim() removes when no list is given: space, tab,
      line feed, carriage return, NUL and vertical tab. */
  const Whitespace: set<char> := {' ', '\t', '\n', '\r', '\0', '\U{B}'}

  /** Every character of `s` is in `cs` (vacuously true of ""). */
  predicate AllIn(s: string, cs: set<char>) {
    forall i :: 0 <= i < |s| ==> s[i] in cs
  }

  /** `s` neither starts nor ends with a character of `cs`. */
  predicate TrimmedBy(s: string, cs: set<char>) {
    s == [] || (s[0] !in cs && s[|s| - 1] !in cs)
  }

  /** `r` sits at offset `i` of `s` and everything around it is in `cs`. */
  ghost predicate PaddedBy(s: string, r: string, cs: set<char>, i: int) {
    && 0 <= i && i + |r| <= |s|
    && s[i..i + |r|] == r
    && (forall k :: 0 <= k < i ==> s[k] in cs)
    && (forall k :: i + |r| <= k < |s| ==> s[k] in cs)
  }

  /** PHP ltrim($s, $cs): what is left does not start with a character of
      `cs` (LTrimSuffix says what was removed). */
  function LTrim(s: string, cs: set<char>): (r: string)
    ensures |r| <= |s|
    ensures r == [] || r[0] !in cs
    decreases |s|
  {
    if s != [] && s[0] in cs then LTrim(s[1..], cs) else s
  }

  /** PHP rtrim($s, $cs): what is left does not end with a character of
      `cs` (RTrimPrefix says what was removed). */
  function RTrim(s: string, cs: set<char>): (r: string)
    ensures |r| <= |s|
    ensures r == [] || r[|r| - 1] !in cs
    decreases |s|
  {
    if s != [] && s[|s| - 1] in cs then RTrim(s[..|s| - 1], cs) else s
  }

  /** ltrim keeps a suffix of `s` and removes only characters of `cs`. */
  lemma {:induction false} LTrimSuffix(s: string, cs: set<char>)
    ensures var r := LTrim(s, cs);
      && r == s[|s| - |r|..]
      && forall k :: 0 <= k < |s| - |r| ==> s[k] in cs
    decreases |s|
  {
    if s != [] && s[0] in cs {
      LTrimSuffix(s[1..], cs);
      var r := LTrim(s, cs);
      assert s[1..][|s| - 1 - |r|..] == s[|s| - |r|..];
      forall k | 1 <= k < |s| - |r| ensures s[k] in cs {
        assert s[k] == s[1..][k - 1];
      }
    }
  }

  /** rtrim keeps a prefix of `s` and removes only characters of `cs`. */
  lemma {:induction false} RTrimPrefix(s: string, cs: set<char>)
    ensures var r := RTrim(s, cs);
      && r == s[..|r|]
      && forall k :: |r| <= k < |s| ==> s[k] in cs
    decreases |s|
  {
    if s != [] && s[|s| - 1] in cs {
      var s' := s[..|s| - 1];
      RTrimPrefix(s', cs);
      var r := RTrim(s, cs);
      assert s'[..|r|] == s[..|r|];
      forall k | |r| <= k < |s| - 1 ensures s[k] in cs {
        assert s[k] == s'[k];
      }
    }
  }

  /** ltrim leaves nothing exactly when every character is in `cs`. */
  lemma LTrimEmpty(s: string, cs: set<char>)
    ensures LTrim(s, cs) == [] <==> AllIn(s, cs)
  {
    LTrimSuffix(s, cs);
  }

  /** rtrim leaves nothing exactly when every character is in `cs`. */
  lemma RTrimEmpty(s: string, cs: set<char>)
    ensures RTrim(s, cs) == [] <==> AllIn(s, cs)
  {
    RTrimPrefix(s, cs);
  }

  /** PHP trim($s, $cs): the characters of `cs` are removed from both ends. */
  function Trim(s: string, cs: set<char>): (r: string)
    ensures TrimmedBy(r, cs)
    ensures r == [] <==> AllIn(s, cs)
    ensures TrimmedBy(s, cs) ==> r == s
  {
    TrimBothEnds(s, cs);
    RTrimPrefix(LTrim(s, cs), cs);
    RTrim(LTrim(s, cs), cs)
  }

  /** What trim keeps is a piece of `s` with only characters of `cs`
      around it. */
  lemma TrimInside(s: string, cs: set<char>)
    ensures exists i :: PaddedBy(s, Trim(s, cs), cs, i)
  {
    TrimBothEnds(s, cs);
    assert PaddedBy(s, Trim(s, cs), cs, |s| - |LTrim(s, cs)|);
  }

  /** Trimming the left, then the right, removes a run of `cs` from each end
      and nothing else. */
  lemma TrimBothEnds(s: string, cs: set<char>)
    ensures var r := RTrim(LTrim(s, cs), cs);
      && PaddedBy(s, r, cs, |s| - |LTrim(s, cs)|)
      && (r == [] <==> AllIn(s, cs))
  {
    TrimPadded(s, cs);
    TrimEmpty(s, cs);
  }

  /** What trim keeps sits inside `s` with only `cs` around it. */
  lemma TrimPadded(s: string, cs: set<char>)
    ensures PaddedBy(s, RTrim(LTrim(s, cs), cs), cs, |s| - |LTrim(s, cs)|)
  {
    var l := LTrim(s, cs);
    var r := RTrim(l, cs);
    var i := |s| - |l|;
    LTrimSuffix(s, cs);
    RTrimPrefix(l, cs);
    assert s[i..][..|r|] == s[i..i + |r|];
    forall k | i + |r| <= k < |s| ensures s[k] in cs {
      assert s[k] == l[k - i];
    }
  }

  /** trim leaves nothing exactly when every character is in `cs`. */
  lemma TrimEmpty(s: string, cs: set<char>)
    ensures RTrim(LTrim(s, cs), cs) == [] <==> AllIn(s, cs)
  {
    var l := LTrim(s, cs);
    LTrimSuffix(s, cs);
    RTrimPrefix(l, cs);
    if RTrim(l, cs) == [] {
      assert l == [];
    }
  }

  /** rtrim leaves a prefix alone and strips only the trailing run of `cs`
      that follows it, provided the prefix itself ends outside `cs`. */
  lemma {:induction false} RTrimAfter(s: string, t: string, cs: set<char>)
    requires s == [] || s[|s| - 1] !in cs
    requires AllIn(t, cs)
    ensures RTrim(s + t, cs) == s
    decreases |t|
  {
    if t == [] {
      assert s + t == s;
    } else {
      var t' := t[..|t| - 1];
      assert (s + t)[..|s + t| - 1] == s + t';
      RTrimAfter(s, t', cs);
    }
  }

  /** rtrim distributes over a prefix when the rest holds a character outside `cs`. */
  lemma {:induction false} RTrimBehind(a: string, t: string, cs: set<char>)
    requires !AllIn(t, cs)
    ensures RTrim(a + t, cs) == a + RTrim(t, cs)
    decreases |t|
  {
    assert t != [];
    if t[|t| - 1] in cs {
      var t' := t[..|t| - 1];
      assert (a + t)[..|a + t| - 1] == a + t';
      assert !AllIn(t', cs) by {
        var k :| 0 <= k < |t| && t[k] !in cs;
        assert t'[k] == t[k];
      }
      RTrimBehind(a, t', cs);
    }
  }

  /** ltrim strips exactly a leading run of `cs` and nothing after it. */
  lemma {:induction false} LTrimBefore(t: string, s: string, cs: set<char>)
    requires AllIn(t, cs)
    requires s == [] || s[0] !in cs
    ensures LTrim(t + s, cs) == s
    decreases |t|
  {
    if t == [] {
      assert t + s == s;
    } else {
      assert (t + s)[1..] == t[1..] + s;
      LTrimBefore(t[1..], s, cs);
    }
  }

  /** ltrim is idempotent. */
  lemma LTrimIdempotent(s: string, cs: set<char>)
    ensures LTrim(LTrim(s, cs), cs) == LTrim(s, cs)
  {
  }

  /** PHP truthiness of a string: only "" and "0" are falsy (and so `empty`),
      so every string of two or more characters, "00" and " " included, is
      truthy. */
  function Truthy(s: string): (b: bool)
    ensures b ==> s != []
    ensures |s| >= 2 ==> b
    ensures |s| == 1 ==> (b <==> s[0] != '0')
  {
    s != "" && s != "0"
  }

  /** ASCII lower-casing of one character (PHP 8.2 strtolower and stripos). */
  function LowerChar(c: char): (d: char)
    ensures 'A' <= c <= 'Z' ==> 'a' <= d <= 'z'
    ensures !('A' <= c <= 'Z') ==> d == c
  {
    if 'A' <= c <= 'Z' then (c as int + 32) as char else c
  }

  /** ASCII upper-casing of one character (PHP 8.2 ucfirst). */
  function UpperChar(c: char): (d: char)
    ensures 'a' <= c <= 'z' ==> 'A' <= d <= 'Z' && LowerChar(d) == c
    ensures !('a' <= c <= 'z') ==> d == c
  {
    if 'a' <= c <= 'z' then (c as int - 32) as char else c
  }

  /** ASCII lower-casing of a string, one character at a time. */
  function Lower(s: string): (r: string)
    ensures |r| == |s|
  {
    if s == [] then [] else [LowerChar(s[0])] + Lower(s[1..])
  }

  /** Each character of the lower-cased string is the lower-cased character. */
  lemma {:induction false} LowerAt(s: string)
    ensures forall k :: 0 <= k < |s| ==> Lower(s)[k] == LowerChar(s[k])
    decreases |s|
  {
    if s != [] {
      LowerAt(s[1..]);
      forall k | 1 <= k < |s| ensures Lower(s)[k] == LowerChar(s[k]) {
        assert Lower(s)[k] == Lower(s[1..])[k - 1];
      }
    }
  }

  /** Two strings lower-case alike exactly when they agree character by
      character up to case. */
  lemma LowerEqual(s: string, t: string)
    requires |s| == |t|
    ensures Lower(s) == Lower(t) <==> forall k :: 0 <= k < |s| ==> LowerChar(s[k]) == LowerChar(t[k])
  {
    LowerAt(s);
    LowerAt(t);
    if forall k :: 0 <= k < |s| ==> LowerChar(s[k]) == LowerChar(t[k]) {
      assert forall k :: 0 <= k < |s| ==> Lower(s)[k] == Lower(t)[k];
    }
  }

  /** Lower-casing distributes over concatenation. */
  lemma LowerAppend(a: string, b: string)
    ensures Lower(a + b) == Lower(a) + Lower(b)
  {
    LowerAt(a + b);
    LowerAt(a);
    LowerAt(b);
    assert forall k :: 0 <= k < |a + b| ==> Lower(a + b)[k] == (Lower(a) + Lower(b))[k];
  }

  /** PHP ucfirst: the first character upper-cased, the rest untouched; so
      the result equals `s` up to the case of its first letter. */
  function UcFirst(s: string): (r: string)
    ensures |r| == |s|
    ensures s != [] ==> r[1..] == s[1..] && LowerChar(r[0]) == LowerChar(s[0])
    ensures s != [] && 'a' <= s[0] <= 'z' ==> 'A' <= r[0] <= 'Z'
    ensures s != [] && !('a' <= s[0] <= 'z') ==> r[0] == s[0]
  {
    if s == [] then [] else [UpperChar(s[0])] + s[1..]
  }

  /** ucfirst looks at the first character only, so it distributes over a
      concatenation with a non-empty left part. */
  lemma UcFirstAppend(s: string, t: string)
    requires s != []
    ensures UcFirst(s + t) == UcFirst(s) + t
  {
    assert (s + t)[0] == s[0];
    assert (s + t)[1..] == s[1..] + t;
  }

  /** PHP str_replace($c, '', $s) for a single character `c`. */
  function Remove(s: string, c: char): (r: string)
    ensures c !in r
    ensures c !in s ==> r == s
    ensures |r| + multiset(s)[c] == |s|
  {
    if s == [] then []
    else
      assert s == [s[0]] + s[1..];
      if s[0] == c then Remove(s[1..], c) else [s[0]] + Remove(s[1..], c)
  }

  /** Removing a character distributes over concatenation. */
  lemma {:induction false} RemoveAppend(a: string, b: string, c: char)
    ensures Remove(a + b, c) == Remove(a, c) + Remove(b, c)
    decreases |a|
  {
    if a == [] {
      assert a + b == b;
    } else {
      assert (a + b)[1..] == a[1..] + b;
      RemoveAppend(a[1..], b, c);
    }
  }

  /** `stripos($s, $prefix) === 0`: `s` starts with `prefix`, ignoring ASCII case. */
  function StartsWithCI(s: string, prefix: string): (b: bool)
    ensures b ==> |prefix| <= |s|
    ensures prefix == [] ==> b
  {
    |prefix| <= |s| && Lower(s[..|prefix|]) == Lower(prefix)
  }

  /** `s` starts with `prefix` ignoring case exactly when it is long enough
      and its first characters agree with the prefix's up to ASCII case. */
  lemma StartsWithCIChars(s: string, prefix: string)
    ensures StartsWithCI(s, prefix) <==>
      |prefix| <= |s| && forall k :: 0 <= k < |prefix| ==> LowerChar(s[k]) == LowerChar(prefix[k])
  {
    if |prefix| <= |s| {
      LowerEqual(s[..|prefix|], prefix);
      assert forall k :: 0 <= k < |prefix| ==> s[..|prefix|][k] == s[k];
    }
  }
}
