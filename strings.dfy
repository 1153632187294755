/** The optional value the aggregator uses for "nothing found" (Python's None). */
module Wrappers {
  datatype Option<+T> = None | Some(value: T)
}

/** Character classes and string operations used by both implementations. Strings are
    sequences of Unicode scalar values, as Python's `str` is. */
module Strings {

  predicate IsAsciiDigit(c: char) {
    '0' <= c <= '9'
  }

  /** Python's `\s` in a `str` pattern, which is also the set `str.strip()` removes:
      the characters for which `str.isspace()` holds. */
  predicate PySpace(c: char) {
    ('\t' <= c <= '\r') || ('\U{1C}' <= c <= '\U{1F}') || c == ' ' || c == '\U{85}'
    || c == '\U{A0}' || c == '\U{1680}' || ('\U{2000}' <= c <= '\U{200A}')
    || c == '\U{2028}' || c == '\U{2029}' || c == '\U{202F}' || c == '\U{205F}'
    || c == '\U{3000}'
  }

  /** JavaScript's `\s`: white space and line terminators of ECMAScript, which unlike
      Python include U+FEFF and exclude U+001C..U+001F and U+0085. */
  predicate JsSpace(c: char) {
    ('\t' <= c <= '\r') || c == ' ' || c == '\U{A0}' || c == '\U{1680}'
    || ('\U{2000}' <= c <= '\U{200A}') || c == '\U{2028}' || c == '\U{2029}'
    || c == '\U{202F}' || c == '\U{205F}' || c == '\U{3000}' || c == '\U{FEFF}'
  }

  predicate StartsWith(s: string, p: string) {
    |p| <= |s| && s[..|p|] == p
  }

  /** `s[i:].startswith(p)` */
  predicate StartsWithAt(s: string, i: nat, p: string) {
    i + |p| <= |s| && s[i..i + |p|] == p
  }

  /** Substring test, Python's `p in s` and JavaScript's `s.includes(p)`. */
  predicate Contains(s: string, p: string)
    decreases |s|
  {
    StartsWith(s, p) || (s != [] && Contains(s[1..], p))
  }

  /** Index of the first `c` in `s`, or `|s|` when there is none. */
  function IndexOf(s: string, c: char): (k: nat)
    ensures k <= |s|
    ensures k < |s| ==> s[k] == c
    ensures forall j :: 0 <= j < k ==> s[j] != c
  {
    if s == [] then 0
    else if s[0] == c then 0
    else 1 + IndexOf(s[1..], c)
  }

  /** Index of the first `c` at or after `i`, or `|s|` when there is none. */
  function IndexOfFrom(s: string, i: nat, c: char): (k: nat)
    requires i <= |s|
    ensures i <= k <= |s|
    ensures k < |s| ==> s[k] == c
    ensures forall j :: i <= j < k ==> s[j] != c
    decreases |s| - i
  {
    if i == |s| then i
    else if s[i] == c then i
    else IndexOfFrom(s, i + 1, c)
  }

  /** `s.split(c)[0]`: the text before the first `c`, all of `s` when `c` does not occur. */
  function Before(s: string, c: char): (r: string)
    ensures StartsWith(s, r)
    ensures c !in r
    ensures |r| < |s| ==> s[|r|] == c
  {
    s[..IndexOf(s, c)]
  }

  /** Splitting at every `c` (one separator character); the dotted-quad test uses it to read
      `^\d+\.\d+\.\d+\.\d+$` as four digit runs. */
  function Split(s: string, c: char): (parts: seq<string>)
    ensures |parts| >= 1
    ensures forall k :: 0 <= k < |parts| ==> c !in parts[k]
    decreases |s|
  {
    var i := IndexOf(s, c);
    if i == |s| then [s] else [s[..i]] + Split(s[i + 1..], c)
  }

  /** Number of occurrences of `c` in `s`. */
  function Count(s: string, c: char): nat {
    if s == [] then 0 else (if s[0] == c then 1 else 0) + Count(s[1..], c)
  }

  /** Lower-casing restricted to the ASCII letters. */
  function AsciiLower(s: string): (r: string)
    ensures |r| == |s|
    ensures forall k :: 0 <= k < |s| ==> r[k] == if 'A' <= s[k] <= 'Z' then s[k] - 'A' + 'a' else s[k]
  {
    if s == [] then [] else [if 'A' <= s[0] <= 'Z' then s[0] - 'A' + 'a' else s[0]] + AsciiLower(s[1..])
  }

  /** Python's `s.rstrip(chars)`: drop every trailing character that is in `chars`. */
  function RStrip(s: string, chars: set<char>): (r: string)
    ensures StartsWith(s, r)
    ensures r == [] || r[|r| - 1] !in chars
    ensures forall k :: |r| <= k < |s| ==> s[k] in chars
    decreases |s|
  {
    if s != [] && s[|s| - 1] in chars then RStrip(s[..|s| - 1], chars) else s
  }

  /** Python's `s.strip()` with no argument: drop leading and trailing white space. */
  function Strip(s: string): string
    decreases |s|
  {
    if s != [] && PySpace(s[0]) then Strip(s[1..])
    else if s != [] && PySpace(s[|s| - 1]) then Strip(s[..|s| - 1])
    else s
  }

  lemma {:induction false} CountAppend(a: string, b: string, c: char)
    ensures Count(a + b, c) == Count(a, c) + Count(b, c)
  {
    if a == [] {
      assert a + b == b;
    } else {
      assert (a + b)[1..] == a[1..] + b;
      CountAppend(a[1..], b, c);
    }
  }

  lemma CountAbsent(s: string, c: char)
    requires c !in s
    ensures Count(s, c) == 0
  {
  }

  /** A string that has no white space at either end is left alone by `strip()`. */
  lemma StripNoSpaceEnds(s: string)
    requires s == [] || (!PySpace(s[0]) && !PySpace(s[|s| - 1]))
    ensures Strip(s) == s
  {
  }

  lemma {:induction false} IndexOfAppend(x: string, y: string, c: char)
    requires c !in x
    ensures IndexOf(x + y, c) == |x| + IndexOf(y, c)
  {
    if x == [] {
      assert x + y == y;
    } else {
      assert (x + y)[1..] == x[1..] + y;
      IndexOfAppend(x[1..], y, c);
    }
  }

  /** Text free of `c` in front does not move the first `c`. */
  lemma BeforeAppend(x: string, y: string, c: char)
    requires c !in x
    ensures Before(x + y, c) == x + Before(y, c)
  {
    IndexOfAppend(x, y, c);
    assert (x + y)[..|x| + IndexOf(y, c)] == x + y[..IndexOf(y, c)];
  }

  /** The first `c` from `i` on is at `k` when `s[k]` is `c` and no `c` lies between. */
  lemma {:induction false} IndexOfFromAt(s: string, i: nat, c: char, k: nat)
    requires i <= k < |s| && s[k] == c
    requires forall j :: i <= j < k ==> s[j] != c
    ensures IndexOfFrom(s, i, c) == k
    decreases k - i
  {
    if i < k {
      IndexOfFromAt(s, i + 1, c, k);
    }
  }

  /** The first occurrence of `c` is at the length of a `c`-free prefix that is followed by `c`. */
  lemma IndexOfAfter(u: string, c: char, rest: string)
    requires c !in u
    ensures IndexOf(u + [c] + rest, c) == |u|
  {
    var s := u + [c] + rest;
    assert s[|u|] == c;
    assert forall j :: 0 <= j < |u| ==> s[j] == u[j];
  }
}
