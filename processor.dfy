/** `FastV2RayProcessor` of fast_aggregator.py: finding the host of a `vless://` link,
    choosing its flag, rewriting its display label, and extracting the links of one fetched
    body while skipping those already seen in this run. */
module Processor {
  import opened Wrappers
  import opened Strings
  import opened Seqs
  import opened Links
  import opened GeoIP

  const FlagIR: string := "\U{1F1EE}\U{1F1F7}"
  const FlagDE: string := "\U{1F1E9}\U{1F1EA}"
  const FlagFR: string := "\U{1F1EB}\U{1F1F7}"
  const FlagNL: string := "\U{1F1F3}\U{1F1F1}"

  /** The character `create_remark` tests for "already a flag": U+FFFD, the replacement
      character, as the source file has it. */
  const Sentinel: char := '\U{FFFD}'

  /** "SHΞN™ ", the product tag every new label starts with. */
  const Brand: string := "SH\U{39E}N\U{2122} "

  /** `re.match(r'vless://[^@]+@([^:]+):', s[p:])`, group 1. The user part runs to the first
      `@` and must not be empty; the host runs from there to the first `:` and must not be
      empty either; both classes also take new lines. */
  function HostAt(s: string, p: nat): (r: Option<string>)
    ensures r.Some? ==> r.value != [] && ':' !in r.value
  {
    if !StartsWithAt(s, p, VlessScheme) then None
    else
      var a := IndexOfFrom(s, p + 8, '@');
      if a == p + 8 || a == |s| then None
      else
        var c := IndexOfFrom(s, a + 1, ':');
        if c == a + 1 || c == |s| then None
        else Some(s[a + 1..c])
  }

  /** `re.search`: the match at the leftmost position from `p` where there is one. */
  function SearchFrom(s: string, p: nat): (r: Option<string>)
    ensures r.Some? ==> r.value != [] && ':' !in r.value
    decreases |s| - p
  {
    if p >= |s| then None
    else if HostAt(s, p).Some? then HostAt(s, p)
    else SearchFrom(s, p + 1)
  }

  function SearchHost(s: string): Option<string> {
    SearchFrom(s, 0)
  }
  /** `f` answers None at every position in `[lo, hi)`. */
  ghost predicate NoneIn<T>(f: nat -> Option<T>, lo: nat, hi: nat) {
    forall q :: lo <= q < hi ==> f(q).None?
  }

  /** The first position in `[i, n)` where `f` answers is one where it answers `v`. */
  ghost predicate FirstSome<T>(f: nat -> Option<T>, i: nat, n: nat, v: T) {
    exists p :: i <= p < n && f(p) == Some(v) && NoneIn(f, i, p)
  }

  lemma FirstSomeHit<T>(f: nat -> Option<T>, i: nat, n: nat, v: T)
    requires i < n && f(i).Some?
    ensures FirstSome(f, i, n, v) <==> f(i) == Some(v)
  {
    if f(i) == Some(v) {
      assert NoneIn(f, i, i);
    }
    if FirstSome(f, i, n, v) {
      var p :| i <= p < n && f(p) == Some(v) && NoneIn(f, i, p);
      assert p == i;
    }
  }

  lemma FirstSomeMiss<T>(f: nat -> Option<T>, i: nat, n: nat, v: T)
    requires i < n && f(i).None?
    ensures FirstSome(f, i, n, v) <==> FirstSome(f, i + 1, n, v)
  {
    if FirstSome(f, i, n, v) {
      var p :| i <= p < n && f(p) == Some(v) && NoneIn(f, i, p);
      assert NoneIn(f, i + 1, p);
    }
    if FirstSome(f, i + 1, n, v) {
      var p :| i + 1 <= p < n && f(p) == Some(v) && NoneIn(f, i + 1, p);
      assert NoneIn(f, i, p);
    }
  }

  /** The host pattern's answer at every position of `s`. */
  function HostsOf(s: string): nat -> Option<string> {
    (q: nat) => HostAt(s, q)
  }

  lemma {:induction false} SearchFromIff(s: string, i: nat, h: string)
    ensures SearchFrom(s, i) == Some(h) <==> FirstSome(HostsOf(s), i, |s|, h)
    decreases |s| - i
  {
    var f := HostsOf(s);
    if i < |s| {
      assert f(i) == HostAt(s, i);
      if HostAt(s, i).Some? {
        FirstSomeHit(f, i, |s|, h);
      } else {
        SearchFromIff(s, i + 1, h);
        FirstSomeMiss(f, i, |s|, h);
      }
    }
  }

  /** `re.search` reports the host read at the leftmost position where the pattern matches:
      the result is `h` exactly when the pattern reads `h` at some position and at no
      earlier one. */
  lemma SearchHostLeftmost(s: string, h: string)
    ensures SearchHost(s) == Some(h) <==>
      exists p: nat :: p < |s| && HostAt(s, p) == Some(h) && forall q :: 0 <= q < p ==> HostAt(s, q).None?
  {
    var f := HostsOf(s);
    SearchFromIff(s, 0, h);
    assert forall q: nat :: f(q) == HostAt(s, q);
  }



  predicate DigitRun(s: string) {
    s != [] && forall k :: 0 <= k < |s| ==> IsAsciiDigit(s[k])
  }

  /** Four runs of ASCII digits separated by dots. */
  predicate IsDottedQuad(h: string) {
    var parts := Split(h, '.');
    |parts| == 4 && DigitRun(parts[0]) && DigitRun(parts[1]) && DigitRun(parts[2]) && DigitRun(parts[3])
  }

  /** `re.match(r'^\d+\.\d+\.\d+\.\d+$', h)`: Python's `$` also matches in front of a new
      line that ends the string. */
  predicate QuadMatch(h: string) {
    IsDottedQuad(h) || (h != [] && h[|h| - 1] == '\n' && IsDottedQuad(h[..|h| - 1]))
  }

  /** The domain heuristics, in their order: the dotted tests are case-sensitive, the
      country names are tested on the lower-cased host. */
  function DomainFlag(host: string): Option<string> {
    var low := AsciiLower(host);
    if Contains(host, ".ir") then Some(FlagIR)
    else if Contains(host, ".de") || Contains(low, "germany") then Some(FlagDE)
    else if Contains(host, ".fr") || Contains(low, "france") then Some(FlagFR)
    else if Contains(host, ".nl") || Contains(low, "netherlands") then Some(FlagNL)
    else if Contains(host, ".us") || Contains(low, "usa") then Some(FlagUS)
    else None
  }

  /** `extract_ip_from_vless`: the host when it looks like an IPv4 address, else a flag from
      the domain heuristics, else None. */
  function ExtractIp(url: string): Option<string> {
    if !StartsWith(url, VlessScheme) then None
    else match SearchHost(url)
      case None => None
      case Some(host) => if QuadMatch(host) then Some(host) else DomainFlag(host)
  }

  /** The value `create_remark` hands to `get_country_flag`, if it calls it. */
  function FlagKey(url: string): Option<string> {
    var r := ExtractIp(url);
    if r.Some? && r.value != [] && !StartsWith(r.value, [Sentinel]) then r else None
  }

  /** `create_remark`, with `get_country_flag` answered by the lookup table. */
  function Remark(url: string): string {
    var r := ExtractIp(url);
    if r.Some? && r.value != [] && StartsWith(r.value, [Sentinel]) then Brand + r.value
    else if r.Some? && r.value != [] then Brand + LookupFlag(r.value)
    else Brand + WhiteFlag
  }

  /** `update_vless_remark`: the link up to its first `#`, then `#` and the new label. */
  function Relabel(url: string): string {
    Base(url) + "#" + Remark(url)
  }

  function RelabelAll(urls: seq<string>): seq<string> {
    seq(|urls|, k requires 0 <= k < |urls| => Relabel(urls[k]))
  }

  /** The cache after `create_remark(url)`. */
  function CacheAfter(cache: map<string, string>, url: string): map<string, string> {
    match FlagKey(url)
    case Some(ip) => cache[ip := LookupFlag(ip)]
    case None => cache
  }

  /** The cache after relabelling each of `urls` in turn. */
  function CacheAfterAll(cache: map<string, string>, urls: seq<string>): map<string, string>
    decreases |urls|
  {
    if urls == [] then cache
    else CacheAfter(CacheAfterAll(cache, urls[..|urls| - 1]), urls[|urls| - 1])
  }

  /** The links of `content` that `process_subscription_content` keeps, in text order,
      given the set of bases seen before the call. */
  function NewLinks(seen: set<string>, content: string, decode: string -> Option<string>): seq<string> {
    KeepNew(seen, FindAll(VlessLink(Python), DecodeOr(content, decode)), Base)
  }

  function Bases(links: seq<string>): set<string> {
    KeySet(links, Base)
  }

  // ---------------------------------------------------------------------------------
  // Host extraction

  /** The link form the host pattern reads at `p`: the scheme, a non-empty user part `u`
      without `@`, then `@`, a non-empty host `h` without `:`, then `:`. */
  ghost predicate UserHost(s: string, p: nat, u: string, h: string) {
    u != [] && '@' !in u && h != [] && ':' !in h
    && StartsWithAt(s, p, VlessScheme)
    && StartsWithAt(s, p + 8, u)
    && StartsWithAt(s, p + 8 + |u|, "@")
    && StartsWithAt(s, p + 9 + |u|, h)
    && StartsWithAt(s, p + 9 + |u| + |h|, ":")
  }

  lemma HostAtSound(s: string, p: nat, h: string)
    requires HostAt(s, p) == Some(h)
    ensures UserHost(s, p, s[p + 8..IndexOfFrom(s, p + 8, '@')], h)
  {
    var a := IndexOfFrom(s, p + 8, '@');
    var c := IndexOfFrom(s, a + 1, ':');
    var u := s[p + 8..a];
    assert s[a..a + 1] == [s[a]];
    assert s[c..c + 1] == [s[c]];
    assert '@' !in u by {
      assert forall j :: 0 <= j < |u| ==> u[j] == s[p + 8 + j];
    }
  }

  lemma HostAtComplete(s: string, p: nat, u: string, h: string)
    requires UserHost(s, p, u, h)
    ensures HostAt(s, p) == Some(h)
  {
    var a := p + 8 + |u|;
    var c := a + 1 + |h|;
    assert s[a] == s[a..a + 1][0] == '@';
    assert s[c] == s[c..c + 1][0] == ':';
    assert forall j :: p + 8 <= j < a ==> s[j] == u[j - p - 8];
    IndexOfFromAt(s, p + 8, '@', a);
    assert forall j :: a + 1 <= j < c ==> s[j] == h[j - a - 1];
    IndexOfFromAt(s, a + 1, ':', c);
  }

  /** The host pattern at `p` reads `h` exactly when the text at `p` has the link form with
      host `h`. */
  lemma HostAtIff(s: string, p: nat, h: string)
    ensures HostAt(s, p) == Some(h) <==> exists u :: UserHost(s, p, u, h)
  {
    if HostAt(s, p) == Some(h) {
      HostAtSound(s, p, h);
    }
    if exists u :: UserHost(s, p, u, h) {
      var u :| UserHost(s, p, u, h);
      HostAtComplete(s, p, u, h);
    }
  }

  /** A link of the form `UserHost` describes has its host read from position 0. */
  lemma HostOfLink(u: string, h: string, rest: string)
    requires u != [] && '@' !in u && h != [] && ':' !in h
    ensures SearchHost(VlessScheme + u + "@" + h + ":" + rest) == Some(h)
  {
    var s := VlessScheme + u + "@" + h + ":" + rest;
    var n := |u|;
    assert s[0..8] == VlessScheme;
    assert s[8..8 + n] == u;
    assert s[8 + n..9 + n] == "@";
    assert s[9 + n..9 + n + |h|] == h;
    assert s[9 + n + |h|..10 + n + |h|] == ":";
    HostAtComplete(s, 0, u, h);
  }

  lemma {:induction false} SearchFromNoAt(s: string, p: nat)
    requires '@' !in s
    ensures SearchFrom(s, p) == None
    decreases |s| - p
  {
    if p < |s| {
      if StartsWithAt(s, p, VlessScheme) {
        assert IndexOfFrom(s, p + 8, '@') == |s|;
      }
      SearchFromNoAt(s, p + 1);
    }
  }

  /** Without an `@` there is no host at all. */
  lemma SearchNoAt(s: string)
    requires '@' !in s
    ensures SearchHost(s) == None
  {
    SearchFromNoAt(s, 0);
  }

  /** `extract_ip_from_vless` on a link of the form `UserHost` describes: the host itself when it is
      four dot-separated digit runs (a trailing new line allowed), else the domain
      heuristic's flag or None. */
  lemma ExtractIpOfLink(u: string, h: string, rest: string)
    requires u != [] && '@' !in u && h != [] && ':' !in h
    ensures ExtractIp(VlessScheme + u + "@" + h + ":" + rest)
         == if QuadMatch(h) then Some(h) else DomainFlag(h)
  {
    var s := VlessScheme + u + "@" + h + ":" + rest;
    assert s[..8] == VlessScheme;
    HostOfLink(u, h, rest);
  }

  /** Input that does not start with `vless://` gives None. */
  lemma ExtractIpNotLink(url: string)
    requires !StartsWith(url, VlessScheme)
    ensures ExtractIp(url) == None
    ensures Remark(url) == Brand + WhiteFlag
  {
  }

  lemma SplitCons(a: string, c: char, rest: string)
    requires c !in a
    ensures Split(a + [c] + rest, c) == [a] + Split(rest, c)
  {
    var s := a + [c] + rest;
    IndexOfAfter(a, c, rest);
    assert s[..|a|] == a;
    assert s[|a| + 1..] == rest;
  }

  lemma SplitNone(a: string, c: char)
    requires c !in a
    ensures Split(a, c) == [a]
  {
    assert forall k :: 0 <= k < |a| ==> a[k] != c;
  }

  lemma DigitRunNoDot(x: string)
    requires DigitRun(x)
    ensures '.' !in x
  {
    assert forall k :: 0 <= k < |x| ==> x[k] != '.';
  }

  lemma SplitQuad(a: string, b: string, c: string, d: string)
    requires '.' !in a && '.' !in b && '.' !in c && '.' !in d
    ensures Split(a + ['.'] + (b + ['.'] + (c + ['.'] + d)), '.') == [a, b, c, d]
  {
    SplitNone(d, '.');
    SplitCons(c, '.', d);
    SplitCons(b, '.', c + ['.'] + d);
    SplitCons(a, '.', b + ['.'] + (c + ['.'] + d));
  }

  /** Four digit runs joined by dots form a dotted quad. */
  lemma DottedQuadOf(a: string, b: string, c: string, d: string)
    requires DigitRun(a) && DigitRun(b) && DigitRun(c) && DigitRun(d)
    ensures IsDottedQuad(a + ['.'] + (b + ['.'] + (c + ['.'] + d)))
  {
    DigitRunNoDot(a);
    DigitRunNoDot(b);
    DigitRunNoDot(c);
    DigitRunNoDot(d);
    SplitQuad(a, b, c, d);
  }

  /** A dotted quad starts with a digit. */
  lemma DottedQuadDigit(h: string)
    requires QuadMatch(h)
    ensures h != [] && IsAsciiDigit(h[0])
  {
    var g := if IsDottedQuad(h) then h else h[..|h| - 1];
    var part := Split(g, '.')[0];
    var i := IndexOf(g, '.');
    assert part == if i == |g| then g else g[..i];
    assert part[0] == g[0] == h[0];
  }

  // ---------------------------------------------------------------------------------
  // The "already a flag" branch and the label

  /** Every value `extract_ip_from_vless` returns is a dotted quad or one of the five
      heuristic flags, so none starts with U+FFFD: the "already a flag" branch of
      `create_remark` is never taken. */
  lemma SentinelNeverTaken(url: string)
    ensures ExtractIp(url).Some? ==>
      var v := ExtractIp(url).value;
      v != [] && !StartsWith(v, [Sentinel])
      && ((QuadMatch(v) && IsAsciiDigit(v[0])) || v in {FlagIR, FlagDE, FlagFR, FlagNL, FlagUS})
  {
    if ExtractIp(url).Some? {
      var v := ExtractIp(url).value;
      var host := SearchHost(url).value;
      if QuadMatch(host) {
        DottedQuadDigit(host);
        assert v[..1] == [v[0]];
      }
    }
  }

  /** The label depends only on whether the host is a dotted quad: a heuristic flag goes
      through `get_country_flag`, whose prefixes all start with a digit, and so turns into
      the white flag; None gives the white flag directly. */
  lemma RemarkSpec(url: string)
    ensures Remark(url) == Brand + match ExtractIp(url)
      case Some(v) => if QuadMatch(v) then LookupFlag(v) else WhiteFlag
      case None => WhiteFlag
    ensures FlagKey(url) == ExtractIp(url)
  {
    SentinelNeverTaken(url);
    if ExtractIp(url).Some? {
      var v := ExtractIp(url).value;
      if !QuadMatch(v) {
        LookupFlagNonDigit(v);
      }
    }
  }

  /** The new label holds one of the three flags of the table and no `#`. */
  lemma RemarkNoHash(url: string)
    ensures '#' !in Remark(url)
    ensures Remark(url) in {Brand + FlagUS, Brand + FlagEU, Brand + WhiteFlag}
  {
    RemarkSpec(url);
    if ExtractIp(url).Some? {
      LookupFromRange(ExtractIp(url).value, 0);
    }
  }

  /** `update_vless_remark(s)` has exactly one `#`, keeps the base of `s`, and ends with
      the label computed from the whole of `s`. */
  lemma RelabelShape(s: string)
    ensures Count(Relabel(s), '#') == 1
    ensures Base(Relabel(s)) == Base(s)
    ensures Relabel(s)[|Base(s)| + 1..] == Remark(s)
  {
    RemarkNoHash(s);
    var b := Base(s);
    CountAbsent(b, '#');
    CountAbsent(Remark(s), '#');
    CountAppend(b, "#", '#');
    CountAppend(b + "#", Remark(s), '#');
    assert Relabel(s) == b + ['#'] + Remark(s);
    IndexOfAfter(b, '#', Remark(s));
    assert Relabel(s)[..|b|] == b;
  }

  lemma QuadOne()
    ensures QuadMatch("1.1.1.1")
  {
    var one := "1";
    assert DigitRun(one);
    DottedQuadOf(one, one, one, one);
    assert "1.1.1.1" == one + ['.'] + (one + ['.'] + (one + ['.'] + one));
  }

  /** The host of the link `vless://user@1.1.1.1:443?x=1#old`, 1.1.1.1, is a dotted quad
      that the table maps to the US flag. */
  lemma LookupOne()
    ensures QuadMatch("1.1.1.1") && LookupFlag("1.1.1.1") == FlagUS
  {
    QuadOne();
    assert "1.1.1.1"[..6] == "1.1.1.";
    LookupFlagFirstMatch("1.1.1.1", 0);
  }

  /** A link whose host is a dotted quad: the old label after the first `#` is dropped and
      the new one carries the table's flag for the host (so `vless://user@1.1.1.1:443?x=1#old`
      becomes `vless://user@1.1.1.1:443?x=1#SHΞN™ ` followed by the US flag). */
  lemma RelabelQuadLink(u: string, h: string, rest: string)
    requires u != [] && '@' !in u && '#' !in u
    requires h != [] && ':' !in h && '#' !in h && QuadMatch(h)
    ensures var s := VlessScheme + u + "@" + h + ":" + rest;
      ExtractIp(s) == Some(h)
      && Relabel(s) == VlessScheme + u + "@" + h + ":" + Base(rest) + "#" + Brand + LookupFlag(h)
  {
    var head := VlessScheme + u + "@" + h + ":";
    var s := head + rest;
    ExtractIpOfLink(u, h, rest);
    RemarkSpec(s);
    assert '#' !in head;
    BeforeAppend(head, rest, '#');
  }

  /** A link of the form `UserHost` describes whose host is a dotted quad gets the table's flag for
      the host. */
  lemma RemarkQuadLink(u: string, h: string, rest: string)
    requires u != [] && '@' !in u && h != [] && ':' !in h && QuadMatch(h)
    ensures Remark(VlessScheme + u + "@" + h + ":" + rest) == Brand + LookupFlag(h)
  {
    ExtractIpOfLink(u, h, rest);
    RemarkSpec(VlessScheme + u + "@" + h + ":" + rest);
  }

  /** Text without an `@` has no host and gets the white flag. */
  lemma RemarkNoAt(s: string)
    requires '@' !in s
    ensures Remark(s) == Brand + WhiteFlag
  {
    SearchNoAt(s);
  }

  lemma BaseBeforeHash(x: string, y: string, h: string, rest: string)
    requires '#' !in x
    ensures Base(VlessScheme + x + "#" + y + "@" + h + ":" + rest) == VlessScheme + x
  {
    var s := VlessScheme + x + "#" + y + "@" + h + ":" + rest;
    var b := VlessScheme + x;
    assert s == b + (['#'] + y + "@" + h + ":" + rest);
    assert '#' !in b;
    BeforeAppend(b, ['#'] + y + "@" + h + ":" + rest, '#');
  }

  /** The label is computed from the whole original link, not from its base: when the `@`
      and the host come after the first `#`, the link gets the host's flag while its base
      alone would get the white flag. */
  lemma RemarkUsesWholeLink(x: string, y: string, h: string, rest: string)
    requires '@' !in x && '#' !in x && '@' !in y
    requires h != [] && ':' !in h && QuadMatch(h)
    ensures var s := VlessScheme + x + "#" + y + "@" + h + ":" + rest;
      Base(s) == VlessScheme + x
      && Remark(s) == Brand + LookupFlag(h)
      && Remark(Base(s)) == Brand + WhiteFlag
  {
    var u := x + "#" + y;
    assert VlessScheme + x + "#" + y + "@" + h + ":" + rest == VlessScheme + u + "@" + h + ":" + rest;
    assert '@' !in u;
    RemarkQuadLink(u, h, rest);
    BaseBeforeHash(x, y, h, rest);
    assert '@' !in VlessScheme + x;
    RemarkNoAt(VlessScheme + x);
  }

  /** A host that is not a dotted quad but is caught by a domain heuristic: its flag is
      handed to `get_country_flag`, which caches the white flag under the flag string and
      returns it; a host caught by no heuristic leaves the cache alone. Either way the
      label carries the white flag. */
  lemma HeuristicHostLink(u: string, h: string, rest: string, cache: map<string, string>)
    requires u != [] && '@' !in u && h != [] && ':' !in h && !QuadMatch(h)
    ensures var s := VlessScheme + u + "@" + h + ":" + rest;
      ExtractIp(s) == DomainFlag(h) && Remark(s) == Brand + WhiteFlag
      && CacheAfter(cache, s) == match DomainFlag(h)
           case Some(f) => cache[f := WhiteFlag]
           case None => cache
  {
    var s := VlessScheme + u + "@" + h + ":" + rest;
    ExtractIpOfLink(u, h, rest);
    RemarkSpec(s);
    HeuristicFlagsWhite(h);
  }

  /** The table sends every heuristic flag to the white flag. */
  lemma HeuristicFlagsWhite(h: string)
    ensures DomainFlag(h).Some? ==> LookupFlag(DomainFlag(h).value) == WhiteFlag
  {
    if DomainFlag(h).Some? {
      var f := DomainFlag(h).value;
      assert f in {FlagIR, FlagDE, FlagFR, FlagNL, FlagUS};
      assert !IsAsciiDigit(f[0]);
      LookupFlagNonDigit(f);
    }
  }

  // ---------------------------------------------------------------------------------
  // Deduplication within and across calls

  /** The links one call keeps: each comes from the scan with a base not seen before, no
      two share a base, they are in text order (ordered by where each first occurs, even when
      a link repeats word for word), the first link of every new base is kept,
      and the recorded bases grow by exactly the bases of all scanned links. */
  lemma NewLinksSpec(seen: set<string>, content: string, decode: string -> Option<string>)
    ensures var ms := FindAll(VlessLink(Python), DecodeOr(content, decode));
      var r := NewLinks(seen, content, decode);
      (forall i :: 0 <= i < |r| ==> r[i] in ms && Base(r[i]) !in seen)
      && (forall i, j :: 0 <= i < j < |r| ==> Base(r[i]) != Base(r[j]))
      && IsSubseq(r, ms)
      && (forall i, j :: 0 <= i < j < |r| ==> FirstIndex(ms, r[i]) < FirstIndex(ms, r[j]))
      && (forall i :: (0 <= i < |ms| && Base(ms[i]) !in seen
                         && forall j :: 0 <= j < i ==> Base(ms[j]) != Base(ms[i])) ==> ms[i] in r)
      && seen + Bases(r) == seen + Bases(ms)
  {
    var ms := FindAll(VlessLink(Python), DecodeOr(content, decode));
    KeepNewFresh(seen, ms, Base);
    KeepNewDistinct(seen, ms, Base);
    KeepNewSubseq(seen, ms, Base);
    KeepNewKeys(seen, ms, Base);
    KeepNewOrder(seen, ms, Base);
    forall i | 0 <= i < |ms| && Base(ms[i]) !in seen
        && (forall j :: 0 <= j < i ==> Base(ms[j]) != Base(ms[i]))
      ensures ms[i] in NewLinks(seen, content, decode)
    {
      KeepNewFirst(seen, ms, Base, i);
    }
  }

  /** The emitted links have pairwise different bases, none of them seen before. */
  lemma OutputBasesDistinct(seen: set<string>, content: string, decode: string -> Option<string>)
    ensures var out := RelabelAll(NewLinks(seen, content, decode));
      (forall i, j :: 0 <= i < j < |out| ==> Base(out[i]) != Base(out[j]))
      && (forall i :: 0 <= i < |out| ==> Base(out[i]) !in seen)
  {
    var r := NewLinks(seen, content, decode);
    NewLinksSpec(seen, content, decode);
    forall i | 0 <= i < |r| ensures Base(Relabel(r[i])) == Base(r[i]) {
      RelabelShape(r[i]);
    }
  }

  /** A second call with the same content, after the first has recorded its bases,
      returns nothing. */
  lemma SecondCallEmpty(seen: set<string>, content: string, decode: string -> Option<string>)
    ensures NewLinks(seen + Bases(NewLinks(seen, content, decode)), content, decode) == []
  {
    var ms := FindAll(VlessLink(Python), DecodeOr(content, decode));
    KeepNewKeys(seen, ms, Base);
    KeepNewAllSeen(seen + Bases(NewLinks(seen, content, decode)), ms, Base);
  }

  /** Two calls in a row, the second seeing the bases the first recorded: no base is
      emitted twice across both, and together they keep what one pass over both scans
      would keep. */
  lemma CrossCallDistinct(seen: set<string>, c1: string, c2: string, decode: string -> Option<string>)
    ensures var first := NewLinks(seen, c1, decode);
      var second := NewLinks(seen + Bases(first), c2, decode);
      var both := first + second;
      both == KeepNew(seen, FindAll(VlessLink(Python), DecodeOr(c1, decode))
                            + FindAll(VlessLink(Python), DecodeOr(c2, decode)), Base)
      && forall i, j :: 0 <= i < j < |both| ==> Base(both[i]) != Base(both[j])
  {
    var m1 := FindAll(VlessLink(Python), DecodeOr(c1, decode));
    var m2 := FindAll(VlessLink(Python), DecodeOr(c2, decode));
    KeepNewAppend(seen, m1, m2, Base);
    KeepNewDistinct(seen, m1 + m2, Base);
  }

  /** Relabelling, collecting bases and filling the cache all extend one link at a time. */
  lemma AppendOne(kept: seq<string>, x: string, cache: map<string, string>)
    ensures RelabelAll(kept + [x]) == RelabelAll(kept) + [Relabel(x)]
    ensures Bases(kept + [x]) == Bases(kept) + {Base(x)}
    ensures CacheAfterAll(cache, kept + [x]) == CacheAfter(CacheAfterAll(cache, kept), x)
  {
    KeySetAppend(kept, [x], Base);
    assert (kept + [x])[..|kept|] == kept;
  }

  /** One iteration of the loop over the scanned links: the link is left alone by `strip()`
      and is kept exactly when its base is new. */
  lemma ScanStep(text: string, found: seq<string>, seen: set<string>, i: nat, kept: seq<string>)
    requires found == FindAll(VlessLink(Python), text) && i < |found|
    requires kept == KeepNew(seen, found[..i], Base)
    ensures Strip(found[i]) == found[i] && found[i] != []
    ensures KeepNew(seen, found[..i + 1], Base)
         == kept + (if Base(found[i]) in seen + Bases(kept) then [] else [found[i]])
  {
    FindAllStripped(text, i);
    assert found[..i + 1] == found[..i] + [found[i]];
    KeepNewSnoc(seen, found[..i], found[i], Base);
  }

  class FastV2RayProcessor {
    const geoip: FastGeoIP
    /** The bases of all links emitted so far in this run. */
    var processed: set<string>

    ghost predicate Valid()
      reads this, geoip
    {
      geoip.Valid()
    }

    constructor ()
      ensures Valid() && fresh(geoip)
      ensures geoip.cache == map[] && processed == {}
    {
      geoip := new FastGeoIP();
      processed := {};
    }

    /** `create_remark`. */
    method CreateRemark(url: string) returns (r: string)
      requires Valid()
      modifies geoip
      ensures Valid()
      ensures r == Remark(url)
      ensures geoip.cache == CacheAfter(old(geoip.cache), url)
    {
      var ipOrFlag := ExtractIp(url);
      if ipOrFlag.Some? && ipOrFlag.value != [] && StartsWith(ipOrFlag.value, [Sentinel]) {
        r := Brand + ipOrFlag.value;
      } else if ipOrFlag.Some? && ipOrFlag.value != [] {
        var flag := geoip.GetCountryFlag(ipOrFlag.value);
        r := Brand + flag;
      } else {
        r := Brand + WhiteFlag;
      }
    }

    /** `update_vless_remark`. */
    method UpdateVlessRemark(url: string) returns (r: string)
      requires Valid()
      modifies geoip
      ensures Valid()
      ensures r == Relabel(url)
      ensures geoip.cache == CacheAfter(old(geoip.cache), url)
    {
      var base := if '#' in url then Split(url, '#')[0] else url;
      assert base == Base(url);
      var remark := CreateRemark(url);
      r := base + "#" + remark;
    }

    /** `process_subscription_content`: decode if possible, scan for links, and relabel
        every link whose base has not been seen, recording its base. */
    method ProcessSubscriptionContent(content: string, decode: string -> Option<string>)
      returns (configs: seq<string>)
      requires Valid()
      modifies this, geoip
      ensures Valid()
      ensures configs == RelabelAll(NewLinks(old(processed), content, decode))
      ensures processed == old(processed) + Bases(NewLinks(old(processed), content, decode))
      ensures geoip.cache == CacheAfterAll(old(geoip.cache), NewLinks(old(processed), content, decode))
    {
      var text := DecodeOr(content, decode);
      var found := FindAll(VlessLink(Python), text);
      ghost var seen := processed;
      ghost var kept: seq<string> := [];
      configs := [];
      var i := 0;
      while i < |found|
        invariant 0 <= i <= |found|
        invariant Valid()
        invariant kept == KeepNew(seen, found[..i], Base)
        invariant processed == seen + Bases(kept)
        invariant configs == RelabelAll(kept)
        invariant geoip.cache == CacheAfterAll(old(geoip.cache), kept)
      {
        ScanStep(text, found, seen, i, kept);
        var config := Strip(found[i]);
        if config != [] {
          var key := Base(config);
          if key !in processed {
            var updated := UpdateVlessRemark(config);
            AppendOne(kept, config, old(geoip.cache));
            configs := configs + [updated];
            processed := processed + {key};
            kept := kept + [config];
          }
        }
        i := i + 1;
      }
      assert found[..i] == found;
    }

    /** `fetch_subscription` with the HTTP exchange as its input: a failed fetch or a status
        other than 200 (None) contributes nothing. */
    method FetchSubscription(response: Option<string>, decode: string -> Option<string>)
      returns (configs: seq<string>)
      requires Valid()
      modifies this, geoip
      ensures Valid()
      ensures response.None? ==>
        configs == [] && processed == old(processed) && geoip.cache == old(geoip.cache)
      ensures response.Some? ==>
        var kept := NewLinks(old(processed), response.value, decode);
        configs == RelabelAll(kept) && processed == old(processed) + Bases(kept)
        && geoip.cache == CacheAfterAll(old(geoip.cache), kept)
    {
      if response.None? {
        return [];
      }
      configs := ProcessSubscriptionContent(response.value, decode);
    }
  }
}
