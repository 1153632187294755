/** The two `findall` scans of the aggregator: `vless://[^\s\n]+` for links and
    `https?://[^\s\n\\]+` for subscription URLs, each in the Python and the JavaScript
    dialect (they differ only in what `\s` means). A scan reports the leftmost match, resumes
    where that match ended, and each match runs as far as it can. */
module Links {
  import opened Wrappers
  import opened Strings

  datatype Dialect = Python | JavaScript

  datatype Pattern =
    | VlessLink(dialect: Dialect)   // vless://[^\s\n]+
    | WebUrl(dialect: Dialect)      // https?://[^\s\n\\]+

  const VlessScheme: string := "vless://"

  /** The characters the pattern's negated class `[^...]` refuses. */
  predicate Stop(p: Pattern, c: char) {
    c == '\n'
    || (match p.dialect case Python => PySpace(c) case JavaScript => JsSpace(c))
    || (p.WebUrl? && c == '\\')
  }

  /** The length of the literal scheme the pattern matches at `i`, or 0. The two URL schemes
      differ at their fifth character, so at most one of them is present. */
  function SchemeAt(p: Pattern, s: string, i: nat): nat {
    match p
    case VlessLink(_) => if StartsWithAt(s, i, VlessScheme) then 8 else 0
    case WebUrl(_) =>
      if StartsWithAt(s, i, "https://") then 8
      else if StartsWithAt(s, i, "http://") then 7
      else 0
  }

  /** A match of the pattern begins at `i`: the scheme, then at least one allowed character. */
  predicate MatchStart(p: Pattern, s: string, i: nat) {
    var n := SchemeAt(p, s, i);
    n > 0 && i + n < |s| && !Stop(p, s[i + n])
  }

  /** The first position at or after `j` that holds a refused character, or `|s|`. */
  function RunEnd(p: Pattern, s: string, j: nat): (e: nat)
    requires j <= |s|
    ensures j <= e <= |s|
    ensures e == |s| || Stop(p, s[e])
    ensures forall k :: j <= k < e ==> !Stop(p, s[k])
    decreases |s| - j
  {
    if j == |s| || Stop(p, s[j]) then j else RunEnd(p, s, j + 1)
  }

  /** Where the greedy `+` ends a match that begins at `i`. */
  function MatchEnd(p: Pattern, s: string, i: nat): (e: nat)
    requires MatchStart(p, s, i)
    ensures i + SchemeAt(p, s, i) < e <= |s|
  {
    RunEnd(p, s, i + SchemeAt(p, s, i))
  }

  /** The spans `(begin, end)` of the matches a scan from `i` reports. */
  function Spans(p: Pattern, s: string, i: nat): (sp: seq<(nat, nat)>)
    requires i <= |s|
    ensures forall k :: 0 <= k < |sp| ==> i <= sp[k].0 < sp[k].1 <= |s|
    decreases |s| - i
  {
    if i == |s| then []
    else if MatchStart(p, s, i) then [(i, MatchEnd(p, s, i))] + Spans(p, s, MatchEnd(p, s, i))
    else Spans(p, s, i + 1)
  }

  /** `re.findall(pattern, s)`, or `s.match(pattern) || []` with the `g` flag. */
  function FindAll(p: Pattern, s: string): seq<string> {
    var sp := Spans(p, s, 0);
    seq(|sp|, k requires 0 <= k < |sp| => s[sp[k].0..sp[k].1])
  }

  /** The body a scan runs over: the decoded text, or the body itself when decoding fails.
      The decoder (Python's base64 decoding followed by lenient UTF-8 decoding, or the
      worker's `atob`) is a parameter: None stands for the exception it raises. */
  function DecodeOr(content: string, decode: string -> Option<string>): string {
    match decode(content)
    case Some(text) => text
    case None => content
  }

  /** The text before the first `#`: a link without its display label, the dedup key. */
  function Base(link: string): string {
    Before(link, '#')
  }

  ghost predicate NoStartIn(p: Pattern, s: string, lo: nat, hi: nat) {
    forall q :: lo <= q < hi ==> !MatchStart(p, s, q)
  }

  /** Declarative reading of a regex scan from `i`: `sp` lists matches left to right, no
      match begins in a gap between them or after the last, and each one ends where the
      greedy run of allowed characters ends. */
  ghost predicate Leftmost(p: Pattern, s: string, i: nat, sp: seq<(nat, nat)>)
    decreases |sp|
  {
    if sp == [] then NoStartIn(p, s, i, |s|)
    else
      i <= sp[0].0 && NoStartIn(p, s, i, sp[0].0) && MatchStart(p, s, sp[0].0)
      && sp[0].1 == MatchEnd(p, s, sp[0].0) && Leftmost(p, s, sp[0].1, sp[1..])
  }

  /** One step of the scan where a match begins. */
  lemma SpansAtMatch(p: Pattern, s: string, i: nat)
    requires i < |s| && MatchStart(p, s, i)
    ensures Spans(p, s, i) == [(i, MatchEnd(p, s, i))] + Spans(p, s, MatchEnd(p, s, i))
  {
  }

  /** One step of the scan where no match begins. */
  lemma SpansSkip(p: Pattern, s: string, i: nat)
    requires i < |s| && !MatchStart(p, s, i)
    ensures Spans(p, s, i) == Spans(p, s, i + 1)
  {
  }

  /** A leftmost reading whose first match is the one at `i` continues from its end. */
  lemma LeftmostHead(p: Pattern, s: string, i: nat, sp: seq<(nat, nat)>)
    requires sp != [] && MatchStart(p, s, i) && sp[0] == (i, MatchEnd(p, s, i))
    ensures Leftmost(p, s, i, sp) <==> Leftmost(p, s, MatchEnd(p, s, i), sp[1..])
  {
  }

  /** Where no match begins at `i`, a leftmost reading from `i` is one from `i + 1`. */
  lemma LeftmostSkip(p: Pattern, s: string, i: nat, sp: seq<(nat, nat)>)
    requires i < |s| && !MatchStart(p, s, i) && (sp == [] || sp[0].0 != i)
    ensures Leftmost(p, s, i, sp) <==> Leftmost(p, s, i + 1, sp)
  {
    if sp == [] {
      assert NoStartIn(p, s, i, |s|) <==> NoStartIn(p, s, i + 1, |s|);
    } else {
      assert i <= sp[0].0 && NoStartIn(p, s, i, sp[0].0) <==> i + 1 <= sp[0].0 && NoStartIn(p, s, i + 1, sp[0].0);
    }
  }

  lemma {:induction false} SpansAreLeftmost(p: Pattern, s: string, i: nat)
    requires i <= |s|
    ensures Leftmost(p, s, i, Spans(p, s, i))
    decreases |s| - i
  {
    if i < |s| {
      if MatchStart(p, s, i) {
        var e := MatchEnd(p, s, i);
        SpansAreLeftmost(p, s, e);
        SpansAtMatch(p, s, i);
        var sp := Spans(p, s, i);
        assert sp[1..] == Spans(p, s, e);
        LeftmostHead(p, s, i, sp);
      } else {
        SpansAreLeftmost(p, s, i + 1);
        SpansSkip(p, s, i);
        var sp := Spans(p, s, i);
        assert sp == [] || sp[0].0 >= i + 1;
        LeftmostSkip(p, s, i, sp);
      }
    }
  }

  /** A leftmost reading from the end of the text is empty: a match needs a character. */
  lemma LeftmostAtEnd(p: Pattern, s: string, sp: seq<(nat, nat)>)
    requires Leftmost(p, s, |s|, sp)
    ensures sp == []
  {
  }

  /** A leftmost reading whose first span begins at `i` has the match at `i` first. */
  lemma LeftmostFirst(p: Pattern, s: string, i: nat, sp: seq<(nat, nat)>)
    requires Leftmost(p, s, i, sp) && sp != [] && sp[0].0 == i
    ensures MatchStart(p, s, i) && sp[0] == (i, MatchEnd(p, s, i))
    ensures Leftmost(p, s, MatchEnd(p, s, i), sp[1..])
  {
  }

  /** A leftmost reading from `i` whose first span does not begin at `i` has no match at
      `i` and is a leftmost reading from `i + 1`. */
  lemma LeftmostNotFirst(p: Pattern, s: string, i: nat, sp: seq<(nat, nat)>)
    requires i < |s| && Leftmost(p, s, i, sp) && (sp == [] || sp[0].0 != i)
    ensures !MatchStart(p, s, i) && Leftmost(p, s, i + 1, sp)
  {
    LeftmostSkip(p, s, i, sp);
  }

  lemma SpansCons(p: Pattern, s: string, i: nat, sp: seq<(nat, nat)>)
    requires i < |s| && MatchStart(p, s, i) && sp != []
    requires sp[0] == (i, MatchEnd(p, s, i)) && sp[1..] == Spans(p, s, MatchEnd(p, s, i))
    ensures sp == Spans(p, s, i)
  {
    SpansAtMatch(p, s, i);
    assert sp == [sp[0]] + sp[1..];
  }

  lemma {:induction false} LeftmostIsSpans(p: Pattern, s: string, i: nat, sp: seq<(nat, nat)>)
    requires i <= |s| && Leftmost(p, s, i, sp)
    ensures sp == Spans(p, s, i)
    decreases |s| - i
  {
    if i == |s| {
      LeftmostAtEnd(p, s, sp);
    } else if sp != [] && sp[0].0 == i {
      LeftmostFirst(p, s, i, sp);
      LeftmostIsSpans(p, s, MatchEnd(p, s, i), sp[1..]);
      SpansCons(p, s, i, sp);
    } else {
      LeftmostNotFirst(p, s, i, sp);
      LeftmostIsSpans(p, s, i + 1, sp);
      SpansSkip(p, s, i);
    }
  }

  /** The scan is exactly the leftmost, non-overlapping, longest-run reading of the pattern. */
  lemma ScanIsLeftmost(p: Pattern, s: string, sp: seq<(nat, nat)>)
    ensures Leftmost(p, s, 0, sp) <==> sp == Spans(p, s, 0)
  {
    if Leftmost(p, s, 0, sp) {
      LeftmostIsSpans(p, s, 0, sp);
    }
    if sp == Spans(p, s, 0) {
      SpansAreLeftmost(p, s, 0);
    }
  }

  /** The scheme's own characters are all allowed by the character class. */
  lemma SchemeNotStop(p: Pattern, s: string, i: nat, k: nat)
    requires SchemeAt(p, s, i) > 0 && k < SchemeAt(p, s, i)
    ensures !Stop(p, s[i + k])
  {
    var scheme := if p.VlessLink? then VlessScheme
                  else if StartsWithAt(s, i, "https://") then "https://" else "http://";
    assert s[i..i + |scheme|] == scheme;
    assert s[i + k] == scheme[k];
  }

  /** Seen from the start of a slice that keeps at least eight characters, the scheme test
      gives what it gives at the slice's start in the whole string. */
  lemma SchemeAtSlice(p: Pattern, s: string, b: nat, e: nat)
    requires b + 8 <= e <= |s|
    ensures SchemeAt(p, s[b..e], 0) == SchemeAt(p, s, b)
  {
    var m := s[b..e];
    assert m[..8] == s[b..b + 8];
    assert m[..7] == s[b..b + 7];
  }

  /** The text of a match begins with the scheme, has at least one character after it, and
      contains no refused character. */
  lemma MatchShape(p: Pattern, s: string, b: nat)
    requires MatchStart(p, s, b)
    ensures var m := s[b..MatchEnd(p, s, b)];
      SchemeAt(p, m, 0) > 0 && SchemeAt(p, m, 0) < |m|
      && forall j :: 0 <= j < |m| ==> !Stop(p, m[j])
  {
    var e := MatchEnd(p, s, b);
    var m := s[b..e];
    var n := SchemeAt(p, s, b);
    SchemeAtSlice(p, s, b, e);
    forall j | 0 <= j < |m| ensures !Stop(p, m[j]) {
      assert m[j] == s[b + j];
      if j < n {
        SchemeNotStop(p, s, b, j);
      }
    }
  }

  /** Every match begins with the pattern's scheme, has at least one character after it,
      and contains no refused character (in particular no white space). */
  lemma FindAllShape(p: Pattern, s: string, k: nat)
    requires k < |FindAll(p, s)|
    ensures var m := FindAll(p, s)[k];
      SchemeAt(p, m, 0) > 0 && SchemeAt(p, m, 0) < |m|
      && forall j :: 0 <= j < |m| ==> !Stop(p, m[j])
  {
    var sp := Spans(p, s, 0);
    SpansAreLeftmost(p, s, 0);
    LeftmostAt(p, s, 0, sp, k);
    assert FindAll(p, s)[k] == s[sp[k].0..sp[k].1];
    MatchShape(p, s, sp[k].0);
  }

  /** Each span of a leftmost reading is a match that ends where its run ends. */
  lemma {:induction false} LeftmostAt(p: Pattern, s: string, i: nat, sp: seq<(nat, nat)>, k: nat)
    requires Leftmost(p, s, i, sp) && k < |sp|
    ensures MatchStart(p, s, sp[k].0) && sp[k].1 == MatchEnd(p, s, sp[k].0)
    decreases k
  {
    if k > 0 {
      LeftmostAt(p, s, sp[0].1, sp[1..], k - 1);
    }
  }

  /** Matches have no white space, so Python's `strip()` leaves them as they are. */
  lemma FindAllStripped(s: string, k: nat)
    requires k < |FindAll(VlessLink(Python), s)|
    ensures Strip(FindAll(VlessLink(Python), s)[k]) == FindAll(VlessLink(Python), s)[k]
    ensures FindAll(VlessLink(Python), s)[k] != []
  {
    FindAllShape(VlessLink(Python), s, k);
    var m := FindAll(VlessLink(Python), s)[k];
    assert !Stop(VlessLink(Python), m[0]) && !Stop(VlessLink(Python), m[|m| - 1]);
    StripNoSpaceEnds(m);
  }
}
