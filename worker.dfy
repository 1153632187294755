/** The pure fragments of the edge worker's `fetch` handler in cloudflare-worker.js: the
    URL filter, the per-source scan with its fixed label, and the flatten-and-dedup of all
    sources' results. */
module Worker {
  import opened Wrappers
  import opened Strings
  import opened Seqs
  import opened Links

  /** `.slice(0, 10)` */
  const MaxSources: nat := 10

  /** `#SHΞN™ ` followed by the white flag: the label every emitted link gets. */
  const FixedLabel: string := "#SH\U{39E}N\U{2122} \U{1F3F3}\U{FE0F}"

  /** The worker's URL test: `github` and one of `vless`, `v2ray`, all case-sensitive. */
  predicate WorkerAccept(u: string) {
    Contains(u, "github") && (Contains(u, "vless") || Contains(u, "v2ray"))
  }

  /** `validUrls`: the scanned URLs, unmodified, that pass the test, the first ten of them. */
  function WorkerUrls(sourceText: string): seq<string> {
    Take(Filter(FindAll(WebUrl(JavaScript), sourceText), WorkerAccept), MaxSources)
  }

  /** `` `${config.split('#')[0]}#SHΞN™ 🏳️` `` */
  function Rebrand(link: string): string {
    Base(link) + FixedLabel
  }

  /** What one source contributes: nothing when its response is not ok or its fetch throws
      (None); otherwise every link of the body, decoded when `atob` accepts it, relabelled. */
  function SourceConfigs(response: Option<string>, atob: string -> Option<string>): seq<string> {
    match response
    case None => []
    case Some(body) =>
      var ms := FindAll(VlessLink(JavaScript), DecodeOr(body, atob));
      seq(|ms|, k requires 0 <= k < |ms| => Rebrand(ms[k]))
  }

  function PerSource(responses: seq<Option<string>>, atob: string -> Option<string>): seq<seq<string>> {
    seq(|responses|, i requires 0 <= i < |responses| => SourceConfigs(responses[i], atob))
  }

  /** `results.flat()`: the sources' contributions in the order of `validUrls`. */
  function AllConfigs(responses: seq<Option<string>>, atob: string -> Option<string>): seq<string> {
    Flatten(PerSource(responses, atob))
  }

  /** `[...new Set(allConfigs)]` */
  function UniqueConfigs(responses: seq<Option<string>>, atob: string -> Option<string>): seq<string> {
    Distinct(AllConfigs(responses, atob))
  }

  /** The links the handler publishes, given the source document's text and the outcome of
      fetching each URL. `fetch(i, url)` is the outcome of the request made for position `i`
      of the selected list, so a URL listed twice is fetched twice and may fare differently. */
  function Published(sourceText: string, fetch: (nat, string) -> Option<string>, atob: string -> Option<string>): seq<string> {
    var urls := WorkerUrls(sourceText);
    UniqueConfigs(seq(|urls|, i requires 0 <= i < |urls| => fetch(i, urls[i])), atob)
  }

  // ---------------------------------------------------------------------------------
  // The URL filter

  /** The first ten scanned URLs that pass the test, each exactly as scanned (nothing is
      stripped), in scan order and with repeats kept; when no more than ten pass, exactly
      those that pass, each as often as it is scanned. */
  lemma WorkerUrlsSpec(sourceText: string)
    ensures |WorkerUrls(sourceText)| <= MaxSources
    ensures IsSubseq(WorkerUrls(sourceText), FindAll(WebUrl(JavaScript), sourceText))
    ensures forall i :: 0 <= i < |WorkerUrls(sourceText)| ==> WorkerAccept(WorkerUrls(sourceText)[i])
    ensures var all := Filter(FindAll(WebUrl(JavaScript), sourceText), WorkerAccept);
      |WorkerUrls(sourceText)| == (if |all| <= MaxSources then |all| else MaxSources)
      && WorkerUrls(sourceText) == all[..|WorkerUrls(sourceText)|]
    ensures |Filter(FindAll(WebUrl(JavaScript), sourceText), WorkerAccept)| <= MaxSources ==>
      forall u :: u in WorkerUrls(sourceText) <==> u in FindAll(WebUrl(JavaScript), sourceText) && WorkerAccept(u)
    ensures |Filter(FindAll(WebUrl(JavaScript), sourceText), WorkerAccept)| <= MaxSources ==>
      forall u :: multiset(WorkerUrls(sourceText))[u]
        == if WorkerAccept(u) then multiset(FindAll(WebUrl(JavaScript), sourceText))[u] else 0
  {
    var found := FindAll(WebUrl(JavaScript), sourceText);
    var all := Filter(found, WorkerAccept);
    var r := WorkerUrls(sourceText);
    FilterSubseq(found, WorkerAccept);
    TakeSubseq(all, MaxSources);
    SubseqTrans(r, all, found);
    forall i | 0 <= i < |r| ensures WorkerAccept(r[i]) {
      assert r[i] == all[i];
      FilterMembers(found, WorkerAccept, all[i]);
    }
    forall u ensures |all| <= MaxSources ==> (u in r <==> u in found && WorkerAccept(u)) {
      FilterMembers(found, WorkerAccept, u);
    }
    forall u ensures |all| <= MaxSources ==>
      multiset(r)[u] == if WorkerAccept(u) then multiset(found)[u] else 0
    {
      FilterCount(found, WorkerAccept, u);
    }
  }

  // ---------------------------------------------------------------------------------
  // The fixed label

  /** A link that begins with the scheme keeps it in its base. */
  lemma BaseKeepsScheme(m: string)
    requires StartsWith(m, VlessScheme)
    ensures StartsWith(Base(m), VlessScheme)
  {
    assert m == VlessScheme + m[8..];
    assert '#' !in VlessScheme;
    BeforeAppend(VlessScheme, m[8..], '#');
  }

  /** A relabelled link has exactly one `#`, which begins the fixed label, and the same base
      as the original. */
  lemma RebrandShape(m: string)
    ensures Base(Rebrand(m)) == Base(m)
    ensures Count(Rebrand(m), '#') == 1
    ensures Rebrand(m) == Base(Rebrand(m)) + FixedLabel
  {
    var b := Base(m);
    var tail := FixedLabel[1..];
    assert FixedLabel == ['#'] + tail;
    assert '#' !in tail;
    assert Rebrand(m) == b + ['#'] + tail;
    IndexOfAfter(b, '#', tail);
    assert Rebrand(m)[..|b|] == b;
    CountAbsent(b, '#');
    CountAppend(b, FixedLabel, '#');
    CountAppend(['#'], tail, '#');
    CountAbsent(tail, '#');
  }

  /** With the label constant, two links become the same output exactly when their bases
      are equal. */
  lemma RebrandCollapse(a: string, b: string)
    ensures Rebrand(a) == Rebrand(b) <==> Base(a) == Base(b)
  {
    RebrandShape(a);
    RebrandShape(b);
  }

  /** One source's contribution: nothing for a failed fetch; otherwise one link per match,
      in text order, each the match's base (which starts with the scheme) followed by the
      fixed label, whatever label the match had. */
  lemma SourceConfigsSpec(response: Option<string>, atob: string -> Option<string>)
    ensures response.None? ==> SourceConfigs(response, atob) == []
    ensures response.Some? ==>
      var ms := FindAll(VlessLink(JavaScript), DecodeOr(response.value, atob));
      |SourceConfigs(response, atob)| == |ms|
      && forall k :: 0 <= k < |ms| ==>
           Base(SourceConfigs(response, atob)[k]) == Base(ms[k])
           && SourceConfigs(response, atob)[k] == Base(ms[k]) + FixedLabel
           && StartsWith(SourceConfigs(response, atob)[k], VlessScheme)
           && Count(SourceConfigs(response, atob)[k], '#') == 1
  {
    if response.Some? {
      var text := DecodeOr(response.value, atob);
      var ms := FindAll(VlessLink(JavaScript), text);
      var r := SourceConfigs(response, atob);
      forall k | 0 <= k < |ms|
        ensures Base(r[k]) == Base(ms[k]) && r[k] == Base(ms[k]) + FixedLabel
             && StartsWith(r[k], VlessScheme) && Count(r[k], '#') == 1
      {
        RebrandShape(ms[k]);
        FindAllShape(VlessLink(JavaScript), text, k);
        assert StartsWith(ms[k], VlessScheme);
        BaseKeepsScheme(ms[k]);
        assert r[k][..8] == Base(ms[k])[..8];
      }
    }
  }

  // ---------------------------------------------------------------------------------
  // Flatten and dedup

  /** The sources' contributions follow the order in which the sources were listed, not the
      order in which their fetches complete. */
  lemma AllConfigsAppend(r1: seq<Option<string>>, r2: seq<Option<string>>, atob: string -> Option<string>)
    ensures AllConfigs(r1 + r2, atob) == AllConfigs(r1, atob) + AllConfigs(r2, atob)
  {
    assert PerSource(r1 + r2, atob) == PerSource(r1, atob) + PerSource(r2, atob);
    FlattenAppend(PerSource(r1, atob), PerSource(r2, atob));
  }

  /** A link is among all the links exactly when some source contributed it. */
  lemma AllConfigsMembers(responses: seq<Option<string>>, atob: string -> Option<string>, x: string)
    ensures x in AllConfigs(responses, atob) <==>
      exists i :: 0 <= i < |responses| && x in SourceConfigs(responses[i], atob)
  {
    FlattenMembers(PerSource(responses, atob), x);
    if x in AllConfigs(responses, atob) {
      var i :| 0 <= i < |PerSource(responses, atob)| && x in PerSource(responses, atob)[i];
      assert x in SourceConfigs(responses[i], atob);
    }
    if exists i :: 0 <= i < |responses| && x in SourceConfigs(responses[i], atob) {
      var i :| 0 <= i < |responses| && x in SourceConfigs(responses[i], atob);
      assert x in PerSource(responses, atob)[i];
    }
  }

  /** Every link a source contributes is its base followed by the fixed label. */
  lemma SourceConfigsShape(response: Option<string>, atob: string -> Option<string>, x: string)
    requires x in SourceConfigs(response, atob)
    ensures x == Base(x) + FixedLabel
  {
    var ms := FindAll(VlessLink(JavaScript), DecodeOr(response.value, atob));
    var k :| 0 <= k < |ms| && x == Rebrand(ms[k]);
    RebrandShape(ms[k]);
  }

  /** Every link of every source is its base followed by the fixed label. */
  lemma AllConfigsShape(responses: seq<Option<string>>, atob: string -> Option<string>, x: string)
    requires x in AllConfigs(responses, atob)
    ensures x == Base(x) + FixedLabel
  {
    AllConfigsMembers(responses, atob, x);
    var i :| 0 <= i < |responses| && x in SourceConfigs(responses[i], atob);
    SourceConfigsShape(responses[i], atob, x);
  }

  /** The published list has no duplicate, keeps first occurrences in order, holds exactly
      the distinct links of all sources, and no two of its links share a base. */
  lemma UniqueConfigsSpec(responses: seq<Option<string>>, atob: string -> Option<string>)
    ensures IsSubseq(UniqueConfigs(responses, atob), AllConfigs(responses, atob))
    ensures forall x :: x in UniqueConfigs(responses, atob) <==> x in AllConfigs(responses, atob)
    ensures forall i, j :: 0 <= i < j < |UniqueConfigs(responses, atob)| ==>
      FirstIndex(AllConfigs(responses, atob), UniqueConfigs(responses, atob)[i])
        < FirstIndex(AllConfigs(responses, atob), UniqueConfigs(responses, atob)[j])
    ensures forall i, j :: 0 <= i < j < |UniqueConfigs(responses, atob)| ==>
      Base(UniqueConfigs(responses, atob)[i]) != Base(UniqueConfigs(responses, atob)[j])
  {
    var all := AllConfigs(responses, atob);
    var u := UniqueConfigs(responses, atob);
    DistinctSpec(all);
    forall i, j | 0 <= i < j < |u| ensures Base(u[i]) != Base(u[j]) {
      AllConfigsShape(responses, atob, u[i]);
      AllConfigsShape(responses, atob, u[j]);
    }
  }

  /** A link is published exactly when one of the selected URLs was fetched and contributed
      it. */
  lemma PublishedSpec(sourceText: string, fetch: (nat, string) -> Option<string>, atob: string -> Option<string>, x: string)
    ensures x in Published(sourceText, fetch, atob) <==>
      exists i :: 0 <= i < |WorkerUrls(sourceText)| && fetch(i, WorkerUrls(sourceText)[i]).Some?
        && x in SourceConfigs(fetch(i, WorkerUrls(sourceText)[i]), atob)
  {
    var urls := WorkerUrls(sourceText);
    var rs := seq(|urls|, i requires 0 <= i < |urls| => fetch(i, urls[i]));
    DistinctMembers(AllConfigs(rs, atob), x);
    AllConfigsMembers(rs, atob, x);
    assert forall i :: 0 <= i < |urls| ==> rs[i] == fetch(i, urls[i]);
  }
}
