/** `FastAggregator` of fast_aggregator.py: choosing the subscription URLs from the body of
    the source document, and merging the per-source batches under the overall cap. */
module Aggregator {
  import opened Wrappers
  import opened Strings
  import opened Seqs
  import opened Links

  /** `valid_urls[:20]` */
  const MaxSources: nat := 20
  /** The running total the merge loop stops after exceeding. */
  const MaxConfigs: nat := 150

  /** `url.rstrip('\\n').rstrip('\\')`: the first argument is the two characters backslash
      and `n`, so every trailing backslash and every trailing letter `n` goes; the second
      pass then has nothing left to remove. */
  function CleanUrl(u: string): string {
    RStrip(RStrip(u, {'\\', 'n'}), {'\\'})
  }

  function Cleaned(urls: seq<string>): (r: seq<string>)
    ensures |r| == |urls|
  {
    seq(|urls|, k requires 0 <= k < |urls| => CleanUrl(urls[k]))
  }

  /** One of the three code-hosting names occurs in the URL; case-sensitive. */
  predicate OnCodeHost(u: string) {
    Contains(u, "github") || Contains(u, "raw.githubusercontent") || Contains(u, "gitlab")
  }

  /** One of the three keywords occurs in the lower-cased URL. */
  predicate HasKeyword(u: string) {
    var low := AsciiLower(u);
    Contains(low, "vless") || Contains(low, "v2ray") || Contains(low, "sub")
  }

  predicate Accept(u: string) {
    OnCodeHost(u) && HasKeyword(u)
  }

  /** The list `get_source_urls` returns for the fetched body, None standing for a failed
      request or a status other than 200. */
  function SourceUrls(body: Option<string>): seq<string> {
    match body
    case None => []
    case Some(b) => Take(Filter(Cleaned(FindAll(WebUrl(Python), b)), Accept), MaxSources)
  }

  /** The filtering half of `get_source_urls`: scan the body for URLs, clean each one, keep
      those that pass both tests, and return the first twenty. */
  method GetSourceUrls(body: Option<string>) returns (urls: seq<string>)
    ensures urls == SourceUrls(body)
  {
    if body.None? {
      return [];
    }
    var found := FindAll(WebUrl(Python), body.value);
    var valid: seq<string> := [];
    var i := 0;
    while i < |found|
      invariant 0 <= i <= |found|
      invariant valid == Filter(Cleaned(found[..i]), Accept)
    {
      var url := CleanUrl(found[i]);
      SelectStep(found, i);
      if Accept(url) {
        valid := valid + [url];
      }
      i := i + 1;
    }
    assert found[..i] == found;
    urls := Take(valid, MaxSources);
  }

  /** One iteration of the loop: the cleaned URL is appended exactly when it passes. */
  lemma SelectStep(found: seq<string>, i: nat)
    requires i < |found|
    ensures Filter(Cleaned(found[..i + 1]), Accept)
         == Filter(Cleaned(found[..i]), Accept) + (if Accept(CleanUrl(found[i])) then [CleanUrl(found[i])] else [])
  {
    var url := CleanUrl(found[i]);
    assert Cleaned(found[..i + 1]) == Cleaned(found[..i]) + [url];
    FilterAppend(Cleaned(found[..i]), [url], Accept);
    assert Filter([url], Accept) == (if Accept(url) then [url] else []) + Filter([url][1..], Accept);
  }

  /** The second `rstrip` never removes anything, and what the first removes is a run of
      backslashes and letters `n`. */
  lemma CleanUrlSpec(u: string)
    ensures CleanUrl(u) == RStrip(u, {'\\', 'n'})
    ensures StartsWith(u, CleanUrl(u))
    ensures forall k :: |CleanUrl(u)| <= k < |u| ==> u[k] == '\\' || u[k] == 'n'
    ensures CleanUrl(u) == [] || (CleanUrl(u)[|CleanUrl(u)| - 1] != '\\' && CleanUrl(u)[|CleanUrl(u)| - 1] != 'n')
  {
    var r := RStrip(u, {'\\', 'n'});
    assert r == [] || r[|r| - 1] !in {'\\'};
  }

  /** A URL ending in the letter `n` loses it, and every `n` before it up to the first
      other character: `.../main` is requested as `.../mai`. */
  lemma CleanUrlDropsFinalN(w: string, c: char)
    requires c != '\\' && c != 'n'
    ensures CleanUrl(w + [c] + ['n']) == w + [c]
  {
    var u := w + [c] + ['n'];
    assert u[..|u| - 1] == w + [c];
    assert RStrip(u, {'\\', 'n'}) == w + [c];
    CleanUrlSpec(u);
  }

  /** The returned URLs: the first twenty cleaned scanned URLs that pass both tests, in scan
      order and with repeats kept; when no more than twenty pass, exactly the cleaned URLs
      that pass, each as often as it is scanned. A failed fetch gives none. */
  lemma SourceUrlsSpec(body: Option<string>)
    ensures var r := SourceUrls(body);
      |r| <= MaxSources
      && (body.None? ==> r == [])
      && (body.Some? ==>
            var cleaned := Cleaned(FindAll(WebUrl(Python), body.value));
            var all := Filter(cleaned, Accept);
            IsSubseq(r, cleaned)
            && (forall i :: 0 <= i < |r| ==> Accept(r[i]))
            && |r| == (if |all| <= MaxSources then |all| else MaxSources)
            && r == all[..|r|]
            && (|all| <= MaxSources ==>
                  (forall u :: u in r <==> u in cleaned && Accept(u))
                  && (forall u :: multiset(r)[u] == if Accept(u) then multiset(cleaned)[u] else 0)))
  {
    if body.Some? {
      var cleaned := Cleaned(FindAll(WebUrl(Python), body.value));
      var all := Filter(cleaned, Accept);
      var r := SourceUrls(body);
      FilterSubseq(cleaned, Accept);
      TakeSubseq(all, MaxSources);
      SubseqTrans(r, all, cleaned);
      forall i | 0 <= i < |r| ensures Accept(r[i]) {
        assert r[i] == all[i];
        FilterMembers(cleaned, Accept, all[i]);
      }
      forall u ensures |all| <= MaxSources ==> (u in r <==> u in cleaned && Accept(u)) {
        FilterMembers(cleaned, Accept, u);
      }
      forall u ensures |all| <= MaxSources ==>
        multiset(r)[u] == if Accept(u) then multiset(cleaned)[u] else 0
      {
        FilterCount(cleaned, Accept, u);
      }
    }
  }

  // ---------------------------------------------------------------------------------
  // Merging the batches

  /** The number of batches the loop consumes when it has already consumed `i` of them:
      it stops after the first batch that takes the total over `MaxConfigs`, or at the
      end. */
  function TakenFrom(batches: seq<seq<string>>, i: nat): (k: nat)
    requires i <= |batches|
    ensures i <= k <= |batches|
    decreases |batches| - i
  {
    if i == |batches| || |Flatten(batches[..i])| > MaxConfigs then i
    else TakenFrom(batches, i + 1)
  }

  function Taken(batches: seq<seq<string>>): nat {
    TakenFrom(batches, 0)
  }

  /** The merge loop of `fetch_configs_parallel`, with the batches in the order in which
      their fetches complete (a failed fetch is an empty batch). */
  method FetchConfigsParallel(batches: seq<seq<string>>) returns (all: seq<string>)
    ensures all == Flatten(batches[..Taken(batches)])
  {
    all := [];
    var i := 0;
    while i < |batches|
      invariant 0 <= i <= |batches|
      invariant all == Flatten(batches[..i])
      invariant |all| <= MaxConfigs
      invariant TakenFrom(batches, i) == Taken(batches)
    {
      FlattenSnoc(batches[..i], batches[i]);
      assert batches[..i + 1] == batches[..i] + [batches[i]];
      all := all + batches[i];
      i := i + 1;
      if |all| > MaxConfigs {
        break;
      }
    }
  }

  /** The loop takes a prefix of the batches; every batch before the last one taken leaves
      the total at or below the cap; when batches are left over, the total is above the
      cap; and it is above the cap by less than the last batch taken. */
  lemma {:induction false} TakenSpec(batches: seq<seq<string>>)
    ensures var k := Taken(batches);
      k <= |batches|
      && (forall j :: 0 <= j < k ==> |Flatten(batches[..j])| <= MaxConfigs)
      && (k < |batches| ==> |Flatten(batches[..k])| > MaxConfigs)
      && (k > 0 ==> |Flatten(batches[..k])| <= MaxConfigs + |batches[k - 1]|)
  {
    TakenFromSpec(batches, 0);
    var k := Taken(batches);
    if k > 0 {
      FlattenSnoc(batches[..k - 1], batches[k - 1]);
      assert batches[..k] == batches[..k - 1] + [batches[k - 1]];
    }
  }

  lemma {:induction false} TakenFromSpec(batches: seq<seq<string>>, i: nat)
    requires i <= |batches|
    requires forall j :: 0 <= j < i ==> |Flatten(batches[..j])| <= MaxConfigs
    ensures var k := TakenFrom(batches, i);
      (forall j :: 0 <= j < k ==> |Flatten(batches[..j])| <= MaxConfigs)
      && (k < |batches| ==> |Flatten(batches[..k])| > MaxConfigs)
    decreases |batches| - i
  {
    if i < |batches| && |Flatten(batches[..i])| <= MaxConfigs {
      TakenFromSpec(batches, i + 1);
    }
  }

  /** The cap is not a bound on the result: a first batch that is over the cap on its own
      is returned whole. */
  lemma OverCapBatch(batches: seq<seq<string>>)
    requires |batches| > 0 && |batches[0]| > MaxConfigs
    ensures Taken(batches) == 1
    ensures Flatten(batches[..Taken(batches)]) == batches[0]
  {
    assert batches[..0] == [];
    assert batches[..1] == [batches[0]];
    FlattenSnoc([], batches[0]);
    assert TakenFrom(batches, 1) == 1;
    assert TakenFrom(batches, 0) == TakenFrom(batches, 1);
  }
}
