# SHΞN™ V2Ray subscription aggregator — a verified model

The aggregator turns fetched subscription text into a deduplicated, relabelled list of
`vless://` links. It exists twice:

- `fast_aggregator.py`, the full Python version:
  - `FastGeoIP` maps an address to a flag through an ordered prefix table and memoises the
    answer in a dictionary.
  - `FastV2RayProcessor` finds the host of a link, chooses its flag, and rewrites the label
    after the first `#` to `SHΞN™ <flag>`.
  - `process_subscription_content` decodes a fetched body if it can, scans it for links and
    drops every link whose base (the text before the first `#`) was already emitted in this
    run. The set of bases seen persists across calls.
  - `FastAggregator` picks up to twenty subscription URLs from the source document. It merges
    the per-source batches and stops once the total passes 150.
- `cloudflare-worker.js`, the reduced edge-worker version:
  - it keeps at most ten URLs;
  - it rewrites every label to the fixed `#SHΞN™ 🏳️`;
  - it flattens the per-source lists in the order the sources were listed;
  - it removes duplicates through a `Set`.

The Dafny modules follow that structure:

| module | file | models |
|---|---|---|
| `Wrappers`, `Strings` | strings.dfy | Python's `None`; `startswith`, `in`, `split('#')[0]`, `rstrip`, `strip`, `lower`; the two `\s` classes; a dot-separated split that serves the dotted-quad regex `^\d+\.\d+\.\d+\.\d+$` |
| `Seqs` | seqs.dfy | `extend`/`flat`, slicing, filtering, first-occurrence dedup |
| `Links` | links.dfy | the `findall` / `match(/…/g)` scans for `vless://…` and `https?://…`, and the decode fallback |
| `GeoIP` | geoip.dfy | `FastGeoIP` as a class whose `cache` is a `map` field |
| `Processor` | processor.dfy | `extract_ip_from_vless`, `create_remark` and `update_vless_remark` as functions; `FastV2RayProcessor` as a class whose `processed` set is a field |
| `Aggregator` | aggregator.dfy | the URL filtering of `get_source_urls`; the merge loop of `fetch_configs_parallel` |
| `Worker` | worker.dfy | the pure fragments of the worker's `fetch` handler |

Some operations change state in the source: the cache, the processed set, the URL-filter loop
and the merge loop. The model writes these as methods with `while` loops. Each method is
proved equal to a specification function, and the lemmas state what the source promises
about that function.

Three points where the code's behaviour is not what a reader might expect. The model follows
the code in each.

- **The "already a flag" branch is never taken.** `create_remark` tests whether the value
  starts with U+FFFD, the replacement character. None of the five heuristic flags does, and
  neither does an address. So a host classified by a domain heuristic (`.ir`, `.de`, …) has
  its flag passed to `get_country_flag`. None of the table's prefixes matches a flag, so the
  link gets the white flag, and the white flag is cached under the flag string.
  `Processor.SentinelNeverTaken` and `Processor.HeuristicHostLink` state this.
- **The merge can return more than 150 links.** The comment above the test
  (fast_aggregator.py:232) calls it a limit on the total. The loop checks the total only after it has appended a whole batch, so the
  result can exceed 150 by up to one batch. `Aggregator.TakenSpec` bounds the excess and
  `Aggregator.OverCapBatch` shows a case where it happens.
- **URL cleaning drops final `n`s.** `rstrip('\\n')` strips the two characters backslash and
  `n`, not a newline. So scanned URLs lose every trailing letter `n`: a URL ending in `/main`
  is requested as `/mai` (`Aggregator.CleanUrlDropsFinalN`).

## Model

| member | source | states |
|---|---|---|
| Links.Spans | fast_aggregator.py:149-150 | Definition of the scan: from position `i`, a match that begins there is reported with its greedy end and the scan resumes at that end; otherwise the scan moves one character on. Every span it reports lies inside the text. |
| Links.FindAll | fast_aggregator.py:199-200 | Definition of `re.findall` (and of the worker's `match` with the `g` flag and its empty fallback) for the two link patterns: the texts of the spans `Spans` reports from position 0, in order. |
| Links.DecodeOr | fast_aggregator.py:141-146 | Definition of the decode fallback: the decoded text when the decoder succeeds, the body unchanged when it raises (also cloudflare-worker.js:45-50). |
| Links.ScanIsLeftmost | fast_aggregator.py:149-150 | The scan's spans are exactly the leftmost, non-overlapping reading of the pattern, each match ending where its run of allowed characters ends, and no match beginning in a gap (both directions). |
| Links.FindAllShape | fast_aggregator.py:199-200 | Every match begins with the pattern's scheme, has at least one character after it, and contains no character the class refuses (white space, new line, and for URLs the backslash). |
| Links.FindAllStripped | fast_aggregator.py:152-154 | `config.strip()` leaves every scanned link unchanged and never empty, so the `if config` test always passes. |
| GeoIP.LookupFlag | fast_aggregator.py:59-69 | Definition of the uncached lookup: the flag of the first `IP_RANGES` entry, in insertion order, whose prefix starts the input, and the white flag U+1F3F3 U+FE0F when none does. |
| GeoIP.LookupFlagFirstMatch | fast_aggregator.py:59-63 | The lookup answers the flag of the first table entry, in table order, whose prefix begins the input. |
| GeoIP.LookupFlagNoMatch | fast_aggregator.py:65-69 | When no prefix matches, the answer is the white flag. |
| GeoIP.LookupFlagNonDigit | fast_aggregator.py:59-69 | The input is not checked to be an address: any string whose first character is not a digit (a flag, say) gets the white flag. |
| GeoIP.LookupFromRange | fast_aggregator.py:37-46 | Every answer is the US flag, the EU flag or the white flag. |
| GeoIP.FastGeoIP.constructor | fast_aggregator.py:48-50 | The cache starts empty. |
| GeoIP.FastGeoIP.GetCountryFlag | fast_aggregator.py:52-69 | A cached key is answered from the cache unchanged. Otherwise the answer is the first matching prefix's flag, or the white flag. Afterwards the cache maps the key to the answer, and no other entry is added or changed. Every cached value stays the table's answer for its key. |
| Processor.HostAt | fast_aggregator.py:86-90 | Definition of the host pattern at one position: `vless://`, then up to the first `@` (at least one character), then up to the first `:` (at least one character), whose text is the host. The host it returns is non-empty and holds no `:`. |
| Processor.SearchHost | fast_aggregator.py:86-90 | Definition of `re.search` for the host pattern: the host read at the first position where the pattern matches, or None. |
| Processor.SearchHostLeftmost | fast_aggregator.py:86-90 | `re.search` gives `h` if and only if the pattern reads `h` at some position and matches at no earlier position. A match need not begin at position 0. |
| Processor.QuadMatch | fast_aggregator.py:93 | Definition of the dotted-quad test: four non-empty ASCII digit runs joined by three dots, where Python's `$` also admits one final new line. |
| Processor.DomainFlag | fast_aggregator.py:97-108 | Definition of the domain heuristics, tried in source order: `.ir`; `.de` or `germany`; `.fr` or `france`; `.nl` or `netherlands`; `.us` or `usa`, the keywords tested on the lower-cased host. Each gives its country's flag, and None when no test passes. |
| Processor.ExtractIp | fast_aggregator.py:79-111 | Definition of `extract_ip_from_vless`: None unless the input starts with `vless://` and the host pattern matches; then the host when it is a dotted quad, else the domain heuristics' answer. |
| Processor.Remark | fast_aggregator.py:113-125 | Definition of `create_remark`'s value: the brand followed by the table's flag for a non-empty extracted value, the extracted value itself when it starts with U+FFFD, and the white flag when nothing was extracted. |
| Processor.Relabel | fast_aggregator.py:127-132 | Definition of `update_vless_remark`'s value: the text before the first `#`, then `#`, then the remark computed from the whole link. |
| Processor.HostAtIff | fast_aggregator.py:86-90 | At a position, the host pattern reads `h` if and only if the text there is `vless://`, a non-empty `@`-free user part, `@`, a non-empty `:`-free host `h`, then `:`. |
| Processor.HostOfLink | fast_aggregator.py:86-90 | `re.search` on a link of that form returns its host. |
| Processor.SearchNoAt | fast_aggregator.py:86-88 | Text without `@` has no host. |
| Processor.ExtractIpNotLink | fast_aggregator.py:82-83 | Input not starting with `vless://` gives None, and so the white-flag label. |
| Processor.ExtractIpOfLink | fast_aggregator.py:90-108 | For a link of the form, the result is the host itself when it is four dot-separated digit runs (a trailing new line allowed, as Python's `$` allows). Otherwise it is the result of the ordered domain tests, or None. |
| Processor.DottedQuadOf | fast_aggregator.py:93-94 | Four digit runs joined by dots form a dotted quad. |
| Processor.DottedQuadDigit | fast_aggregator.py:93-94 | A dotted quad is non-empty and starts with a digit. |
| Processor.SentinelNeverTaken | fast_aggregator.py:115-123 | No result of `extract_ip_from_vless` starts with U+FFFD. Every result is a dotted quad starting with a digit, or one of the five heuristic flags. |
| Processor.RemarkSpec | fast_aggregator.py:113-125 | The label is the brand followed by the table's flag when the host is a dotted quad, and by the white flag otherwise. The key passed to `get_country_flag` is the value `extract_ip_from_vless` returned. |
| Processor.RemarkNoHash | fast_aggregator.py:113-125 | The label contains no `#`. It is the brand followed by the US, EU or white flag. |
| Processor.RelabelShape | fast_aggregator.py:127-132 | The relabelled link has exactly one `#`. Its base equals the original's base. The text after the `#` is the label computed from the original. |
| Processor.RelabelQuadLink | fast_aggregator.py:127-132 | For a link with a dotted-quad host, the old label is dropped and the new one carries the table's flag for the host. |
| Processor.LookupOne | fast_aggregator.py:38 | 1.1.1.1 is a dotted quad and gets the US flag. |
| Processor.RemarkQuadLink | fast_aggregator.py:113-123 | A link with a dotted-quad host is labelled with the table's flag for that host. |
| Processor.RemarkNoAt | fast_aggregator.py:113-125 | Text without `@` is labelled with the white flag. |
| Processor.RemarkUsesWholeLink | fast_aggregator.py:130-131 | The label is computed from the whole link, not from its base. When the `@` and the host come after the first `#`, the link gets the host's flag, while its base alone would get the white flag. |
| Processor.HeuristicHostLink | fast_aggregator.py:97-123 | A host that is not a dotted quad gets the white flag. If a domain test catches it, the cache gains the entry from that flag string to the white flag; otherwise the cache is unchanged. |
| Processor.NewLinks | fast_aggregator.py:148-161 | Definition of the links one call keeps: the scan of the decoded-or-raw body, keeping each link whose base is neither in the seen set nor the base of an earlier kept link. |
| Processor.NewLinksSpec | fast_aggregator.py:148-161 | The links kept are scanned links whose bases were not seen before, pairwise different in base, in text order: ordered by where each first occurs in the scan, also when a link repeats word for word. The first link of every new base is kept. The seen set grows by exactly the bases of all scanned links. |
| Processor.OutputBasesDistinct | fast_aggregator.py:152-161 | The emitted links have pairwise different bases, none of them seen before the call. |
| Processor.SecondCallEmpty | fast_aggregator.py:156-161 | A second call with the same content returns nothing. |
| Processor.CrossCallDistinct | fast_aggregator.py:156-161 | Two consecutive calls emit together what one pass over both scans would keep, and no base twice. |
| Seqs.KeepNewAppend | fast_aggregator.py:156-161 | Deduplicating a concatenation means deduplicating the first part, then the second part against everything seen so far. |
| Processor.FastV2RayProcessor.constructor | fast_aggregator.py:74-77 | The processor starts with an empty seen set and a fresh, empty lookup cache. |
| Processor.FastV2RayProcessor.CreateRemark | fast_aggregator.py:113-125 | The result is the label the code specifies. The cache changes exactly as one `get_country_flag` call on the extracted value changes it, or not at all when that value is None. |
| Processor.FastV2RayProcessor.UpdateVlessRemark | fast_aggregator.py:127-134 | The result is the base, `#`, then the label. The cache changes as in `create_remark`. |
| Processor.FastV2RayProcessor.ProcessSubscriptionContent | fast_aggregator.py:136-166 | The result is the relabelled form, in text order, of each scanned link whose base is new. The seen set becomes the old set plus exactly those bases. The cache ends as if those links were relabelled one after another. |
| Processor.FastV2RayProcessor.FetchSubscription | fast_aggregator.py:168-182 | A failed fetch or a non-200 status returns nothing and changes no state. Otherwise the result is that of processing the body. |
| Aggregator.CleanUrl | fast_aggregator.py:205 | Definition of the cleaning step: strip every trailing backslash and `n`, then every trailing backslash. |
| Aggregator.Accept | fast_aggregator.py:206-207 | Definition of the URL filter: the URL contains `github`, `raw.githubusercontent` or `gitlab`, and its lower-cased text contains `vless`, `v2ray` or `sub`. |
| Aggregator.SourceUrls | fast_aggregator.py:191-216 | Definition of `get_source_urls`' value: `[]` for a failed fetch; otherwise the scanned URLs, cleaned, filtered by `Accept`, and cut to the first twenty. |
| Aggregator.GetSourceUrls | fast_aggregator.py:191-216 | The loop returns the first twenty cleaned scanned URLs that pass both tests, and nothing for a failed fetch. |
| Aggregator.SourceUrlsSpec | fast_aggregator.py:203-211 | A failed fetch gives none. Otherwise the result is the first `min(20, n)` of the `n` cleaned scanned URLs that pass both tests, in scan order with repeats kept: a prefix of that list and of exactly that length. When no more than twenty pass, each cleaned URL that passes appears exactly as often as it is scanned, and nothing else appears. |
| Aggregator.CleanUrlSpec | fast_aggregator.py:205 | The second `rstrip` removes nothing. The cleaned URL is a prefix of the scanned URL, what was removed consists only of backslashes and `n`s, and the cleaned URL does not end in either. |
| Aggregator.CleanUrlDropsFinalN | fast_aggregator.py:205 | A URL ending in a letter `n` loses it (`…/main` becomes `…/mai`). |
| Aggregator.FetchConfigsParallel | fast_aggregator.py:218-239 | The result is the concatenation of the batches, in completion order, up to the one after which the loop stops. |
| Aggregator.Taken | fast_aggregator.py:229-234 | Definition of where the merge loop stops: the number of batches taken up to and including the first one after which the running total exceeds 150, or all of them. |
| Aggregator.TakenSpec | fast_aggregator.py:229-234 | The loop takes a prefix of the batches, and before the last batch taken the total is at most 150. When batches are left over, the total is above 150. The total exceeds 150 by at most the size of the last batch taken. |
| Aggregator.OverCapBatch | fast_aggregator.py:232-234 | A first batch larger than 150 is returned whole, so the result can exceed 150. |
| Worker.WorkerUrls | cloudflare-worker.js:26-30 | Definition of the worker's URL list: the scanned URLs that contain `github` and also `vless` or `v2ray` (case-sensitive), cut to the first ten. |
| Worker.Rebrand | cloudflare-worker.js:56-59 | Definition of the worker's relabelling: the text before the first `#` followed by the fixed label `#SHΞN™ 🏳️`. |
| Worker.SourceConfigs | cloudflare-worker.js:42-64 | Definition of one source's contribution: `[]` when the fetch failed or was not ok; otherwise every link scanned in the decoded-or-raw body, relabelled, in text order. |
| Worker.AllConfigs | cloudflare-worker.js:67-68 | Definition of `results.flat()`: the sources' contributions concatenated in `validUrls` order. |
| Worker.UniqueConfigs | cloudflare-worker.js:71 | Definition of `[...new Set(allConfigs)]`: the flattened links with later repeats removed. |
| Worker.Published | cloudflare-worker.js:26-71 | Definition of the links the worker publishes: the selected URLs, each fetched by its own request (the fetch parameter takes the URL's position as well as the URL), then the contributions flattened and deduplicated. |
| Worker.WorkerUrlsSpec | cloudflare-worker.js:26-30 | The first `min(10, n)` of the `n` scanned URLs that pass the case-sensitive test (`github`, and `vless` or `v2ray`), each unmodified, in scan order with repeats kept: a prefix of that list and of exactly that length. When no more than ten pass, each URL that passes appears exactly as often as it is scanned, and nothing else appears. |
| Worker.RebrandShape | cloudflare-worker.js:56-59 | A relabelled link has exactly one `#`, which starts the fixed label, and the base of the original. |
| Worker.RebrandCollapse | cloudflare-worker.js:57-58 | Two links give the same output if and only if their bases are equal. |
| Worker.SourceConfigsSpec | cloudflare-worker.js:42-64 | A failed or not-ok fetch contributes nothing. Otherwise the source gives one link per match of the body (decoded when `atob` succeeds), in text order: the match's base, starting with `vless://`, then the fixed label. No geo lookup is applied. |
| Worker.AllConfigsAppend | cloudflare-worker.js:67-68 | The flattened list follows the order in which the sources were listed. |
| Worker.AllConfigsMembers | cloudflare-worker.js:67-68 | A link is in the flattened list if and only if some source contributed it. |
| Worker.AllConfigsShape | cloudflare-worker.js:56-68 | Every link in the flattened list is its base followed by the fixed label. |
| Worker.UniqueConfigsSpec | cloudflare-worker.js:70-71 | The published list keeps first occurrences in order of first occurrence and holds exactly the distinct links of all sources. No two of its links share a base. |
| Seqs.DistinctSpec | cloudflare-worker.js:71 | `[...new Set(xs)]` has no duplicates, is a subsequence of `xs` in first-occurrence order, and holds exactly the elements of `xs`. |
| Worker.PublishedSpec | cloudflare-worker.js:26-71 | A link is published if and only if one of the selected URLs was fetched successfully and contributed it. |

## Left out

- HTTP I/O (`requests.get`, `fetch`, status codes, timeouts, User-Agent headers). Each fetch
  result is an input, `Option<string>`, where None stands for a failed request or a status
  other than 200 (not ok in the worker). The worker's fetches are a function parameter of the position in `validUrls` and the URL, so
  a URL listed twice is fetched twice and the two requests may fare differently.
- Concurrency: the thread pool, both locks, `as_completed` and its 60-second `TimeoutError`,
  executor shutdown, and `Promise.all` scheduling. The merge takes the batches as a sequence
  in completion order. An exception from `future.result()` cannot occur, because
  `fetch_subscription` catches everything itself.
- Decoding libraries. `base64.b64decode` with UTF-8 decoding (`errors='ignore'`) and the
  worker's `atob` are opaque parameters of type `string -> Option<string>`. None stands for
  the exception.
- Python's `hash()` as the dedup key: the key is the base string itself, so hash collisions
  are not modelled.
- `generate_subscription_file`, the worker's metadata, redirect script and timestamp, `main`,
  logging, CORS/OPTIONS handling and `Response` construction.
- The worker's fetch of its own source document and the catch-all 500 response: the source
  text is an input.
- `FastAggregator.__init__` and `source_url`: the source body is given directly to
  `GetSourceUrls`, which changes no state and is written as a module-level method.
- Unicode details of the regexes and of `lower()`:
  - `\d` is the ASCII digits.
  - The `\s` classes are fixed sets: `str.isspace` for Python, ECMAScript white space and
    line terminators for the worker.
  - `lower()` lowers ASCII letters only. Only two non-ASCII characters lower to text that
    holds an ASCII letter: U+212A (Kelvin sign) lowers to `k`, and U+0130 lowers to the two
    code points `i` and U+0307. No keyword contains `k`, `i` or U+0307, so the keyword tests
    are not affected. The worker's strings are UTF-16 in the source and
    sequences of code points here; its regex classes hold no character outside the BMP.
- The `COUNTRY_FLAGS` table: no code reads it.
- The `except` handlers of `extract_ip_from_vless`, `update_vless_remark` and
  `process_subscription_content`: nothing in the modelled bodies raises, so the handlers
  cannot be reached.
