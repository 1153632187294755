/** `FastGeoIP` of fast_aggregator.py: a first-match lookup of an address string in an
    ordered table of textual prefixes, memoised in a dictionary. */
module GeoIP {
  import opened Strings

  const FlagUS: string := "\U{1F1FA}\U{1F1F8}"
  const FlagEU: string := "\U{1F1EA}\U{1F1FA}"
  /** The white flag U+1F3F3 followed by variation selector 16, used for "unknown". */
  const WhiteFlag: string := "\U{1F3F3}\U{FE0F}"

  datatype Range = Range(prefix: string, flag: string)

  /** `IP_RANGES`, in the insertion order in which Python iterates it. */
  const IpRanges: seq<Range> := [
    Range("1.1.1.", FlagUS), Range("8.8.8.", FlagUS), Range("104.", FlagUS),
    Range("172.", FlagUS), Range("185.", FlagEU), Range("46.", FlagEU),
    Range("78.", FlagEU), Range("91.", FlagEU)
  ]

  /** The flag of the first entry from index `i` on whose prefix begins `ip`. */
  function LookupFrom(ip: string, i: nat): string
    decreases |IpRanges| - i
  {
    if i >= |IpRanges| then WhiteFlag
    else if StartsWith(ip, IpRanges[i].prefix) then IpRanges[i].flag
    else LookupFrom(ip, i + 1)
  }

  /** What `get_country_flag` answers for `ip` when the cache has no entry for it. */
  function LookupFlag(ip: string): string {
    LookupFrom(ip, 0)
  }

  lemma {:induction false} LookupFromFirstMatch(ip: string, i: nat, k: nat)
    requires i <= k < |IpRanges| && StartsWith(ip, IpRanges[k].prefix)
    requires forall j :: i <= j < k ==> !StartsWith(ip, IpRanges[j].prefix)
    ensures LookupFrom(ip, i) == IpRanges[k].flag
    decreases k - i
  {
    if i < k {
      LookupFromFirstMatch(ip, i + 1, k);
    }
  }

  lemma {:induction false} LookupFromNoMatch(ip: string, i: nat)
    requires forall j :: i <= j < |IpRanges| ==> !StartsWith(ip, IpRanges[j].prefix)
    ensures LookupFrom(ip, i) == WhiteFlag
    decreases |IpRanges| - i
  {
    if i < |IpRanges| {
      LookupFromNoMatch(ip, i + 1);
    }
  }

  /** The flag is that of the first table entry, in table order, whose prefix begins `ip`. */
  lemma LookupFlagFirstMatch(ip: string, k: nat)
    requires k < |IpRanges| && StartsWith(ip, IpRanges[k].prefix)
    requires forall j :: 0 <= j < k ==> !StartsWith(ip, IpRanges[j].prefix)
    ensures LookupFlag(ip) == IpRanges[k].flag
  {
    LookupFromFirstMatch(ip, 0, k);
  }

  /** With no matching prefix the answer is the white flag. */
  lemma LookupFlagNoMatch(ip: string)
    requires forall j :: 0 <= j < |IpRanges| ==> !StartsWith(ip, IpRanges[j].prefix)
    ensures LookupFlag(ip) == WhiteFlag
  {
    LookupFromNoMatch(ip, 0);
  }

  /** Every prefix begins with a digit, so a string that does not (a flag, say) gets the
      white flag: the input is any string and is not checked to be an address. */
  lemma LookupFlagNonDigit(ip: string)
    requires ip == [] || !IsAsciiDigit(ip[0])
    ensures LookupFlag(ip) == WhiteFlag
  {
    forall j | 0 <= j < |IpRanges| ensures !StartsWith(ip, IpRanges[j].prefix) {
      assert IsAsciiDigit(IpRanges[j].prefix[0]);
    }
    LookupFlagNoMatch(ip);
  }

  /** Every answer is one of the table's flags or the white flag. */
  lemma {:induction false} LookupFromRange(ip: string, i: nat)
    ensures LookupFrom(ip, i) in {FlagUS, FlagEU, WhiteFlag}
    decreases |IpRanges| - i
  {
    if i < |IpRanges| && !StartsWith(ip, IpRanges[i].prefix) {
      LookupFromRange(ip, i + 1);
    }
  }

  class FastGeoIP {
    var cache: map<string, string>

    /** Only `GetCountryFlag` writes the cache, and it writes the table's answer. */
    ghost predicate Valid()
      reads this
    {
      forall ip :: ip in cache ==> cache[ip] == LookupFlag(ip)
    }

    constructor ()
      ensures Valid() && cache == map[]
    {
      cache := map[];
    }

    /** `get_country_flag`: a cached answer is returned as it is; otherwise the prefixes are
        tried in table order, and the answer, the white flag when none matches, is cached
        under `ip`. No other entry changes. */
    method GetCountryFlag(ip: string) returns (flag: string)
      requires Valid()
      modifies this
      ensures Valid()
      ensures flag == LookupFlag(ip)
      ensures ip in old(cache) ==> flag == old(cache)[ip]
      ensures cache == old(cache)[ip := flag]
    {
      if ip in cache {
        return cache[ip];
      }
      var i := 0;
      while i < |IpRanges|
        invariant 0 <= i <= |IpRanges|
        invariant LookupFrom(ip, i) == LookupFlag(ip)
        invariant cache == old(cache)
      {
        if StartsWith(ip, IpRanges[i].prefix) {
          flag := IpRanges[i].flag;
          cache := cache[ip := flag];
          return;
        }
        i := i + 1;
      }
      flag := WhiteFlag;
      cache := cache[ip := flag];
    }
  }
}
