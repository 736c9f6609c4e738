/**
 * The region classifier of the batch settlement screen: a free-text address
 * becomes a region keyword, and a '||'-separated address list becomes a
 * per-region count summary such as "부산 2, 김해 1".
 */
module Regions {
  import opened Text
  import opened Seqs

  /** The metropolitan cities that are abbreviated to their first two characters. */
  predicate IsMetro(token: string) {
    Contains(token, "부산") || Contains(token, "울산") || Contains(token, "대구") || Contains(token, "광주")
  }

  /** The provinces whose region is the city or county named by the second token. */
  predicate IsTwoTierProvince(token: string) {
    Contains(token, "경남") || Contains(token, "경상남도") || Contains(token, "경북") || Contains(token, "경상북도")
  }

  /** `parts.map(p => p.trim()).filter(p => p)` */
  function NonEmptyTrimmed(parts: seq<string>): (r: seq<string>)
    ensures |r| <= |parts|
    ensures forall k :: 0 <= k < |r| ==> r[k] != ""
  {
    if parts == [] then []
    else
      var t := Trim(parts[0]);
      var rest := NonEmptyTrimmed(parts[1..]);
      if t == "" then rest else [t] + rest
  }

  /** `address.split(' ').map(p => p.trim()).filter(p => p)`: the address's words. */
  function Tokens(address: string): seq<string> {
    NonEmptyTrimmed(Split(address, " "))
  }

  /** `s.replace('시', '').replace('군', '')`: the FIRST '시', then the first '군', wherever they are. */
  function DropCityCounty(s: string): (r: string)
    ensures |r| <= |s|
    ensures forall c :: c in r ==> c in s
  {
    ReplaceFirst(ReplaceFirst(s, "시", ""), "군", "")
  }

  /** `parseRegionFromAddress(address)` */
  function ParseRegionFromAddress(address: string): (r: string)
  {
    var parts := Tokens(address);
    if parts == [] then ""
    else
      var first := parts[0];
      var second := if |parts| > 1 then parts[1] else "";
      if IsMetro(first) then Take(first, 2)
      else if IsTwoTierProvince(first) then (if second != "" then DropCityCounty(second) else Take(first, 2))
      else DropCityCounty(first)
  }

  /** An empty address, or one made only of spaces, has no region. */
  lemma NoTokensNoRegion(address: string)
    requires Tokens(address) == []
    ensures ParseRegionFromAddress(address) == ""
  {
  }

  /**
   * A metropolitan first word decides the region on its own: two addresses
   * that share it classify alike, as its first two characters.
   */
  lemma MetroIgnoresLaterWords(a: string, b: string)
    requires Tokens(a) != [] && Tokens(b) != [] && Tokens(a)[0] == Tokens(b)[0]
    requires IsMetro(Tokens(a)[0])
    ensures ParseRegionFromAddress(a) == ParseRegionFromAddress(b) == Take(Tokens(a)[0], 2)
    ensures |ParseRegionFromAddress(a)| <= 2
  {
  }

  /** In a two-tier province the second word, stripped of its first '시' and '군', is the region. */
  lemma ProvinceUsesSecondWord(address: string)
    requires |Tokens(address)| >= 2
    requires !IsMetro(Tokens(address)[0]) && IsTwoTierProvince(Tokens(address)[0])
    ensures ParseRegionFromAddress(address) == DropCityCounty(Tokens(address)[1])
  {
  }

  lemma {:induction false} TrimmedHaveNoSpace(parts: seq<string>)
    requires forall j :: 0 <= j < |parts| ==> ' ' !in parts[j]
    ensures forall k :: 0 <= k < |NonEmptyTrimmed(parts)| ==> ' ' !in NonEmptyTrimmed(parts)[k]
  {
    if parts != [] {
      TrimmedHaveNoSpace(parts[1..]);
      if ' ' in Trim(parts[0]) {
        TrimChars(parts[0], ' ');
      }
    }
  }

  /** The words of an address contain no space, so neither does its region. */
  lemma RegionHasNoSpace(address: string)
    ensures ' ' !in ParseRegionFromAddress(address)
  {
    var pieces := Split(address, " ");
    forall j | 0 <= j < |pieces|
      ensures ' ' !in pieces[j]
    {
      ContainsChar(pieces[j], ' ');
    }
    TrimmedHaveNoSpace(pieces);
  }

  /** The words of an address of two space-free words. */
  lemma TwoWords(a: string, b: string)
    requires a != "" && b != "" && ' ' !in a && ' ' !in b
    requires !IsWhite(a[0]) && !IsWhite(a[|a| - 1]) && !IsWhite(b[0]) && !IsWhite(b[|b| - 1])
    ensures Tokens(a + " " + b) == [a, b]
  {
    assert a + " " + b == a + [' '] + b;
    SplitOnChar(a, ' ', b);
    SplitNoSep(b, ' ');
    TrimOfTrimmed(a);
    TrimOfTrimmed(b);
    assert Split(a + " " + b, " ") == [a, b];
    assert [a, b][1..] == [b];
    assert [b][1..] == [];
    assert NonEmptyTrimmed([b]) == [b];
  }

  // ---------------------------------------------------------------------------
  // Region summary

  /** `addrDetail.split('||').map(a => a.trim()).filter(a => a)` */
  function Addresses(addrDetail: string): seq<string> {
    NonEmptyTrimmed(Split(addrDetail, "||"))
  }

  /** The region of each address, in order. */
  function Classify(addrs: seq<string>): seq<string> {
    seq(|addrs|, k requires 0 <= k < |addrs| => ParseRegionFromAddress(addrs[k]))
  }

  /** A region the summary counts: not '', '?' or '-'. */
  predicate Countable(region: string) {
    region != "" && region != "?" && region != "-"
  }

  /** The countable regions of the address list, one per countable address, in address order. */
  function CountedRegions(addrDetail: string): seq<string> {
    Select(Classify(Addresses(addrDetail)), Countable)
  }

  /**
   * The summary counts every countable region as often as addresses classify
   * to it, and nothing else.
   */
  lemma CountedRegionsCounts(addrDetail: string, region: string)
    ensures region in CountedRegions(addrDetail) <==> Countable(region) && region in Classify(Addresses(addrDetail))
    ensures Count(CountedRegions(addrDetail), region)
         == if Countable(region) then Count(Classify(Addresses(addrDetail)), region) else 0
  {
    SelectCount(Classify(Addresses(addrDetail)), Countable, region);
  }

  /** One "region count" entry of the summary. */
  function Entry(region: string, count: nat): string {
    region + " " + NatToString(count)
  }

  /** The entries for `keys`, each with its number of occurrences in `regions`. */
  function EntryTexts(keys: seq<string>, regions: seq<string>): seq<string> {
    seq(|keys|, k requires 0 <= k < |keys| => Entry(keys[k], Count(regions, keys[k])))
  }

  /**
   * The summary text: '-' for an empty or '-' list, otherwise each distinct
   * countable region once, in order of first appearance, with its number of
   * addresses, joined by ", " ('-' if there are none).
   */
  function Summary(addrDetail: string): string {
    if addrDetail == "" || addrDetail == "-" then "-"
    else
      var regions := CountedRegions(addrDetail);
      var text := Join(EntryTexts(Dedup(regions), regions), ", ");
      if text == "" then "-" else text
  }

  /** Sum of the counts of `keys` in `regions`. */
  function CountTotal(keys: seq<string>, regions: seq<string>): nat {
    if keys == [] then 0 else Count(regions, keys[0]) + CountTotal(keys[1..], regions)
  }

  lemma {:induction false} CountTotalSnoc(keys: seq<string>, x: string, regions: seq<string>)
    ensures CountTotal(keys + [x], regions) == CountTotal(keys, regions) + Count(regions, x)
    decreases |keys|
  {
    if keys == [] {
      assert ([] + [x])[1..] == [];
    } else {
      assert (keys + [x])[1..] == keys[1..] + [x];
      CountTotalSnoc(keys[1..], x, regions);
    }
  }

  /** Adding one region raises the count of exactly the keys equal to it. */
  lemma {:induction false} CountTotalAppend(keys: seq<string>, regions: seq<string>, y: string)
    requires NoDuplicates(keys)
    ensures CountTotal(keys, regions + [y]) == CountTotal(keys, regions) + (if y in keys then 1 else 0)
    decreases |keys|
  {
    if keys != [] {
      CountAppend(regions, y, keys[0]);
      CountTotalAppend(keys[1..], regions, y);
      assert y in keys <==> y == keys[0] || y in keys[1..];
    }
  }

  /** Each countable address is counted exactly once: the summary's counts add up to their number. */
  lemma {:induction false} CountsAddUp(regions: seq<string>)
    ensures CountTotal(Dedup(regions), regions) == |regions|
  {
    if regions != [] {
      var init, last := regions[..|regions| - 1], regions[|regions| - 1];
      assert regions == init + [last];
      var keys := Dedup(init);
      CountsAddUp(init);
      CountTotalAppend(keys, init, last);
      if last !in keys {
        CountTotalSnoc(keys, last, regions);
        CountAppend(init, last, last);
        assert Count(init, last) == 0;
      }
    }
  }

  /** The table of the loop: `keys` in first-insertion order, `counts` per key, over `regions`. */
  ghost predicate Tallies(keys: seq<string>, counts: map<string, nat>, regions: seq<string>) {
    && keys == Dedup(regions)
    && (forall x :: x in counts <==> x in keys)
    && (forall x :: x in keys ==> counts[x] == Count(regions, x))
  }

  /** One more region: a known key's count goes up by one, a new key is appended with count 1. */
  lemma TallyStep(keys: seq<string>, counts: map<string, nat>, regions: seq<string>, region: string)
    requires Tallies(keys, counts, regions)
    ensures region in counts ==> Tallies(keys, counts[region := counts[region] + 1], regions + [region])
    ensures region !in counts ==> Tallies(keys + [region], counts[region := 1], regions + [region])
  {
    DedupSnoc(regions, region);
    forall x
      ensures Count(regions + [region], x) == Count(regions, x) + (if region == x then 1 else 0)
    {
      CountAppend(regions, region, x);
    }
    if region in counts {
      assert region in keys;
      assert AddUnique(keys, region) == keys;
    } else {
      assert region !in keys;
      assert AddUnique(keys, region) == keys + [region];
    }
  }

  /** The table after one more region: a known key's count goes up by one, a new key is appended with count 1. */
  function AddToTable(table: (seq<string>, map<string, nat>), region: string): (seq<string>, map<string, nat>) {
    var (keys, counts) := table;
    if region in counts then (keys, counts[region := counts[region] + 1]) else (keys + [region], counts[region := 1])
  }

  /** The table the counting loop builds from `regions`, one region at a time. */
  function TableOf(regions: seq<string>): (seq<string>, map<string, nat>) {
    if regions == [] then ([], map[]) else AddToTable(TableOf(regions[..|regions| - 1]), regions[|regions| - 1])
  }

  /** The incremental table is the reference one: distinct keys in first-appearance order with their counts. */
  lemma {:induction false} TableOfTallies(regions: seq<string>)
    ensures Tallies(TableOf(regions).0, TableOf(regions).1, regions)
  {
    if regions != [] {
      var init, last := regions[..|regions| - 1], regions[|regions| - 1];
      assert regions == init + [last];
      TableOfTallies(init);
      TallyStep(TableOf(init).0, TableOf(init).1, init, last);
    }
  }

  /** The "region count" entries of the table, in key order. */
  function EntriesOf(keys: seq<string>, counts: map<string, nat>): (r: seq<string>)
    requires forall x :: x in keys ==> x in counts
    ensures |r| == |keys|
  {
    seq(|keys|, k requires 0 <= k < |keys| => Entry(keys[k], counts[keys[k]]))
  }

  lemma TalliedEntries(keys: seq<string>, counts: map<string, nat>, regions: seq<string>)
    requires Tallies(keys, counts, regions)
    ensures EntriesOf(keys, counts) == EntryTexts(Dedup(regions), regions)
  {
  }

  /** The counting loop of `summarizeRegions`, over the regions of the addresses in order. */
  method TallyRegions(regions: seq<string>) returns (keys: seq<string>, counts: map<string, nat>)
    ensures (keys, counts) == TableOf(Select(regions, Countable))
  {
    keys, counts := [], map[];
    ghost var counted: seq<string> := [];
    for i := 0 to |regions|
      invariant counted == Select(regions[..i], Countable)
      invariant keys == TableOf(counted).0 && counts == TableOf(counted).1
    {
      var region := regions[i];
      CountedStep(regions, i);
      if Countable(region) {
        TableSnoc(counted, region);
        if region in counts {
          counts := counts[region := counts[region] + 1];
        } else {
          keys := keys + [region];
          counts := counts[region := 1];
        }
        counted := counted + [region];
      }
    }
    assert regions[..|regions|] == regions;
  }

  lemma TableSnoc(regions: seq<string>, region: string)
    ensures TableOf(regions + [region]) == AddToTable(TableOf(regions), region)
  {
    assert (regions + [region])[..|regions|] == regions;
  }

  lemma CountedStep(regions: seq<string>, i: nat)
    requires i < |regions|
    ensures Select(regions[..i + 1], Countable)
         == Select(regions[..i], Countable) + (if Countable(regions[i]) then [regions[i]] else [])
  {
    assert regions[..i + 1] == regions[..i] + [regions[i]];
    SelectSnoc(regions[..i], regions[i], Countable);
  }

  /**
   * `summarizeRegions(addrDetail)`: fills the region-to-count table address by
   * address (the table remembers first-insertion order) and joins its entries.
   */
  method SummarizeRegions(addrDetail: string) returns (summary: string)
    ensures summary == Summary(addrDetail)
    ensures summary != ""
  {
    if addrDetail == "" || addrDetail == "-" {
      return "-";
    }
    var addrs := Addresses(addrDetail);
    if |addrs| == 0 {
      assert Classify(addrs) == [];
      return "-";
    }
    var keys, counts := TallyRegions(Classify(addrs));
    TableOfTallies(CountedRegions(addrDetail));
    TalliedEntries(keys, counts, CountedRegions(addrDetail));
    summary := Join(EntriesOf(keys, counts), ", ");
    if summary == "" {
      summary := "-";
    }
  }
}

/** Worked examples of the classifier. */
module RegionCases {
  import opened Text
  import opened Regions

  lemma NotMetro(w: string)
    requires '부' !in w && '울' !in w && '대' !in w && '광' !in w
    ensures !IsMetro(w)
  {
    MissingCharNotContained(w, "부산", '부');
    MissingCharNotContained(w, "울산", '울');
    MissingCharNotContained(w, "대구", '대');
    MissingCharNotContained(w, "광주", '광');
  }

  lemma NotProvince(w: string)
    requires '경' !in w
    ensures !IsTwoTierProvince(w)
  {
    MissingCharNotContained(w, "경남", '경');
    MissingCharNotContained(w, "경상남도", '경');
    MissingCharNotContained(w, "경북", '경');
    MissingCharNotContained(w, "경상북도", '경');
  }

  /** Dropping the designators from a name followed by '시' and free of '군'. */
  lemma DropCity(name: string)
    requires '시' !in name && '군' !in name
    ensures DropCityCounty(name + ['시']) == name
  {
    assert name + ['시'] == name + ['시'] + "";
    ReplaceFirstChar(name, '시', "", "");
    MissingCharNotContained(name, "군", '군');
  }

  /** A word the tokenizer keeps whole: non-empty, without spaces, not starting or ending in white space. */
  predicate Word(w: string) {
    w != "" && ' ' !in w && !IsWhite(w[0]) && !IsWhite(w[|w| - 1])
  }

  /**
   * A plain city address ("김해시 불암동"): a first word that is a city name
   * followed by '시', naming no metropolitan city and no two-tier province,
   * is classified as the name without '시'.
   */
  lemma CityAddress(name: string, rest: string)
    requires Word(name) && Word(rest)
    requires '시' !in name && '군' !in name && '경' !in name
    requires '부' !in name && '울' !in name && '대' !in name && '광' !in name
    ensures ParseRegionFromAddress(name + ['시'] + " " + rest) == name
  {
    var first := name + ['시'];
    assert first[0] == name[0];
    TwoWords(first, rest);
    NotMetro(first);
    NotProvince(first);
    DropCity(name);
  }

  /**
   * A two-tier province address ("경남 창원시"): the region is the city named
   * by the second word, without '시'.
   */
  lemma ProvinceCityAddress(province: string, name: string)
    requires Word(province) && IsTwoTierProvince(province) && !IsMetro(province)
    requires name != "" && ' ' !in name && !IsWhite(name[0]) && '시' !in name && '군' !in name
    ensures ParseRegionFromAddress(province + " " + (name + ['시'])) == name
  {
    var second := name + ['시'];
    assert second[0] == name[0];
    TwoWords(province, second);
    DropCity(name);
  }

  /**
   * The designators are removed at their first occurrence, not as suffixes:
   * in a two-tier province, a county word that starts with '군' ("군위군")
   * loses that leading '군' and keeps the rest, trailing '군' included.
   */
  lemma CountyCharRemovedFirst(province: string, rest: string)
    requires Word(province) && IsTwoTierProvince(province) && !IsMetro(province)
    requires Word(rest) && '시' !in rest
    ensures ParseRegionFromAddress(province + " " + (['군'] + rest)) == rest
  {
    var county := ['군'] + rest;
    assert county[|county| - 1] == rest[|rest| - 1];
    assert ' ' !in county;
    TwoWords(province, county);
    assert '시' !in county;
    MissingCharNotContained(county, "시", '시');
    assert county == "" + ['군'] + rest;
    ReplaceFirstChar("", '군', rest, "");
  }
}
