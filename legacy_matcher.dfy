/**
 * The legacy keyword price matcher of `public/dispatch.js`
 * (`calculateExpectedPrice`): the fee master is ordered by region length,
 * longest first; the first fee whose tonnage equals the vehicle's and whose
 * region occurs in the destination list wins, otherwise the first fee whose
 * region occurs at all; a destination list mentioning '컬리' adds 10000.
 */
module LegacyMatcher {
  import opened Wrappers
  import opened Text
  import opened Sorting
  import opened Seqs

  /** A fee-master entry as this matcher reads it. */
  datatype LegacyFee = LegacyFee(region: string, tonnage: string, basePrice: int)

  /** The surcharge keyword and amount. */
  const SurchargeKeyword: string := "컬리"
  const Surcharge: int := 10000

  /** The comparator `(a, b) => b.region.length - a.region.length`: longer regions first. */
  predicate LongerRegion(a: LegacyFee, b: LegacyFee) {
    |a.region| >= |b.region|
  }

  lemma LongerRegionTotal()
    ensures TotalPreorder(LongerRegion)
  {
  }

  /** The test of the first loop (`tonnage` given) or of the second (`tonnage` is `None`). */
  predicate Hit(f: LegacyFee, destList: string, tonnage: Option<string>) {
    (tonnage.None? || f.tonnage == tonnage.value) && Contains(destList, f.region)
  }

  /** The test of a loop, as a function. */
  function HitTest(destList: string, tonnage: Option<string>): LegacyFee -> bool {
    f => Hit(f, destList, tonnage)
  }

  /** The fee a `for ... break` loop over `fees` stops at. */
  function FirstHit(fees: seq<LegacyFee>, destList: string, tonnage: Option<string>): (r: Option<LegacyFee>)
    ensures r.None? <==> forall j :: 0 <= j < |fees| ==> !Hit(fees[j], destList, tonnage)
    ensures r.Some? ==> exists k :: 0 <= k < |fees| && fees[k] == r.value && Hit(r.value, destList, tonnage)
                                 && forall j :: 0 <= j < k ==> !Hit(fees[j], destList, tonnage)
  {
    FirstWhere(fees, HitTest(destList, tonnage))
  }

  /** The reason text of the two kinds of match. */
  function ExactReason(tonnage: string, region: string): string {
    "[" + tonnage + "] [" + region + "] 매칭"
  }

  function LooseReason(region: string): string {
    "[" + region + "] 매칭 (톤수미일치)"
  }

  /** `calculateExpectedPrice(destList, tonnage)`: the price and the reason. */
  function Expected(master: seq<LegacyFee>, destList: string, tonnage: string): (int, string) {
    if master == [] then (0, "")
    else
      var sorted := SortBy(master, LongerRegion);
      var exact := FirstHit(sorted, destList, Some(tonnage));
      var loose := FirstHit(sorted, destList, None);
      if exact.None? && loose.None? then (0, "매칭 지역 없음")
      else
        var fee := if exact.Some? then exact.value else loose.value;
        var reason := if exact.Some? then ExactReason(tonnage, fee.region) else LooseReason(fee.region);
        if Contains(destList, SurchargeKeyword) then (fee.basePrice + Surcharge, reason + " + 컬리할증(1만)")
        else (fee.basePrice, reason)
  }

  /** One `for ... break` loop of the matcher: the first fee of `sorted` that hits. */
  method ScanHits(sorted: seq<LegacyFee>, destList: string, tonnage: Option<string>) returns (matched: Option<LegacyFee>)
    ensures matched == FirstHit(sorted, destList, tonnage)
  {
    matched := None;
    var i := 0;
    while i < |sorted|
      invariant 0 <= i <= |sorted|
      invariant FirstHit(sorted[i..], destList, tonnage) == FirstHit(sorted, destList, tonnage)
    {
      assert sorted[i..][0] == sorted[i] && sorted[i..][1..] == sorted[i + 1..];
      assert FirstHit(sorted[i..], destList, tonnage)
          == if Hit(sorted[i], destList, tonnage) then Some(sorted[i]) else FirstHit(sorted[i + 1..], destList, tonnage);
      if (tonnage.None? || sorted[i].tonnage == tonnage.value) && Contains(destList, sorted[i].region) {
        matched := Some(sorted[i]);
        return;
      }
      i := i + 1;
    }
  }

  /** The matcher as it runs: the exact loop, then the loose loop, over the sorted copy. */
  method CalculateExpectedPrice(master: seq<LegacyFee>, destList: string, tonnage: string)
    returns (price: int, reason: string)
    ensures (price, reason) == Expected(master, destList, tonnage)
  {
    if |master| == 0 {
      return 0, "";
    }
    var sorted := SortBy(master, LongerRegion);
    var matched := ScanHits(sorted, destList, Some(tonnage));
    var matchReason := "";
    if matched.Some? {
      matchReason := ExactReason(tonnage, matched.value.region);
    } else {
      matched := ScanHits(sorted, destList, None);
      if matched.Some? {
        matchReason := LooseReason(matched.value.region);
      }
    }
    if matched.None? {
      return 0, "매칭 지역 없음";
    }
    price := matched.value.basePrice;
    reason := matchReason;
    if Contains(destList, SurchargeKeyword) {
      price := price + Surcharge;
      reason := reason + " + 컬리할증(1만)";
    }
  }

  /** An empty fee master gives price 0 and no reason. */
  lemma EmptyMaster(destList: string, tonnage: string)
    ensures Expected([], destList, tonnage) == (0, "")
  {
  }

  /** With no region in the destination list, the result is 0 with '매칭 지역 없음'. */
  lemma NoRegionMatches(master: seq<LegacyFee>, destList: string, tonnage: string)
    requires master != [] && forall f :: f in master ==> !Contains(destList, f.region)
    ensures Expected(master, destList, tonnage) == (0, "매칭 지역 없음")
  {
    var sorted := SortBy(master, LongerRegion);
    forall j | 0 <= j < |sorted|
      ensures !Hit(sorted[j], destList, None)
    {
      assert sorted[j] in multiset(master);
    }
  }

  /** The first hit of a sequence sorted longest region first has a region at least as long as every hit. */
  lemma FirstHitIsLongest(master: seq<LegacyFee>, destList: string, tonnage: Option<string>)
    requires FirstHit(SortBy(master, LongerRegion), destList, tonnage).Some?
    ensures var f := FirstHit(SortBy(master, LongerRegion), destList, tonnage).value;
      && f in master && Hit(f, destList, tonnage)
      && forall g :: g in master && Hit(g, destList, tonnage) ==> |g.region| <= |f.region|
  {
    var sorted := SortBy(master, LongerRegion);
    LongerRegionTotal();
    SortBySorted(master, LongerRegion);
    var f := FirstHit(sorted, destList, tonnage).value;
    var k :| 0 <= k < |sorted| && sorted[k] == f && Hit(f, destList, tonnage)
             && forall j :: 0 <= j < k ==> !Hit(sorted[j], destList, tonnage);
    assert f in multiset(sorted);
    forall g | g in master && Hit(g, destList, tonnage)
      ensures |g.region| <= |f.region|
    {
      assert g in multiset(sorted);
      var m :| 0 <= m < |sorted| && sorted[m] == g;
      if m != k {
        assert k < m;
      }
    }
  }

  /** The ties of `y` among fees that do not hit do not hit either. */
  lemma NoHitTies(p: seq<LegacyFee>, y: LegacyFee, destList: string, tonnage: Option<string>)
    requires forall z :: z in p && Hit(z, destList, tonnage) ==> |z.region| < |y.region|
    ensures forall z :: z in TiesWith(p, LongerRegion, y) ==> !Hit(z, destList, tonnage)
  {
    TiesIn(p, LongerRegion, y);
  }

  /** Some fee of the sorted master hits when a fee of the master does. */
  lemma SortedHasHit(master: seq<LegacyFee>, v: LegacyFee, destList: string, tonnage: Option<string>)
    requires v in master && Hit(v, destList, tonnage)
    ensures FirstHit(SortBy(master, LongerRegion), destList, tonnage).Some?
  {
    var sorted := SortBy(master, LongerRegion);
    assert v in multiset(sorted);
    var m :| 0 <= m < |sorted| && sorted[m] == v;
  }

  /**
   * Among equally long hits the first in master order wins: when every hit
   * before `v` in the master has a shorter region and none after it a longer
   * one, the stable longest-first sort makes `v` the first hit.
   */
  lemma FirstLongestHitWins(before: seq<LegacyFee>, v: LegacyFee, after: seq<LegacyFee>, destList: string,
                            tonnage: Option<string>)
    requires Hit(v, destList, tonnage)
    requires forall g :: g in before && Hit(g, destList, tonnage) ==> |g.region| < |v.region|
    requires forall g :: g in after && Hit(g, destList, tonnage) ==> |g.region| <= |v.region|
    ensures FirstHit(SortBy(before + [v] + after, LongerRegion), destList, tonnage) == Some(v)
  {
    var master := before + [v] + after;
    assert v in master;
    SortedHasHit(master, v, destList, tonnage);
    FirstHitIsLongest(master, destList, tonnage);
    var f := FirstHit(SortBy(master, LongerRegion), destList, tonnage).value;
    var pre, post := FirstWhereAround(SortBy(master, LongerRegion), f, HitTest(destList, tonnage));
    assert f in before || f == v || f in after;
    // Both the master and its sorted copy list the ties of v as misses, then a hit.
    TiesSplit(before, v, after, LongerRegion, v);
    TiesSplit(pre, f, post, LongerRegion, v);
    NoHitTies(before, v, destList, tonnage);
    NoHitTies(pre, v, destList, tonnage);
    LongerRegionTotal();
    SortByStable(master, LongerRegion, v);
    FirstWhereAfterMisses(TiesWith(before, LongerRegion, v), v, TiesWith(after, LongerRegion, v), HitTest(destList, tonnage));
    FirstWhereAfterMisses(TiesWith(pre, LongerRegion, v), f, TiesWith(post, LongerRegion, v), HitTest(destList, tonnage));
  }

  /**
   * When some fee of the vehicle's tonnage has its region in the destination
   * list, the match is tonnage-exact, even if a longer region of another
   * tonnage also occurs; its region occurs in the list and is the longest
   * among the tonnage-exact hits; the price is its base price plus the
   * '컬리' surcharge when the list mentions it.
   */
  lemma ExactMatchPreferred(master: seq<LegacyFee>, destList: string, tonnage: string, g: LegacyFee)
    requires g in master && g.tonnage == tonnage && Contains(destList, g.region)
    ensures exists f :: (f in master && f.tonnage == tonnage && Contains(destList, f.region)
      && (forall h :: h in master && h.tonnage == tonnage && Contains(destList, h.region) ==> |h.region| <= |f.region|)
      && Expected(master, destList, tonnage)
         == (if Contains(destList, SurchargeKeyword) then (f.basePrice + Surcharge, ExactReason(tonnage, f.region) + " + 컬리할증(1만)")
             else (f.basePrice, ExactReason(tonnage, f.region))))
  {
    var sorted := SortBy(master, LongerRegion);
    assert g in multiset(sorted);
    var m :| 0 <= m < |sorted| && sorted[m] == g;
    assert Hit(sorted[m], destList, Some(tonnage));
    FirstHitIsLongest(master, destList, Some(tonnage));
    var f := FirstHit(sorted, destList, Some(tonnage)).value;
    assert f in master && f.tonnage == tonnage && Contains(destList, f.region);
    assert master != [];
    assert Expected(master, destList, tonnage)
         == (if Contains(destList, SurchargeKeyword) then (f.basePrice + Surcharge, ExactReason(tonnage, f.region) + " + 컬리할증(1만)")
             else (f.basePrice, ExactReason(tonnage, f.region)));
  }

  /**
   * Without a tonnage-exact hit, the match is the longest region that occurs,
   * and the price is its base price plus the surcharge.
   */
  lemma LooseMatch(master: seq<LegacyFee>, destList: string, tonnage: string, g: LegacyFee)
    requires g in master && Contains(destList, g.region)
    requires forall h :: h in master ==> !(h.tonnage == tonnage && Contains(destList, h.region))
    ensures exists f :: (f in master && Contains(destList, f.region)
      && (forall h :: h in master && Contains(destList, h.region) ==> |h.region| <= |f.region|)
      && Expected(master, destList, tonnage)
         == (if Contains(destList, SurchargeKeyword) then (f.basePrice + Surcharge, LooseReason(f.region) + " + 컬리할증(1만)")
             else (f.basePrice, LooseReason(f.region))))
  {
    var sorted := SortBy(master, LongerRegion);
    forall j | 0 <= j < |sorted|
      ensures !Hit(sorted[j], destList, Some(tonnage))
    {
      assert sorted[j] in multiset(master);
    }
    assert g in multiset(sorted);
    var m :| 0 <= m < |sorted| && sorted[m] == g;
    assert Hit(sorted[m], destList, None);
    FirstHitIsLongest(master, destList, None);
    var f := FirstHit(sorted, destList, None).value;
    assert master != [];
    assert FirstHit(sorted, destList, Some(tonnage)).None?;
    assert Expected(master, destList, tonnage)
         == (if Contains(destList, SurchargeKeyword) then (f.basePrice + Surcharge, LooseReason(f.region) + " + 컬리할증(1만)")
             else (f.basePrice, LooseReason(f.region)));
  }

  /** The price is never below the matched fee's base price, and is above it exactly by the surcharge. */
  lemma PriceAtLeastBase(master: seq<LegacyFee>, destList: string, tonnage: string)
    requires Expected(master, destList, tonnage).1 != "" && Expected(master, destList, tonnage).1 != "매칭 지역 없음"
    ensures exists f :: (f in master && Contains(destList, f.region)
      && Expected(master, destList, tonnage).0 >= f.basePrice
      && (Expected(master, destList, tonnage).0 == f.basePrice + Surcharge <==> Contains(destList, SurchargeKeyword)))
  {
    var sorted := SortBy(master, LongerRegion);
    var exact := FirstHit(sorted, destList, Some(tonnage));
    var f;
    if exact.Some? {
      FirstHitIsLongest(master, destList, Some(tonnage));
      f := exact.value;
    } else {
      FirstHitIsLongest(master, destList, None);
      f := FirstHit(sorted, destList, None).value;
    }
    assert f in master && Contains(destList, f.region);
  }
}
