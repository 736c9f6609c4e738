/**
 * The fee resolver of the batch settlement screen (`calculateSmartPrice`).
 * The base fee of a dispatch row is the highest-priced active fee of the row's
 * year and affiliation for a region its addresses touch; auxiliary fees
 * (extra drop-off, P-box, return trip, vehicle class) and the zone surcharge
 * are added on top, and a reason text explains the sum.
 */
module FeeResolver {
  import opened Wrappers
  import opened Text
  import opened Seqs
  import opened Sorting
  import opened Records
  import Regions

  /** The fields of a consolidated dispatch row that the resolver reads. */
  datatype SettleRow = SettleRow(date: string, driverDiv: string, addrDetail: string, destCount: int)

  /**
   * The operator's choices for the row: P-box and return-trip flags, the zone
   * surcharge level `gwon` and the selected vehicle class ("" for none).
   */
  datatype Options = Options(isPbox: bool, isReturn: bool, gwon: int, selectedTonnage: string)

  datatype SmartPrice = SmartPrice(
    basePrice: int,
    extraAmount: int,
    finalPrice: int,
    reason: string,
    regions: seq<string>,
    isSuccess: bool)

  /** The pseudo-regions under which the auxiliary fees are stored. */
  const ExtraStopRegion := "납품처추가"
  const PboxRegion := "피박스"
  const ReturnRegion := "회송"

  /** The driver's affiliation: trimmed, trailing digits dropped, trimmed again. */
  function DriverAffiliation(driverDiv: string): string {
    Trim(StripTrailingDigits(Trim(driverDiv)))
  }

  /** A fee's affiliation: trimmed, then trailing digits dropped (not trimmed again). */
  function FeeAffiliation(affiliation: string): string {
    StripTrailingDigits(Trim(affiliation))
  }

  lemma {:induction false} StripDigitsSuffix(name: string, digits: string)
    requires AllDigits(digits)
    requires name == [] || !IsDigit(name[|name| - 1])
    ensures StripTrailingDigits(name + digits) == name
    decreases |digits|
  {
    if digits == [] {
      assert name + digits == name;
    } else {
      var init := digits[..|digits| - 1];
      assert (name + digits)[..|name + digits| - 1] == name + init;
      StripDigitsSuffix(name, init);
    }
  }

  /**
   * Numbered sub-teams share their team's fees: an affiliation written with a
   * run of trailing digits matches the same affiliation without them, on the
   * driver side and on the fee side alike.
   */
  lemma NumberedAffiliationsMatch(name: string, digits: string)
    requires AllDigits(digits)
    requires name != [] && !IsWhite(name[0]) && !IsDigit(name[|name| - 1]) && !IsWhite(name[|name| - 1])
    ensures DriverAffiliation(name + digits) == FeeAffiliation(name + digits) == FeeAffiliation(name) == name
  {
    var s := name + digits;
    if digits != [] {
      assert !IsWhite(s[|s| - 1]);
    }
    assert s[0] == name[0];
    TrimOfTrimmed(s);
    TrimOfTrimmed(name);
    StripDigitsSuffix(name, digits);
    StripDigitsSuffix(name, []);
    assert name + [] == name;
  }

  /** The year of the dispatch: the number before the first '-' of the date, the current year for no date. */
  function DispatchYear(date: string, currentYear: int): Option<int> {
    if date == "" then Some(currentYear) else ParseInt(Split(date, "-")[0])
  }

  /** A date "YYYY-..." is matched against fees of year YYYY. */
  lemma IsoDateYear(year: string, rest: string, currentYear: int)
    requires year != "" && AllDigits(year)
    ensures DispatchYear(year + "-" + rest, currentYear) == Some(DigitsValue(year))
  {
    forall i | 0 <= i < |year|
      ensures year[i] != '-'
    {
      assert IsDigit(year[i]);
    }
    assert year + "-" + rest == year + ['-'] + rest;
    SplitOnChar(year, '-', rest);
    assert !IsWhite(year[0]);
    AllDigitsAreLeading(year);
  }

  /** `regionsInAddr`: the distinct non-empty regions of the row's addresses. */
  function RegionsInAddr(addrDetail: string): (r: seq<string>)
    ensures NoDuplicates(r)
    ensures forall x :: x in r <==> x != "" && x in Regions.Classify(Regions.Addresses(addrDetail))
  {
    Dedup(Select(Regions.Classify(Regions.Addresses(addrDetail)), x => x != ""))
  }

  /** An active fee of the dispatch year (`NaN` years match nothing). */
  predicate Active(f: FeeRecord, year: Option<int>) {
    !f.readonly && year == Some(f.year)
  }

  /** The test of `findFees`. */
  predicate IsBaseCandidate(f: FeeRecord, year: Option<int>, aff: string, regions: seq<string>) {
    Active(f, year) && FeeAffiliation(f.affiliation) == aff && Trim(f.region) in regions
  }

  /** `findFees(cleanAff)`: the base-fee candidates, in table order. */
  function FindFees(fees: seq<FeeRecord>, year: Option<int>, aff: string, regions: seq<string>): seq<FeeRecord> {
    Select(fees, BaseTest(year, aff, regions))
  }

  /** The test of `findFees`, as the function handed to `filter`. */
  function BaseTest(year: Option<int>, aff: string, regions: seq<string>): FeeRecord -> bool {
    f => IsBaseCandidate(f, year, aff, regions)
  }

  /** The comparator `(a, b) => b.price - a.price`: higher prices first. */
  predicate PriceDesc(a: FeeRecord, b: FeeRecord) {
    a.price >= b.price
  }

  lemma PriceDescTotal()
    ensures TotalPreorder(PriceDesc)
  {
  }

  /**
   * `matchedFees.sort(...)[0]`: a highest-priced candidate, and the first of
   * the highest-priced ones in table order since the sort is stable.
   */
  function BaseFee(matched: seq<FeeRecord>): (r: Option<FeeRecord>)
    ensures r.None? <==> matched == []
    ensures r.Some? ==> forall f :: f in matched ==> f.price <= r.value.price
    ensures r.Some? ==> exists k :: 0 <= k < |matched| && matched[k] == r.value
                                 && forall j :: 0 <= j < k ==> matched[j].price < r.value.price
  {
    if matched == [] then None
    else
      PriceDescTotal();
      FirstOfSorted(matched, PriceDesc);
      Some(SortBy(matched, PriceDesc)[0])
  }

  /** `basePrice`: the highest price among the candidates, 0 when there is none. */
  function BasePrice(fees: seq<FeeRecord>, year: Option<int>, aff: string, regions: seq<string>): (p: int)
    ensures (forall f :: f in fees ==> !IsBaseCandidate(f, year, aff, regions)) ==> p == 0
    ensures forall f :: f in fees && IsBaseCandidate(f, year, aff, regions) ==> f.price <= p
    ensures (exists f :: f in fees && IsBaseCandidate(f, year, aff, regions))
        ==> exists f :: f in fees && IsBaseCandidate(f, year, aff, regions) && f.price == p
  {
    var matched := FindFees(fees, year, aff, regions);
    assert forall f :: f in matched <==> f in fees && IsBaseCandidate(f, year, aff, regions);
    match BaseFee(matched)
    case None => 0
    case Some(f) =>
      assert f in matched;
      f.price
  }

  /**
   * The base fee, read against the whole fee table `before + [v] + after`:
   * the candidate `v` is chosen when every candidate before it costs less and
   * none after it costs more, that is, when it is the first highest-priced
   * candidate in table order.
   */
  lemma BaseFeeInTable(before: seq<FeeRecord>, v: FeeRecord, after: seq<FeeRecord>, year: Option<int>, aff: string,
                       regions: seq<string>)
    requires IsBaseCandidate(v, year, aff, regions)
    requires forall f :: f in before && IsBaseCandidate(f, year, aff, regions) ==> f.price < v.price
    requires forall f :: f in after && IsBaseCandidate(f, year, aff, regions) ==> f.price <= v.price
    ensures BaseFee(FindFees(before + [v] + after, year, aff, regions)) == Some(v)
  {
    SelectAround(before, v, after, BaseTest(year, aff, regions));
    FirstMaximum(FindFees(before, year, aff, regions), v, FindFees(after, year, aff, regions));
  }

  /** In `before + [v] + after`, where nothing costs more than `v` and everything before it costs less, `v` is chosen. */
  lemma FirstMaximum(before: seq<FeeRecord>, v: FeeRecord, after: seq<FeeRecord>)
    requires forall g :: g in before ==> g.price < v.price
    requires forall g :: g in after ==> g.price <= v.price
    ensures BaseFee(before + [v] + after) == Some(v)
  {
    var m := before + [v] + after;
    var km := |before|;
    assert m[km] == v;
    var b := BaseFee(m).value;
    var kb :| 0 <= kb < |m| && m[kb] == b && forall j :: 0 <= j < kb ==> m[j].price < b.price;
    assert kb == km;
  }

  /** An 'ALL' or '공통' (common) affiliation, in any letter case. */
  predicate IsCommonAffiliation(affiliation: string) {
    var a := ToUpper(Trim(affiliation));
    a == "ALL" || a == "공통"
  }

  /** The first test of `findExtraFee`: the company's own fee for `reg`. */
  predicate IsCompanyFee(f: FeeRecord, year: Option<int>, aff: string, reg: string) {
    Active(f, year) && FeeAffiliation(f.affiliation) == aff && Trim(f.region) == reg
  }

  /** The second test of `findExtraFee`: a common fee for `reg`. */
  predicate IsCommonFee(f: FeeRecord, year: Option<int>, reg: string) {
    Active(f, year) && IsCommonAffiliation(f.affiliation) && Trim(f.region) == reg
  }

  /** With a single candidate, its price is the base price. */
  lemma SoleCandidate(fees: seq<FeeRecord>, year: Option<int>, aff: string, regions: seq<string>, k: int)
    requires 0 <= k < |fees| && IsBaseCandidate(fees[k], year, aff, regions)
    requires forall j :: 0 <= j < |fees| && j != k ==> !IsBaseCandidate(fees[j], year, aff, regions)
    ensures BasePrice(fees, year, aff, regions) == fees[k].price
  {
    var p := BasePrice(fees, year, aff, regions);
    var f :| f in fees && IsBaseCandidate(f, year, aff, regions) && f.price == p;
    var i :| 0 <= i < |fees| && fees[i] == f;
    assert i == k;
  }

  /** The two tests `findExtraFee` tries in turn. */
  datatype Tier = Company | Common

  predicate TierMatch(tier: Tier, f: FeeRecord, year: Option<int>, aff: string, reg: string) {
    match tier
    case Company => IsCompanyFee(f, year, aff, reg)
    case Common => IsCommonFee(f, year, reg)
  }

  /** `fees.find(...)` with the test of `tier`: the first fee passing it. */
  function FirstMatch(fees: seq<FeeRecord>, tier: Tier, year: Option<int>, aff: string, reg: string): (r: Option<FeeRecord>)
    ensures r.None? <==> forall j :: 0 <= j < |fees| ==> !TierMatch(tier, fees[j], year, aff, reg)
    ensures r.Some? ==> r.value in fees && TierMatch(tier, r.value, year, aff, reg)
  {
    if fees == [] then None
    else if TierMatch(tier, fees[0], year, aff, reg) then Some(fees[0])
    else FirstMatch(fees[1..], tier, year, aff, reg)
  }

  /** `find` returns the fee at the first index that passes the test. */
  lemma {:induction false} FirstMatchAt(fees: seq<FeeRecord>, tier: Tier, year: Option<int>, aff: string, reg: string, k: int)
    requires 0 <= k < |fees| && TierMatch(tier, fees[k], year, aff, reg)
    requires forall j :: 0 <= j < k ==> !TierMatch(tier, fees[j], year, aff, reg)
    ensures FirstMatch(fees, tier, year, aff, reg) == Some(fees[k])
  {
    if k > 0 {
      assert !TierMatch(tier, fees[0], year, aff, reg);
      FirstMatchAt(fees[1..], tier, year, aff, reg, k - 1);
    }
  }

  /**
   * `findExtraFee(aff, reg)`: the first company-specific fee for `reg` if there
   * is one, otherwise the first common one, otherwise nothing.
   */
  function FindExtraFee(fees: seq<FeeRecord>, year: Option<int>, aff: string, reg: string): (r: Option<FeeRecord>)
    ensures r.Some? ==> r.value in fees && (IsCompanyFee(r.value, year, aff, reg) || IsCommonFee(r.value, year, reg))
    ensures (exists f :: f in fees && IsCompanyFee(f, year, aff, reg)) ==> r.Some? && IsCompanyFee(r.value, year, aff, reg)
    ensures r.None? <==> forall f :: f in fees ==> !IsCompanyFee(f, year, aff, reg) && !IsCommonFee(f, year, reg)
  {
    var company := FirstMatch(fees, Company, year, aff, reg);
    if company.Some? then company else FirstMatch(fees, Common, year, aff, reg)
  }

  /** Among several company-specific fees for `reg`, the first in table order is used. */
  lemma FirstCompanyFeeWins(fees: seq<FeeRecord>, year: Option<int>, aff: string, reg: string, k: int)
    requires 0 <= k < |fees| && IsCompanyFee(fees[k], year, aff, reg)
    requires forall j :: 0 <= j < k ==> !IsCompanyFee(fees[j], year, aff, reg)
    ensures FindExtraFee(fees, year, aff, reg) == Some(fees[k])
  {
    FirstMatchAt(fees, Company, year, aff, reg, k);
  }

  /** Without a company-specific fee for `reg`, the first common fee in table order is used. */
  lemma FirstCommonFeeWins(fees: seq<FeeRecord>, year: Option<int>, aff: string, reg: string, k: int)
    requires forall j :: 0 <= j < |fees| ==> !IsCompanyFee(fees[j], year, aff, reg)
    requires 0 <= k < |fees| && IsCommonFee(fees[k], year, reg)
    requires forall j :: 0 <= j < k ==> !IsCommonFee(fees[j], year, reg)
    ensures FindExtraFee(fees, year, aff, reg) == Some(fees[k])
  {
    assert FirstMatch(fees, Company, year, aff, reg).None?;
    FirstMatchAt(fees, Common, year, aff, reg, k);
  }

  /** `parseInt(destCount) || 1` */
  function StopCount(destCount: int): int {
    if destCount == 0 then 1 else destCount
  }

  /** `Math.max(0, stopCount - 1)`: every drop-off after the first is an extra stop. */
  function ExtraStops(destCount: int): (n: nat)
    ensures destCount > 1 ==> n == destCount - 1
    ensures destCount <= 1 ==> n == 0
  {
    var stops := StopCount(destCount);
    if stops - 1 > 0 then stops - 1 else 0
  }

  /** The price of a looked-up fee; a missing one counts 0. */
  function PriceOf(fee: Option<FeeRecord>): int {
    if fee.Some? then fee.value.price else 0
  }

  /** The vehicle-class fee, when a class is selected. */
  function TonnageAmount(fees: seq<FeeRecord>, year: Option<int>, aff: string, tonnage: string): int {
    if tonnage == "" then 0 else PriceOf(FindExtraFee(fees, year, aff, tonnage))
  }

  /**
   * The surcharges: extra stops at the extra-stop fee, the P-box and return
   * fees when flagged, 10000 per zone level and the vehicle-class fee.
   */
  function ExtraAmount(fees: seq<FeeRecord>, year: Option<int>, aff: string, destCount: int, opts: Options): int {
    ExtraStops(destCount) * PriceOf(FindExtraFee(fees, year, aff, ExtraStopRegion))
    + (if opts.isPbox then PriceOf(FindExtraFee(fees, year, aff, PboxRegion)) else 0)
    + (if opts.isReturn then PriceOf(FindExtraFee(fees, year, aff, ReturnRegion)) else 0)
    + opts.gwon * 10000
    + TonnageAmount(fees, year, aff, opts.selectedTonnage)
  }

  /**
   * How each input moves the surcharge: a further drop-off adds the
   * extra-stop fee, a further zone level adds 10000, and the P-box and return
   * flags add exactly their fees.
   */
  lemma SurchargeSteps(fees: seq<FeeRecord>, year: Option<int>, aff: string, destCount: int, opts: Options)
    ensures destCount >= 1 ==>
      ExtraAmount(fees, year, aff, destCount + 1, opts)
      == ExtraAmount(fees, year, aff, destCount, opts) + PriceOf(FindExtraFee(fees, year, aff, ExtraStopRegion))
    ensures ExtraAmount(fees, year, aff, destCount, opts.(gwon := opts.gwon + 1))
         == ExtraAmount(fees, year, aff, destCount, opts) + 10000
    ensures ExtraAmount(fees, year, aff, destCount, opts.(isPbox := true))
         == ExtraAmount(fees, year, aff, destCount, opts.(isPbox := false)) + PriceOf(FindExtraFee(fees, year, aff, PboxRegion))
    ensures ExtraAmount(fees, year, aff, destCount, opts.(isReturn := true))
         == ExtraAmount(fees, year, aff, destCount, opts.(isReturn := false)) + PriceOf(FindExtraFee(fees, year, aff, ReturnRegion))
  {
    if destCount >= 1 {
      var p := PriceOf(FindExtraFee(fees, year, aff, ExtraStopRegion));
      assert ExtraStops(destCount + 1) == ExtraStops(destCount) + 1;
      assert (ExtraStops(destCount) + 1) * p == ExtraStops(destCount) * p + p;
    }
  }

  /** Neither a company-specific nor a common fee for `reg` is on record. */
  predicate NoExtraFee(fees: seq<FeeRecord>, year: Option<int>, aff: string, reg: string) {
    forall f :: f in fees ==> !IsCompanyFee(f, year, aff, reg) && !IsCommonFee(f, year, reg)
  }

  /** The price of an auxiliary fee that is not on record is 0. */
  lemma MissingFeePrice(fees: seq<FeeRecord>, year: Option<int>, aff: string, reg: string)
    requires NoExtraFee(fees, year, aff, reg)
    ensures PriceOf(FindExtraFee(fees, year, aff, reg)) == 0
  {
    assert FindExtraFee(fees, year, aff, reg).None?;
  }

  /**
   * An auxiliary fee missing from the table adds nothing and nothing fails,
   * whatever other fees exist: the P-box flag, the return flag, the number of
   * drop-offs and the selected vehicle class then leave the surcharge as it is.
   */
  lemma MissingAuxiliaryFeesAddNothing(fees: seq<FeeRecord>, year: Option<int>, aff: string, destCount: int, opts: Options,
                                       tonnage: string)
    ensures NoExtraFee(fees, year, aff, PboxRegion) ==>
      ExtraAmount(fees, year, aff, destCount, opts.(isPbox := true)) == ExtraAmount(fees, year, aff, destCount, opts.(isPbox := false))
    ensures NoExtraFee(fees, year, aff, ReturnRegion) ==>
      ExtraAmount(fees, year, aff, destCount, opts.(isReturn := true)) == ExtraAmount(fees, year, aff, destCount, opts.(isReturn := false))
    ensures NoExtraFee(fees, year, aff, ExtraStopRegion) ==>
      ExtraAmount(fees, year, aff, destCount, opts) == ExtraAmount(fees, year, aff, 1, opts)
    ensures NoExtraFee(fees, year, aff, tonnage) ==>
      ExtraAmount(fees, year, aff, destCount, opts.(selectedTonnage := tonnage))
      == ExtraAmount(fees, year, aff, destCount, opts.(selectedTonnage := ""))
  {
    if NoExtraFee(fees, year, aff, PboxRegion) {
      MissingFeePrice(fees, year, aff, PboxRegion);
      SurchargeSteps(fees, year, aff, destCount, opts);
    }
    if NoExtraFee(fees, year, aff, ReturnRegion) {
      MissingFeePrice(fees, year, aff, ReturnRegion);
      SurchargeSteps(fees, year, aff, destCount, opts);
    }
    if NoExtraFee(fees, year, aff, ExtraStopRegion) {
      MissingFeePrice(fees, year, aff, ExtraStopRegion);
      StopsWithoutFee(fees, year, aff, destCount, opts);
    }
    if NoExtraFee(fees, year, aff, tonnage) {
      MissingFeePrice(fees, year, aff, tonnage);
      TonnageWithoutFee(fees, year, aff, destCount, opts, tonnage);
    }
  }

  lemma StopsWithoutFee(fees: seq<FeeRecord>, year: Option<int>, aff: string, destCount: int, opts: Options)
    requires PriceOf(FindExtraFee(fees, year, aff, ExtraStopRegion)) == 0
    ensures ExtraAmount(fees, year, aff, destCount, opts) == ExtraAmount(fees, year, aff, 1, opts)
  {
    var p := PriceOf(FindExtraFee(fees, year, aff, ExtraStopRegion));
    assert ExtraStops(destCount) * p == 0 == ExtraStops(1) * p;
  }

  lemma TonnageWithoutFee(fees: seq<FeeRecord>, year: Option<int>, aff: string, destCount: int, opts: Options, tonnage: string)
    requires PriceOf(FindExtraFee(fees, year, aff, tonnage)) == 0
    ensures ExtraAmount(fees, year, aff, destCount, opts.(selectedTonnage := tonnage))
         == ExtraAmount(fees, year, aff, destCount, opts.(selectedTonnage := ""))
  {
    assert TonnageAmount(fees, year, aff, tonnage) == 0 == TonnageAmount(fees, year, aff, "");
  }

  /** The surcharge, read as the sum of its parts. */
  lemma ExtraAmountParts(fees: seq<FeeRecord>, year: Option<int>, aff: string, destCount: int, opts: Options,
                         stopsAmount: int, pboxPrice: int, returnPrice: int, tonnageAmount: int)
    requires stopsAmount == ExtraStops(destCount) * PriceOf(FindExtraFee(fees, year, aff, ExtraStopRegion))
    requires pboxPrice == PriceOf(FindExtraFee(fees, year, aff, PboxRegion))
    requires returnPrice == PriceOf(FindExtraFee(fees, year, aff, ReturnRegion))
    requires tonnageAmount == TonnageAmount(fees, year, aff, opts.selectedTonnage)
    ensures ExtraAmount(fees, year, aff, destCount, opts)
         == stopsAmount + (if opts.isPbox then pboxPrice else 0) + (if opts.isReturn then returnPrice else 0)
            + opts.gwon * 10000 + tonnageAmount
  {
  }

  // The notes of the reason, each '' when it does not apply.

  function StopsNote(extraStops: nat): string {
    if extraStops > 0 then " + 추가" + NatToString(extraStops) + "곳" else ""
  }

  function PboxNote(opts: Options): string {
    if opts.isPbox then " + P박스" else ""
  }

  function ReturnNote(opts: Options): string {
    if opts.isReturn then " + 회송" else ""
  }

  function GwonNote(opts: Options): string {
    if opts.gwon > 0 then " + 권역" + IntToString(opts.gwon) else ""
  }

  function TonnageNote(opts: Options, tonnageAmount: int, fmt: int -> string): string {
    if tonnageAmount > 0 then " + " + opts.selectedTonnage + "(" + fmt(tonnageAmount) + ")" else ""
  }

  /** The reason when there is a positive base price. */
  function MatchedReason(summary: string, base: FeeRecord, fmt: int -> string): string {
    "(" + summary + ") [" + base.region + "기준] " + fmt(base.price) + "원"
  }

  /** The reason when no positive base price was found. */
  function FailedReason(summary: string): string {
    "(" + summary + ") [!] 단가표 매칭 실패"
  }

  /** The whole reason text: the base part, then the notes in their fixed order. */
  function Reason(summary: string, base: Option<FeeRecord>, extraStops: nat, opts: Options, tonnageAmount: int,
                  fmt: int -> string): string {
    if base.Some? && base.value.price > 0 then
      MatchedReason(summary, base.value, fmt) + StopsNote(extraStops) + PboxNote(opts) + ReturnNote(opts)
      + GwonNote(opts) + TonnageNote(opts, tonnageAmount, fmt)
    else FailedReason(summary)
  }

  /**
   * A failed match gives exactly the failure text. A match starts with the
   * base part, and is exactly the base part when no surcharge applies.
   */
  lemma ReasonShape(summary: string, base: Option<FeeRecord>, extraStops: nat, opts: Options, tonnageAmount: int,
                    fmt: int -> string)
    ensures !(base.Some? && base.value.price > 0) ==>
      Reason(summary, base, extraStops, opts, tonnageAmount, fmt) == "(" + summary + ") [!] 단가표 매칭 실패"
    ensures base.Some? && base.value.price > 0 ==>
      MatchedReason(summary, base.value, fmt) <= Reason(summary, base, extraStops, opts, tonnageAmount, fmt)
    ensures (base.Some? && base.value.price > 0 && extraStops == 0 && !opts.isPbox && !opts.isReturn
             && opts.gwon <= 0 && tonnageAmount <= 0) ==>
      Reason(summary, base, extraStops, opts, tonnageAmount, fmt) == MatchedReason(summary, base.value, fmt)
  {
    if base.Some? && base.value.price > 0 {
      var m := MatchedReason(summary, base.value, fmt);
      var n1, n2, n3 := StopsNote(extraStops), PboxNote(opts), ReturnNote(opts);
      var n4, n5 := GwonNote(opts), TonnageNote(opts, tonnageAmount, fmt);
      PrefixOfAppend(m, n1);
      PrefixExtend(m, m + n1, n2);
      PrefixExtend(m, m + n1 + n2, n3);
      PrefixExtend(m, m + n1 + n2 + n3, n4);
      PrefixExtend(m, m + n1 + n2 + n3 + n4, n5);
    }
  }

  /** A prefix of a sequence stays a prefix when the sequence grows. */
  lemma PrefixExtend<T>(p: seq<T>, s: seq<T>, t: seq<T>)
    requires p <= s
    ensures p <= s + t
  {
    assert (s + t)[..|p|] == s[..|p|];
  }

  lemma PrefixOfAppend(a: string, b: string)
    ensures a <= a + b
  {
    assert (a + b)[..|a|] == a;
  }

  /** The reason text of `calculateSmartPrice`, appended part by part. */
  method Explain(summary: string, baseFee: Option<FeeRecord>, extraStops: nat, opts: Options, tonnageAmount: int, fmt: int -> string)
    returns (reason: string)
    ensures reason == Reason(summary, baseFee, extraStops, opts, tonnageAmount, fmt)
  {
    var basePrice := if baseFee.Some? then baseFee.value.price else 0;
    if basePrice > 0 {
      reason := "(" + summary + ") [" + baseFee.value.region + "기준] " + fmt(basePrice) + "원";
      reason := AppendNotes(reason, extraStops, opts, tonnageAmount, fmt);
    } else {
      reason := "(" + summary + ") [!] 단가표 매칭 실패";
    }
  }

  /** The `reason += ...` steps after the base part, each when it applies. */
  method AppendNotes(head: string, extraStops: nat, opts: Options, tonnageAmount: int, fmt: int -> string)
    returns (reason: string)
    ensures reason == head + StopsNote(extraStops) + PboxNote(opts) + ReturnNote(opts) + GwonNote(opts)
                      + TonnageNote(opts, tonnageAmount, fmt)
  {
    reason := head;
    if extraStops > 0 {
      var note := " + 추가" + NatToString(extraStops) + "곳";
      reason := reason + note;
    }
    assert reason == head + StopsNote(extraStops);
    if opts.isPbox {
      reason := reason + " + P박스";
    }
    assert reason == head + StopsNote(extraStops) + PboxNote(opts);
    if opts.isReturn {
      reason := reason + " + 회송";
    }
    assert reason == head + StopsNote(extraStops) + PboxNote(opts) + ReturnNote(opts);
    if opts.gwon > 0 {
      var note := " + 권역" + IntToString(opts.gwon);
      reason := reason + note;
    }
    assert reason == head + StopsNote(extraStops) + PboxNote(opts) + ReturnNote(opts) + GwonNote(opts);
    if tonnageAmount > 0 {
      var note := " + " + opts.selectedTonnage + "(" + fmt(tonnageAmount) + ")";
      reason := reason + note;
    }
  }

  /** `calculateSmartPrice(row, isPbox, isReturn, gwon, selectedTonnage)` over the price table `fees`. */
  method CalculateSmartPrice(fees: seq<FeeRecord>, row: SettleRow, opts: Options, currentYear: int, fmt: int -> string)
    returns (result: SmartPrice)
    ensures var year, aff := DispatchYear(row.date, currentYear), DriverAffiliation(row.driverDiv);
      && result.regions == RegionsInAddr(row.addrDetail)
      && result.basePrice == BasePrice(fees, year, aff, result.regions)
      && result.extraAmount == ExtraAmount(fees, year, aff, row.destCount, opts)
      && result.finalPrice == result.basePrice + result.extraAmount
      && (result.isSuccess <==> result.basePrice > 0)
      && result.reason == Reason(
           Regions.Summary(row.addrDetail),
           BaseFee(FindFees(fees, year, aff, result.regions)),
           ExtraStops(row.destCount), opts, TonnageAmount(fees, year, aff, opts.selectedTonnage), fmt)
  {
    var rawAddr := row.addrDetail;
    var cleanAff := DriverAffiliation(row.driverDiv);
    var year := DispatchYear(row.date, currentYear);
    var regions := RegionsInAddr(rawAddr);

    var baseFee := ChooseBaseFee(fees, year, cleanAff, regions);
    var basePrice := if baseFee.Some? then baseFee.value.price else 0;
    var extraAmount, extraStops, tonnageAmount := Surcharges(fees, year, cleanAff, row.destCount, opts);
    var finalPrice := basePrice + extraAmount;

    var summary := Regions.SummarizeRegions(rawAddr);
    var reason := Explain(summary, baseFee, extraStops, opts, tonnageAmount, fmt);
    result := SmartPrice(basePrice, extraAmount, finalPrice, reason, regions, basePrice > 0);
  }

  /** Steps 2 and 3 of `calculateSmartPrice`: the candidates, sorted by price, and the first of them. */
  method ChooseBaseFee(fees: seq<FeeRecord>, year: Option<int>, aff: string, regions: seq<string>)
    returns (baseFee: Option<FeeRecord>)
    ensures baseFee == BaseFee(FindFees(fees, year, aff, regions))
    ensures (if baseFee.Some? then baseFee.value.price else 0) == BasePrice(fees, year, aff, regions)
  {
    var matched := FindFees(fees, year, aff, regions);
    baseFee := None;
    if |matched| > 0 {
      var sorted := SortBy(matched, PriceDesc);
      baseFee := Some(sorted[0]);
    }
  }

  /** Steps 4 and 5 of `calculateSmartPrice`: the auxiliary fees and the surcharge. */
  method Surcharges(fees: seq<FeeRecord>, year: Option<int>, aff: string, destCount: int, opts: Options)
    returns (extraAmount: int, extraStops: nat, tonnageAmount: int)
    ensures extraAmount == ExtraAmount(fees, year, aff, destCount, opts)
    ensures extraStops == ExtraStops(destCount)
    ensures tonnageAmount == TonnageAmount(fees, year, aff, opts.selectedTonnage)
  {
    var stopCount := StopCount(destCount);
    var extraStopFee := FindExtraFee(fees, year, aff, ExtraStopRegion);
    var pboxFee := FindExtraFee(fees, year, aff, PboxRegion);
    var returnFee := FindExtraFee(fees, year, aff, ReturnRegion);

    var stopPrice := if extraStopFee.Some? then extraStopFee.value.price else 0;
    var pboxPrice := if pboxFee.Some? then pboxFee.value.price else 0;
    var returnPrice := if returnFee.Some? then returnFee.value.price else 0;

    extraStops := if stopCount - 1 > 0 then stopCount - 1 else 0;
    var stopsAmount := extraStops * stopPrice;
    extraAmount := stopsAmount;
    if opts.isPbox {
      extraAmount := extraAmount + pboxPrice;
    }
    if opts.isReturn {
      extraAmount := extraAmount + returnPrice;
    }
    extraAmount := extraAmount + opts.gwon * 10000;

    tonnageAmount := 0;
    if opts.selectedTonnage != "" {
      var tonnageFee := FindExtraFee(fees, year, aff, opts.selectedTonnage);
      if tonnageFee.Some? {
        tonnageAmount := tonnageFee.value.price;
        extraAmount := extraAmount + tonnageAmount;
      }
    }

    assert extraAmount == stopsAmount + (if opts.isPbox then pboxPrice else 0) + (if opts.isReturn then returnPrice else 0)
                          + opts.gwon * 10000 + tonnageAmount;
    ExtraAmountParts(fees, year, aff, destCount, opts, stopsAmount, pboxPrice, returnPrice, tonnageAmount);
  }

}
