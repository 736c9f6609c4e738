/**
 * The versioned price table of `api/storage.js`: `saveFee`, `archiveFee`,
 * `deleteFee` and `saveFeesBulk` over the in-memory fee list. A price change
 * never edits a record: it freezes every active record of the same
 * (affiliation, year, region) tuple and appends a fresh active one.
 */
module PriceTable {
  import opened Wrappers
  import opened Text
  import opened Records

  /** The region suffix of a frozen record. */
  const ChangedMark: string := " (변경)"

  /** The memo note of a record frozen by a price change: `[date 수정]`. */
  function ChangeNote(date: string): string {
    "[" + date + " 수정]"
  }

  /** The memo note of a record archived by hand: `[date 이력전환]`. */
  function ArchiveNote(date: string): string {
    "[" + date + " 이력전환]"
  }

  /** `fee.idx ? parseInt(fee.idx) : null`: an absent or zero id is no id. */
  function KnownId(input: FeeInput): Option<int> {
    if input.idx.Some? && input.idx.value != 0 then input.idx else None
  }

  /** `list.findIndex(item => parseInt(item.idx) === id)`, -1 when absent. */
  function FindIndex(list: seq<FeeRecord>, id: int): (t: int)
    ensures -1 <= t < |list|
    ensures t >= 0 ==> list[t].idx == id && forall j :: 0 <= j < t ==> list[j].idx != id
    ensures t == -1 <==> forall j :: 0 <= j < |list| ==> list[j].idx != id
  {
    if list == [] then -1
    else if list[0].idx == id then 0
    else
      var t := FindIndex(list[1..], id);
      assert forall j :: 1 <= j < |list| ==> list[j] == list[1..][j - 1];
      if t == -1 then -1 else t + 1
  }

  /** The (trimmed affiliation, year, trimmed region) tuple a record is versioned under. */
  datatype Key = Key(affiliation: string, year: int, region: string)

  function KeyOf(f: FeeRecord): Key {
    Key(Trim(f.affiliation), f.year, Trim(f.region))
  }

  /** The test of the freeze loop: an active record of the tuple `key`. */
  predicate ActiveFor(f: FeeRecord, key: Key) {
    !f.readonly && KeyOf(f) == key
  }

  /** The invariant the versioning rule maintains: at most one active record per tuple. */
  predicate OneActivePerTuple(list: seq<FeeRecord>) {
    forall i, j :: 0 <= i < j < |list| && !list[i].readonly && !list[j].readonly ==> KeyOf(list[i]) != KeyOf(list[j])
  }

  /** `(region || '').replace(' (변경)', '') + ' (변경)'` */
  function FreezeRegion(region: string): string {
    ReplaceFirst(region, ChangedMark, "") + ChangedMark
  }

  /** `(memo ? memo + ' ' : '') + note` */
  function MemoWithNote(memo: string, note: string): (r: string)
    ensures |r| >= |note| && r[|r| - |note|..] == note
  {
    (if memo == "" then "" else memo + " ") + note
  }

  /** The old memo survives in front of the note: the note alone replaces only an empty memo. */
  lemma MemoKeepsOldMemo(memo: string, note: string)
    ensures memo == "" ==> MemoWithNote(memo, note) == note
    ensures memo != "" ==> (|MemoWithNote(memo, note)| == |memo| + 1 + |note|
                            && MemoWithNote(memo, note)[..|memo| + 1] == memo + " ")
  {
    if memo != "" {
      assert MemoWithNote(memo, note) == (memo + " ") + note;
    }
  }

  /** A frozen copy of `f`: readonly, region marked, memo noted; id, price and the rest kept. */
  function Frozen(f: FeeRecord, note: string): FeeRecord {
    f.(region := FreezeRegion(f.region), memo := MemoWithNote(f.memo, note), readonly := true)
  }

  function FreezeIf(f: FeeRecord, key: Key, note: string): FeeRecord {
    if ActiveFor(f, key) then Frozen(f, note) else f
  }

  /** The effect of the freeze loop on the whole list. */
  function FreezeAll(list: seq<FeeRecord>, key: Key, note: string): (r: seq<FeeRecord>)
    ensures |r| == |list|
  {
    seq(|list|, i requires 0 <= i < |list| => FreezeIf(list[i], key, note))
  }

  /** The create path: freeze the tuple of `rec`, then append `rec`. */
  function Create(list: seq<FeeRecord>, rec: FeeRecord, note: string): seq<FeeRecord> {
    FreezeAll(list, KeyOf(rec), note) + [rec]
  }

  /** `{...baseData, ...fee, idx, readonly: false, price}` with the input's memo choice. */
  function NewRecord(input: FeeInput, id: int, memo: string): FeeRecord {
    FeeRecord(id, input.affiliation, input.region, input.year, input.price, input.tonnage, memo, false)
  }

  /** `{...list[targetIdx], ...fee, idx: feeIdx}`: the input's fields over the stored record. */
  function Merged(input: FeeInput, id: int, stored: FeeRecord): FeeRecord {
    FeeRecord(id, input.affiliation, input.region, input.year, input.price, input.tonnage, input.memo, stored.readonly)
  }

  /**
   * `isPriceChanged`: an explicit `true` flag, or, when the flag is absent,
   * a stored target whose price differs from the incoming one.
   */
  predicate PriceChanged(input: FeeInput, target: Option<FeeRecord>) {
    input.priceChanged == Some(true)
    || (input.priceChanged.None? && target.Some? && target.value.price != input.price)
  }

  /** The target record of an input, if it names a stored id. */
  function TargetOf(list: seq<FeeRecord>, id: Option<int>): (t: int)
    ensures -1 <= t < |list|
  {
    if id.Some? then FindIndex(list, id.value) else -1
  }

  function AtIndex(list: seq<FeeRecord>, t: int): Option<FeeRecord>
    requires -1 <= t < |list|
  {
    if t == -1 then None else Some(list[t])
  }

  /** `saveFee(fee)`: the returned flag and the new list. */
  function SaveFeeResult(list: seq<FeeRecord>, input: FeeInput, freshId: int, date: string): (bool, seq<FeeRecord>) {
    var id := KnownId(input);
    var t := TargetOf(list, id);
    if t != -1 && list[t].readonly then (false, list)
    else if PriceChanged(input, AtIndex(list, t)) || id.None? then
      (true, Create(list, NewRecord(input, freshId, input.memo), ChangeNote(date)))
    else if t != -1 then (true, list[t := Merged(input, id.value, list[t])])
    else (true, list)
  }

  /** `archiveFee(idx)`: the returned flag and the new list. */
  function ArchiveResult(list: seq<FeeRecord>, id: int, date: string): (bool, seq<FeeRecord>) {
    var t := FindIndex(list, id);
    if t == -1 then (false, list) else (true, list[t := Frozen(list[t], ArchiveNote(date))])
  }

  /** `list.filter(item => parseInt(item.idx) !== parseInt(idx))` */
  function WithoutId(list: seq<FeeRecord>, id: int): (r: seq<FeeRecord>)
    ensures |r| <= |list|
  {
    if list == [] then []
    else WithoutId(list[..|list| - 1], id) + (if list[|list| - 1].idx == id then [] else [list[|list| - 1]])
  }

  /** One entry of `saveFeesBulk`: the new list and the new value of `count`. */
  function BulkStep(list: seq<FeeRecord>, count: nat, input: FeeInput, now: int, note: string): (seq<FeeRecord>, nat) {
    var id := KnownId(input);
    var t := TargetOf(list, id);
    if PriceChanged(input, AtIndex(list, t)) || t == -1 then
      var memo := if input.memo != "" then input.memo else if t != -1 then list[t].memo else "";
      (Create(list, NewRecord(input, now + count, memo), note), count + 1)
    else (list[t := Merged(input, id.value, list[t])], count)
  }

  /** `saveFeesBulk(fees)`: the entries applied in order to one list, from `count = 0`. */
  function BulkResult(list: seq<FeeRecord>, inputs: seq<FeeInput>, now: int, note: string): (seq<FeeRecord>, nat) {
    if inputs == [] then (list, 0)
    else
      var prev := BulkResult(list, inputs[..|inputs| - 1], now, note);
      BulkStep(prev.0, prev.1, inputs[|inputs| - 1], now, note)
  }

  /** The fee list of `api/storage.js`; a write to it always succeeds. */
  class FeeStore {
    var fees: seq<FeeRecord>

    constructor(initial: seq<FeeRecord>)
      ensures fees == initial
    {
      fees := initial;
    }

    /** The freeze loop: every active record of `key` is frozen in place. */
    method FreezeMatching(key: Key, note: string)
      modifies this
      ensures fees == FreezeAll(old(fees), key, note)
    {
      var i := 0;
      while i < |fees|
        invariant 0 <= i <= |fees| == |old(fees)|
        invariant forall j :: 0 <= j < i ==> fees[j] == FreezeIf(old(fees)[j], key, note)
        invariant forall j :: i <= j < |fees| ==> fees[j] == old(fees)[j]
      {
        if ActiveFor(fees[i], key) {
          fees := fees[i := Frozen(fees[i], note)];
        }
        i := i + 1;
      }
    }

    /** `saveFee(fee)` with `Date.now()` as `freshId` and the formatted date as `date`. */
    method SaveFee(input: FeeInput, freshId: int, date: string) returns (ok: bool)
      modifies this
      ensures (ok, fees) == SaveFeeResult(old(fees), input, freshId, date)
    {
      var id := KnownId(input);
      var target := TargetOf(fees, id);
      var changed := input.priceChanged == Some(true);
      if target != -1 {
        if fees[target].readonly {
          return false;
        }
        if input.priceChanged.None? && fees[target].price != input.price {
          changed := true;
        }
      }
      if changed || id.None? {
        var rec := NewRecord(input, freshId, input.memo);
        FreezeMatching(KeyOf(rec), ChangeNote(date));
        fees := fees + [rec];
      } else if target != -1 {
        fees := fees[target := Merged(input, id.value, fees[target])];
      }
      ok := true;
    }

    /** `archiveFee(idx)` */
    method ArchiveFee(id: int, date: string) returns (ok: bool)
      modifies this
      ensures (ok, fees) == ArchiveResult(old(fees), id, date)
    {
      var target := FindIndex(fees, id);
      if target == -1 {
        return false;
      }
      fees := fees[target := Frozen(fees[target], ArchiveNote(date))];
      ok := true;
    }

    /** `deleteFee(idx)` */
    method DeleteFee(id: int) returns (ok: bool)
      modifies this
      ensures ok && fees == WithoutId(old(fees), id)
    {
      fees := WithoutId(fees, id);
      ok := true;
    }

    /** One pass of the `saveFeesBulk` loop body. */
    method BulkSaveOne(input: FeeInput, now: int, count: nat, note: string) returns (count': nat)
      modifies this
      ensures (fees, count') == BulkStep(old(fees), count, input, now, note)
    {
      var id := KnownId(input);
      var target := TargetOf(fees, id);
      var changed := input.priceChanged == Some(true);
      if target != -1 && input.priceChanged.None? && fees[target].price != input.price {
        changed := true;
      }
      count' := count;
      if changed || target == -1 {
        var memo := if input.memo != "" then input.memo else if target != -1 then fees[target].memo else "";
        var rec := NewRecord(input, now + count', memo);
        count' := count' + 1;
        FreezeMatching(KeyOf(rec), note);
        fees := fees + [rec];
      } else {
        fees := fees[target := Merged(input, id.value, fees[target])];
      }
    }

    /** `saveFeesBulk(fees)` with `Date.now()` as `now`; returns the number of records created. */
    method SaveFeesBulk(inputs: seq<FeeInput>, now: int, date: string) returns (created: nat)
      modifies this
      ensures (fees, created) == BulkResult(old(fees), inputs, now, ChangeNote(date))
    {
      var note := ChangeNote(date);
      created := 0;
      for i := 0 to |inputs|
        invariant (fees, created) == BulkResult(old(fees), inputs[..i], now, note)
      {
        assert inputs[..i + 1][..i] == inputs[..i];
        created := BulkSaveOne(inputs[i], now, created, note);
      }
      assert inputs[..|inputs|] == inputs;
    }
  }

  // ---------------------------------------------------------------------------
  // The versioning rule

  /** A frozen region carries the mark once: freezing it again changes nothing. */
  lemma FreezeRegionOnce(region: string)
    requires !Contains(region, ChangedMark)
    ensures FreezeRegion(region) == region + ChangedMark
    ensures FreezeRegion(FreezeRegion(region)) == FreezeRegion(region)
  {
    var mark := ChangedMark;
    assert forall i :: 0 <= i < |mark| - 1 ==> mark[i] != mark[|mark| - 1];
    ReplaceFirstAppended(region, mark);
  }

  /**
   * The create path freezes exactly the active records of the new record's
   * tuple, keeping their id and price, and appends the new record.
   */
  lemma CreateFreezesTuple(list: seq<FeeRecord>, rec: FeeRecord, note: string)
    ensures var r := Create(list, rec, note);
      && |r| == |list| + 1 && r[|list|] == rec
      && forall i :: 0 <= i < |list| ==>
           if ActiveFor(list[i], KeyOf(rec)) then
             r[i].readonly && r[i].idx == list[i].idx && r[i].price == list[i].price
             && r[i].region == FreezeRegion(list[i].region) && r[i].memo == MemoWithNote(list[i].memo, note)
           else r[i] == list[i]
  {
  }

  /** After the create path the new record is the only active record of its tuple. */
  lemma CreateLeavesOneActive(list: seq<FeeRecord>, rec: FeeRecord, note: string)
    ensures forall i :: 0 <= i < |list| ==> !ActiveFor(Create(list, rec, note)[i], KeyOf(rec))
  {
    var r := Create(list, rec, note);
    forall i | 0 <= i < |list|
      ensures !ActiveFor(r[i], KeyOf(rec))
    {
      assert r[i] == FreezeIf(list[i], KeyOf(rec), note);
    }
  }

  /** The create path keeps at most one active record per tuple. */
  lemma CreateKeepsOneActive(list: seq<FeeRecord>, rec: FeeRecord, note: string)
    requires OneActivePerTuple(list)
    ensures OneActivePerTuple(Create(list, rec, note))
  {
    var r := Create(list, rec, note);
    CreateLeavesOneActive(list, rec, note);
    forall i, j | 0 <= i < j < |r| && !r[i].readonly && !r[j].readonly
      ensures KeyOf(r[i]) != KeyOf(r[j])
    {
      assert r[i] == list[i] by {
        assert r[i] == FreezeIf(list[i], KeyOf(rec), note);
      }
      if j < |list| {
        assert r[j] == FreezeIf(list[j], KeyOf(rec), note);
        assert r[j] == list[j];
      } else {
        assert !ActiveFor(r[i], KeyOf(rec));
      }
    }
  }

  // ---------------------------------------------------------------------------
  // saveFee

  /** A save aimed at a stored readonly record is refused and changes nothing; nothing else is refused. */
  lemma SaveFeeRefusal(list: seq<FeeRecord>, input: FeeInput, freshId: int, date: string)
    ensures var (ok, r) := SaveFeeResult(list, input, freshId, date);
      && (!ok <==> exists t :: 0 <= t < |list| && KnownId(input) == Some(list[t].idx) && list[t].readonly
                            && forall j :: 0 <= j < t ==> list[j].idx != list[t].idx)
      && (!ok ==> r == list)
  {
    var t := TargetOf(list, KnownId(input));
    if !SaveFeeResult(list, input, freshId, date).0 {
      assert 0 <= t < |list| && KnownId(input) == Some(list[t].idx) && list[t].readonly;
    }
  }

  /** An explicit `true` flag, or an absent id, always takes the create path. */
  lemma SaveFeeCreates(list: seq<FeeRecord>, input: FeeInput, freshId: int, date: string)
    requires input.priceChanged == Some(true) || KnownId(input).None?
    requires forall t :: 0 <= t < |list| && KnownId(input) == Some(list[t].idx) ==> !list[t].readonly
    ensures SaveFeeResult(list, input, freshId, date) == (true, Create(list, NewRecord(input, freshId, input.memo), ChangeNote(date)))
  {
  }

  /** Without the flag, a stored active target with a different price takes the create path. */
  lemma SaveFeeDetectsPriceChange(list: seq<FeeRecord>, input: FeeInput, freshId: int, date: string, t: int)
    requires input.priceChanged.None? && 0 <= t < |list| && KnownId(input) == Some(list[t].idx)
    requires forall j :: 0 <= j < t ==> list[j].idx != list[t].idx
    requires !list[t].readonly && list[t].price != input.price
    ensures SaveFeeResult(list, input, freshId, date) == (true, Create(list, NewRecord(input, freshId, input.memo), ChangeNote(date)))
  {
    assert FindIndex(list, list[t].idx) == t;
  }

  /**
   * Without a price change, a known id merges the input into its record in
   * place: the list keeps its length, the record its id, the others are untouched.
   */
  lemma SaveFeeMergesInPlace(list: seq<FeeRecord>, input: FeeInput, freshId: int, date: string, t: int)
    requires 0 <= t < |list| && KnownId(input) == Some(list[t].idx) && !list[t].readonly
    requires forall j :: 0 <= j < t ==> list[j].idx != list[t].idx
    requires input.priceChanged == Some(false) || (input.priceChanged.None? && list[t].price == input.price)
    ensures var (ok, r) := SaveFeeResult(list, input, freshId, date);
      && ok && |r| == |list| && r[t].idx == list[t].idx
      && r[t].price == input.price && r[t].region == input.region && r[t].memo == input.memo
      && forall j :: 0 <= j < |list| && j != t ==> r[j] == list[j]
  {
    assert FindIndex(list, list[t].idx) == t;
  }

  /** Without the flag set to `true`, an unknown id changes nothing. */
  lemma SaveFeeUnknownId(list: seq<FeeRecord>, input: FeeInput, freshId: int, date: string)
    requires KnownId(input).Some? && input.priceChanged != Some(true)
    requires forall j :: 0 <= j < |list| ==> Some(list[j].idx) != KnownId(input)
    ensures SaveFeeResult(list, input, freshId, date) == (true, list)
  {
  }

  /** Every save that takes the create path keeps at most one active record per tuple. */
  lemma SaveFeeKeepsOneActive(list: seq<FeeRecord>, input: FeeInput, freshId: int, date: string)
    requires OneActivePerTuple(list)
    requires |SaveFeeResult(list, input, freshId, date).1| != |list|
    ensures OneActivePerTuple(SaveFeeResult(list, input, freshId, date).1)
  {
    CreateKeepsOneActive(list, NewRecord(input, freshId, input.memo), ChangeNote(date));
  }

  /**
   * The merge path does not keep the invariant: moving an active record onto
   * the tuple of another active record leaves two active records there.
   */
  lemma MergeCanBreakOneActive(list: seq<FeeRecord>, input: FeeInput, freshId: int, date: string, t: int, u: int)
    requires OneActivePerTuple(list)
    requires 0 <= t < |list| && 0 <= u < |list| && t != u && !list[u].readonly
    requires KnownId(input) == Some(list[t].idx) && !list[t].readonly
    requires forall j :: 0 <= j < t ==> list[j].idx != list[t].idx
    requires input.priceChanged == Some(false)
    requires Key(Trim(input.affiliation), input.year, Trim(input.region)) == KeyOf(list[u])
    ensures !OneActivePerTuple(SaveFeeResult(list, input, freshId, date).1)
  {
    SaveFeeMergesInPlace(list, input, freshId, date, t);
    var r := SaveFeeResult(list, input, freshId, date).1;
    assert r[t] == Merged(input, list[t].idx, list[t]) && r[u] == list[u];
    assert KeyOf(r[t]) == KeyOf(r[u]);
    if t < u {
      assert !(KeyOf(r[t]) != KeyOf(r[u]));
    } else {
      assert !(KeyOf(r[u]) != KeyOf(r[t]));
    }
  }

  // ---------------------------------------------------------------------------
  // archiveFee and deleteFee

  /** An unknown id is refused and changes nothing. */
  lemma ArchiveUnknownId(list: seq<FeeRecord>, id: int, date: string)
    requires forall j :: 0 <= j < |list| ==> list[j].idx != id
    ensures ArchiveResult(list, id, date) == (false, list)
  {
  }

  /** A known id freezes its first record, readonly or not, and only that one. */
  lemma ArchiveFreezesOne(list: seq<FeeRecord>, id: int, date: string, t: int)
    requires 0 <= t < |list| && list[t].idx == id
    requires forall j :: 0 <= j < t ==> list[j].idx != id
    ensures var (ok, r) := ArchiveResult(list, id, date);
      && ok && |r| == |list|
      && r[t].readonly && r[t].idx == id && r[t].price == list[t].price
      && r[t].region == FreezeRegion(list[t].region) && r[t].memo == MemoWithNote(list[t].memo, ArchiveNote(date))
      && forall j :: 0 <= j < |list| && j != t ==> r[j] == list[j]
  {
    assert FindIndex(list, id) == t;
  }

  /** `deleteFee` keeps exactly the records with another id, readonly ones included. */
  lemma {:induction false} WithoutIdMembers(list: seq<FeeRecord>, id: int)
    ensures forall f :: f in WithoutId(list, id) <==> f in list && f.idx != id
  {
    if list != [] {
      WithoutIdMembers(list[..|list| - 1], id);
      assert list == list[..|list| - 1] + [list[|list| - 1]];
    }
  }

  /** ... in their original order: the filter distributes over concatenation. */
  lemma {:induction false} WithoutIdAppend(a: seq<FeeRecord>, b: seq<FeeRecord>, id: int)
    ensures WithoutId(a + b, id) == WithoutId(a, id) + WithoutId(b, id)
    decreases |b|
  {
    if b != [] {
      var init := b[..|b| - 1];
      assert (a + b)[..|a + b| - 1] == a + init;
      WithoutIdAppend(a, init, id);
    } else {
      assert a + b == a;
    }
  }

  /** Deleting an id nobody has changes nothing. */
  lemma {:induction false} WithoutAbsentId(list: seq<FeeRecord>, id: int)
    requires forall j :: 0 <= j < |list| ==> list[j].idx != id
    ensures WithoutId(list, id) == list
  {
    if list != [] {
      WithoutAbsentId(list[..|list| - 1], id);
    }
  }

  // ---------------------------------------------------------------------------
  // saveFeesBulk

  /** One bulk entry keeps the ids of the stored records and appends at most one record, with id `now + count`. */
  lemma BulkStepIds(list: seq<FeeRecord>, count: nat, input: FeeInput, now: int, note: string)
    ensures var (r, c) := BulkStep(list, count, input, now, note);
      && (c == count || c == count + 1)
      && |r| == |list| + (c - count)
      && (forall i :: 0 <= i < |list| ==> r[i].idx == list[i].idx)
      && (c == count + 1 ==> r[|list|].idx == now + count && !r[|list|].readonly)
  {
    var (r, c) := BulkStep(list, count, input, now, note);
    if c == count + 1 {
      forall i | 0 <= i < |list|
        ensures r[i].idx == list[i].idx
      {
        assert r[i] == FreezeIf(list[i], KeyOf(r[|list|]), note);
      }
    }
  }

  /**
   * After a bulk save, the records created are appended in batch order with
   * ids `now`, `now + 1`, ..., and every stored record keeps its id.
   */
  lemma {:induction false} BulkFreshIds(list: seq<FeeRecord>, inputs: seq<FeeInput>, now: int, note: string)
    ensures var (r, c) := BulkResult(list, inputs, now, note);
      && |r| == |list| + c && c <= |inputs|
      && (forall i :: 0 <= i < |list| ==> r[i].idx == list[i].idx)
      && (forall k :: |list| <= k < |r| ==> r[k].idx == now + (k - |list|))
  {
    if inputs != [] {
      var init := inputs[..|inputs| - 1];
      BulkFreshIds(list, init, now, note);
      var (p, pc) := BulkResult(list, init, now, note);
      BulkStepIds(p, pc, inputs[|inputs| - 1], now, note);
    }
  }

  /** Hence the records created by one bulk save have pairwise distinct ids. */
  lemma BulkIdsDistinct(list: seq<FeeRecord>, inputs: seq<FeeInput>, now: int, note: string)
    ensures var r := BulkResult(list, inputs, now, note).0;
      |list| <= |r| && forall k, l :: |list| <= k < l < |r| ==> r[k].idx != r[l].idx
  {
    BulkFreshIds(list, inputs, now, note);
  }

  /** Unlike `saveFee`, a bulk entry aimed at a readonly record with a new price is not refused. */
  lemma BulkReadonlyTarget(list: seq<FeeRecord>, count: nat, input: FeeInput, now: int, note: string, t: int)
    requires 0 <= t < |list| && KnownId(input) == Some(list[t].idx) && list[t].readonly
    requires forall j :: 0 <= j < t ==> list[j].idx != list[t].idx
    requires input.priceChanged.None? && list[t].price != input.price
    ensures BulkStep(list, count, input, now, note).1 == count + 1
    ensures |BulkStep(list, count, input, now, note).0| == |list| + 1
  {
    assert FindIndex(list, list[t].idx) == t;
  }

  /** A bulk entry with an unknown id creates a record whatever its flag says. */
  lemma BulkUnknownId(list: seq<FeeRecord>, count: nat, input: FeeInput, now: int, note: string)
    requires forall j :: 0 <= j < |list| ==> Some(list[j].idx) != KnownId(input)
    ensures BulkStep(list, count, input, now, note).1 == count + 1
    ensures BulkStep(list, count, input, now, note).0[|list|].idx == now + count
  {
  }

  /** Each bulk entry sees the freezes of the entries before it: creating keeps one active record per tuple. */
  lemma BulkStepKeepsOneActive(list: seq<FeeRecord>, count: nat, input: FeeInput, now: int, note: string)
    requires OneActivePerTuple(list)
    requires BulkStep(list, count, input, now, note).1 == count + 1
    ensures OneActivePerTuple(BulkStep(list, count, input, now, note).0)
  {
    var t := TargetOf(list, KnownId(input));
    var memo := if input.memo != "" then input.memo else if t != -1 then list[t].memo else "";
    CreateKeepsOneActive(list, NewRecord(input, now + count, memo), note);
  }
}
