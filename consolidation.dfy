/**
 * The dispatch consolidation of the `/api/summary` handler (`api/index.js`):
 * dispatch rows of registered drivers that pass the name search are grouped
 * by (date, whitespace-free driver name); each group sums its counts and
 * weights, collects its distinct destinations and addresses, rounds its
 * weight up, and is dropped when settlement history already holds its key.
 */
module Consolidation {
  import opened Wrappers
  import opened Text
  import opened Seqs
  import opened Records
  import Regions

  /**
   * One dispatch row after serialisation. `totalWeight` is the exact sum the
   * query reports; `tonnage` is the `(maxWeight / 1000) + 'T'` label.
   */
  datatype DispatchRow = DispatchRow(
    date: string,
    driverName: string,
    driverDiv: string,
    tonnage: string,
    destList: string,
    addrDetail: string,
    totalCount: int,
    totalWeight: real)

  /**
   * The string defaults of the serialisation: the date's first ten characters,
   * '미지정' for a missing name, '-' for a missing division, '' for missing lists.
   */
  function Serialize(rawDate: string, name: string, div: string, tonnage: string, destList: string,
                     addrList: string, totalCount: int, totalWeight: real): (row: DispatchRow)
    ensures row.driverName != "" && row.driverDiv != ""
    ensures |row.date| == (if |rawDate| < 10 then |rawDate| else 10) && row.date == rawDate[..|row.date|]
    ensures name != "" ==> row.driverName == name
    ensures div != "" ==> row.driverDiv == div
  {
    DispatchRow(Take(rawDate, 10), if name == "" then "미지정" else name, if div == "" then "-" else div,
      tonnage, destList, addrList, totalCount, totalWeight)
  }

  // ---------------------------------------------------------------------------
  // Which rows take part

  /** `(name || '').replace(/\s/g, '').trim()` */
  function CleanName(name: string): string {
    StripWhite(name)
  }

  /** `registeredDrivers.find(d => clean(d.name) === clean)` */
  function FindDriver(drivers: seq<DriverRecord>, clean: string): (r: Option<DriverRecord>)
    ensures r.Some? ==> r.value in drivers && CleanName(r.value.name) == clean
    ensures r.None? <==> forall j :: 0 <= j < |drivers| ==> CleanName(drivers[j].name) != clean
  {
    if drivers == [] then None
    else if CleanName(drivers[0].name) == clean then Some(drivers[0])
    else
      var r := FindDriver(drivers[1..], clean);
      assert forall j :: 1 <= j < |drivers| ==> drivers[j] == drivers[1..][j - 1];
      r
  }

  /** `query.split(',').map(d => d.trim()).filter(d => d)`: the search names. */
  function SearchTokens(query: string): (r: seq<string>)
    ensures forall k :: 0 <= k < |r| ==> r[k] != ""
  {
    Regions.NonEmptyTrimmed(Split(query, ","))
  }

  /** No search names, or some search name (spaces removed) occurs in the clean name. */
  predicate NameMatches(tokens: seq<string>, clean: string) {
    tokens == [] || exists k :: 0 <= k < |tokens| && Contains(clean, StripWhite(tokens[k]))
  }

  /** The two filters a row must pass: a registered driver, and the name search. */
  predicate Survives(row: DispatchRow, drivers: seq<DriverRecord>, tokens: seq<string>) {
    FindDriver(drivers, CleanName(row.driverName)).Some? && NameMatches(tokens, CleanName(row.driverName))
  }

  /** `${date}_${cleanName}` */
  function GroupKey(date: string, clean: string): string {
    date + "_" + clean
  }

  function RowKey(row: DispatchRow): string {
    GroupKey(row.date, CleanName(row.driverName))
  }

  // ---------------------------------------------------------------------------
  // One group

  /** `s.replace(/[\r\n]/g, ' ')` */
  function NewlinesToSpaces(s: string): (r: string)
    ensures |r| == |s| && '\r' !in r && '\n' !in r
    ensures forall i :: 0 <= i < |s| && r[i] != s[i] ==> r[i] == ' '
    ensures '\r' !in s && '\n' !in s ==> r == s
  {
    seq(|s|, i requires 0 <= i < |s| => if s[i] == '\r' || s[i] == '\n' then ' ' else s[i])
  }

  /** `s.replace(/[\r\n]/g, ' ').trim()` */
  function CleanPart(s: string): string {
    Trim(NewlinesToSpaces(s))
  }

  /** The cleaned parts that are not empty, in order. */
  function CleanParts(parts: seq<string>): seq<string> {
    if parts == [] then []
    else
      var t := CleanPart(parts[0]);
      var rest := CleanParts(parts[1..]);
      if t == "" then rest else [t] + rest
  }

  /** The destinations a row adds to its group's `destSet`. */
  function Destinations(row: DispatchRow): seq<string> {
    if row.destList == "" then [] else CleanParts(Split(row.destList, ","))
  }

  /** The addresses a row adds to its group's `addrSet`. */
  function Addresses(row: DispatchRow): seq<string> {
    if row.addrDetail == "" then [] else CleanParts(Split(row.addrDetail, "||"))
  }

  /** A division that the source treats as given: not empty and not '-'. */
  predicate DivGiven(d: string) {
    d != "" && d != "-"
  }

  /** An entry of `consolidatedMap`; `dests` and `addrs` are its two insertion-ordered sets. */
  datatype Group = Group(
    date: string,
    driverName: string,
    driverDiv: string,
    tonnage: string,
    totalCount: int,
    totalWeight: real,
    dests: seq<string>,
    addrs: seq<string>)

  /** The registered driver's affiliation, '' when it has none. */
  function RegisteredAffiliation(row: DispatchRow, drivers: seq<DriverRecord>): string {
    var reg := FindDriver(drivers, CleanName(row.driverName));
    if reg.Some? then reg.value.affiliation else ""
  }

  /** The entry created for the first row of a key. */
  function NewGroup(row: DispatchRow, regAff: string): Group {
    Group(row.date, row.driverName,
      if regAff != "" then regAff else if DivGiven(row.driverDiv) then CleanPart(row.driverDiv) else "",
      row.tonnage, 0, 0.0, [], [])
  }

  /** What each row of a key does to its entry. */
  function Absorb(g: Group, row: DispatchRow): Group {
    g.(driverDiv := if !DivGiven(g.driverDiv) && DivGiven(row.driverDiv) then CleanPart(row.driverDiv) else g.driverDiv,
       totalCount := g.totalCount + row.totalCount,
       totalWeight := g.totalWeight + row.totalWeight,
       dests := AddAll(g.dests, Destinations(row)),
       addrs := AddAll(g.addrs, Addresses(row)))
  }

  /** The entry built from the rows `rs` of one key, in order. */
  function FoldGroup(rs: seq<DispatchRow>, drivers: seq<DriverRecord>): Group
    requires rs != []
  {
    if |rs| == 1 then Absorb(NewGroup(rs[0], RegisteredAffiliation(rs[0], drivers)), rs[0])
    else Absorb(FoldGroup(rs[..|rs| - 1], drivers), rs[|rs| - 1])
  }

  function SumCounts(rs: seq<DispatchRow>): int {
    if rs == [] then 0 else SumCounts(rs[..|rs| - 1]) + rs[|rs| - 1].totalCount
  }

  function SumWeights(rs: seq<DispatchRow>): real {
    if rs == [] then 0.0 else SumWeights(rs[..|rs| - 1]) + rs[|rs| - 1].totalWeight
  }

  function AllDests(rs: seq<DispatchRow>): seq<string> {
    if rs == [] then [] else AllDests(rs[..|rs| - 1]) + Destinations(rs[|rs| - 1])
  }

  function AllAddrs(rs: seq<DispatchRow>): seq<string> {
    if rs == [] then [] else AllAddrs(rs[..|rs| - 1]) + Addresses(rs[|rs| - 1])
  }

  // ---------------------------------------------------------------------------
  // The grouping loop

  /** `consolidatedMap`: its keys in insertion order and its entries. */
  datatype Table = Table(keys: seq<string>, groups: map<string, Group>)

  function Step(t: Table, row: DispatchRow, drivers: seq<DriverRecord>, tokens: seq<string>): Table {
    if !Survives(row, drivers, tokens) then t
    else
      var k := RowKey(row);
      if k in t.groups then Table(t.keys, t.groups[k := Absorb(t.groups[k], row)])
      else Table(t.keys + [k], t.groups[k := Absorb(NewGroup(row, RegisteredAffiliation(row, drivers)), row)])
  }

  function Grouped(rows: seq<DispatchRow>, drivers: seq<DriverRecord>, tokens: seq<string>): Table {
    if rows == [] then Table([], map[])
    else Step(Grouped(rows[..|rows| - 1], drivers, tokens), rows[|rows| - 1], drivers, tokens)
  }

  /** The keys of the rows that pass the filters, in row order, repeats included. */
  function SurvivingKeys(rows: seq<DispatchRow>, drivers: seq<DriverRecord>, tokens: seq<string>): seq<string> {
    if rows == [] then []
    else
      var last := rows[|rows| - 1];
      SurvivingKeys(rows[..|rows| - 1], drivers, tokens) + (if Survives(last, drivers, tokens) then [RowKey(last)] else [])
  }

  /** The rows that pass the filters and have key `k`, in row order. */
  function RowsOf(rows: seq<DispatchRow>, drivers: seq<DriverRecord>, tokens: seq<string>, k: string): (rs: seq<DispatchRow>)
    ensures forall j :: 0 <= j < |rs| ==> RowKey(rs[j]) == k && Survives(rs[j], drivers, tokens)
  {
    if rows == [] then []
    else
      var last := rows[|rows| - 1];
      RowsOf(rows[..|rows| - 1], drivers, tokens, k) + (if Survives(last, drivers, tokens) && RowKey(last) == k then [last] else [])
  }

  // ---------------------------------------------------------------------------
  // Output

  /** One element of the response's `data`. */
  datatype Consolidated = Consolidated(
    date: string,
    driverName: string,
    driverDiv: string,
    tonnage: string,
    destDetail: string,
    addrDetail: string,
    destCount: nat,
    totalCount: int,
    totalWeight: int)

  /** `Math.ceil(x)` */
  function Ceil(x: real): (r: int)
    ensures x <= r as real < x + 1.0
  {
    var f := x.Floor;
    if f as real == x then f else f + 1
  }

  /** `parts.join(sep) || '-'` */
  function JoinOrDash(parts: seq<string>, sep: string): string {
    var s := Join(parts, sep);
    if s == "" then "-" else s
  }

  function Finish(g: Group): Consolidated {
    Consolidated(g.date, g.driverName, g.driverDiv, g.tonnage, JoinOrDash(g.dests, ", "), JoinOrDash(g.addrs, "||"),
      |g.addrs|, g.totalCount, Ceil(g.totalWeight))
  }

  /** The key under which an output item is looked up in `settledKeys`. */
  function ItemKey(g: Group): string {
    GroupKey(g.date, CleanName(g.driverName))
  }

  /** `${h.date}_${clean(h.name || h.driverName || '')}` */
  function HistoryKey(h: SettlementRecord): string {
    GroupKey(h.date, CleanName(if h.name != "" then h.name else h.driverName))
  }

  /** `settledKeys.has(key)` */
  predicate Settled(history: seq<SettlementRecord>, key: string) {
    exists j :: 0 <= j < |history| && HistoryKey(history[j]) == key
  }

  /** The finished entries of `keys`, in order, without the settled ones. */
  function Emit(keys: seq<string>, groups: map<string, Group>, history: seq<SettlementRecord>): seq<Consolidated>
    requires forall k :: k in keys ==> k in groups
  {
    if keys == [] then []
    else
      var g := groups[keys[|keys| - 1]];
      Emit(keys[..|keys| - 1], groups, history) + (if Settled(history, ItemKey(g)) then [] else [Finish(g)])
  }

  /** The response's `data` for the dispatch rows, the registered drivers, the search text and the history. */
  function Consolidation(rows: seq<DispatchRow>, drivers: seq<DriverRecord>, query: string,
                         history: seq<SettlementRecord>): seq<Consolidated> {
    var tokens := SearchTokens(query);
    var t := Grouped(rows, drivers, tokens);
    GroupedSpec(rows, drivers, tokens);
    Emit(t.keys, t.groups, history)
  }

  /** The response's `summary`. */
  datatype Totals = Totals(drivers: nat, destinations: int, shipments: int, weight: int)

  /** The summed fields. */
  function DestCountOf(c: Consolidated): int { c.destCount }
  function ShipmentsOf(c: Consolidated): int { c.totalCount }
  function WeightOf(c: Consolidated): int { c.totalWeight }

  /**
   * The summary accumulated item by item: the number of items and the sums of
   * their destination counts, shipment counts and (whole) weights.
   */
  function TotalsOf(items: seq<Consolidated>): (t: Totals)
    ensures t.drivers == |items|
    ensures t.destinations == Sum(items, DestCountOf) && t.destinations >= 0
    ensures t.shipments == Sum(items, ShipmentsOf)
    ensures t.weight == Sum(items, WeightOf)
  {
    if items == [] then Totals(0, 0, 0, 0)
    else
      var init, x := items[..|items| - 1], items[|items| - 1];
      assert items == init + [x];
      SumSnoc(init, x, DestCountOf);
      SumSnoc(init, x, ShipmentsOf);
      SumSnoc(init, x, WeightOf);
      var t := TotalsOf(init);
      Totals(t.drivers + 1, t.destinations + x.destCount, t.shipments + x.totalCount, t.weight + x.totalWeight)
  }

  /** The handler's consolidation as it runs: a loop filling the map, then one over its entries. */
  method Consolidate(rows: seq<DispatchRow>, drivers: seq<DriverRecord>, query: string,
                     history: seq<SettlementRecord>) returns (out: seq<Consolidated>)
    ensures out == Consolidation(rows, drivers, query, history)
  {
    var tokens := SearchTokens(query);
    var keys, groups := GroupRows(rows, drivers, tokens);
    GroupedSpec(rows, drivers, tokens);
    out := FinishGroups(keys, groups, history);
  }

  /** The `forEach` over the rows that fills `consolidatedMap`. */
  method GroupRows(rows: seq<DispatchRow>, drivers: seq<DriverRecord>, tokens: seq<string>)
    returns (keys: seq<string>, groups: map<string, Group>)
    ensures Table(keys, groups) == Grouped(rows, drivers, tokens)
  {
    keys, groups := [], map[];
    for i := 0 to |rows|
      invariant Table(keys, groups) == Grouped(rows[..i], drivers, tokens)
    {
      var row := rows[i];
      assert rows[..i + 1][..i] == rows[..i] && rows[..i + 1][i] == row;
      assert Grouped(rows[..i + 1], drivers, tokens) == Step(Table(keys, groups), row, drivers, tokens);
      var clean := CleanName(row.driverName);
      var registered := FindDriver(drivers, clean);
      if registered.None? {
        assert !Survives(row, drivers, tokens);
        continue;
      }
      if tokens != [] && !NameMatches(tokens, clean) {
        assert !Survives(row, drivers, tokens);
        continue;
      }
      assert Survives(row, drivers, tokens);
      var key := GroupKey(row.date, clean);
      assert key == RowKey(row);
      if key in groups {
        groups := groups[key := Absorb(groups[key], row)];
      } else {
        // a new entry, then the first row's update of it
        assert registered.value.affiliation == RegisteredAffiliation(row, drivers);
        keys := keys + [key];
        groups := groups[key := Absorb(NewGroup(row, registered.value.affiliation), row)];
      }
    }
    assert rows[..|rows|] == rows;
  }

  /** The `map` and `filter` over the entries of `consolidatedMap`. */
  method FinishGroups(keys: seq<string>, groups: map<string, Group>, history: seq<SettlementRecord>)
    returns (out: seq<Consolidated>)
    requires forall k :: k in keys ==> k in groups
    ensures out == Emit(keys, groups, history)
  {
    out := [];
    for j := 0 to |keys|
      invariant out == Emit(keys[..j], groups, history)
    {
      EmitStep(keys, groups, history, j);
      var g := groups[keys[j]];
      if !Settled(history, ItemKey(g)) {
        out := out + [Finish(g)];
      }
    }
    assert keys[..|keys|] == keys;
  }

  /** One more key extends the output by its entry, unless that entry is settled. */
  lemma EmitStep(keys: seq<string>, groups: map<string, Group>, history: seq<SettlementRecord>, j: int)
    requires forall k :: k in keys ==> k in groups
    requires 0 <= j < |keys|
    ensures forall k :: k in keys[..j + 1] ==> k in groups
    ensures Emit(keys[..j + 1], groups, history)
         == Emit(keys[..j], groups, history) + (if Settled(history, ItemKey(groups[keys[j]])) then [] else [Finish(groups[keys[j]])])
  {
    var pre := keys[..j + 1];
    assert pre[..j] == keys[..j] && pre[j] == keys[j];
  }

  // ---------------------------------------------------------------------------
  // Properties of the grouping

  /** The map's keys and its recorded insertion order agree. */
  lemma {:induction false} GroupedDomain(rows: seq<DispatchRow>, drivers: seq<DriverRecord>, tokens: seq<string>, k: string)
    ensures k in Grouped(rows, drivers, tokens).groups <==> k in Grouped(rows, drivers, tokens).keys
  {
    if rows != [] {
      var init, row := rows[..|rows| - 1], rows[|rows| - 1];
      GroupedDomain(init, drivers, tokens, k);
      if Survives(row, drivers, tokens) {
        GroupedDomain(init, drivers, tokens, RowKey(row));
      }
    }
  }

  /** The map's keys are the distinct keys of the surviving rows, in order of first appearance. */
  lemma {:induction false} GroupedKeys(rows: seq<DispatchRow>, drivers: seq<DriverRecord>, tokens: seq<string>)
    ensures Grouped(rows, drivers, tokens).keys == Dedup(SurvivingKeys(rows, drivers, tokens))
  {
    if rows != [] {
      var init, row := rows[..|rows| - 1], rows[|rows| - 1];
      GroupedKeys(init, drivers, tokens);
      var t0 := Grouped(init, drivers, tokens);
      var sk0 := SurvivingKeys(init, drivers, tokens);
      assert Grouped(rows, drivers, tokens) == Step(t0, row, drivers, tokens);
      if Survives(row, drivers, tokens) {
        var k0 := RowKey(row);
        var sk := sk0 + [k0];
        assert SurvivingKeys(rows, drivers, tokens) == sk;
        assert sk[..|sk| - 1] == sk0;
        assert Dedup(sk) == AddUnique(Dedup(sk0), k0);
        GroupedDomain(init, drivers, tokens, k0);
        assert Step(t0, row, drivers, tokens).keys == AddUnique(t0.keys, k0);
      } else {
        assert SurvivingKeys(rows, drivers, tokens) == sk0;
      }
    }
  }

  /** A key is among the surviving keys exactly when some surviving row has it. */
  lemma {:induction false} SurvivingKeysRows(rows: seq<DispatchRow>, drivers: seq<DriverRecord>, tokens: seq<string>, k: string)
    ensures k in SurvivingKeys(rows, drivers, tokens) <==> RowsOf(rows, drivers, tokens, k) != []
  {
    if rows != [] {
      SurvivingKeysRows(rows[..|rows| - 1], drivers, tokens, k);
    }
  }

  /** Each entry of the map is built from exactly the surviving rows of its key. */
  lemma {:induction false} GroupedEntries(rows: seq<DispatchRow>, drivers: seq<DriverRecord>, tokens: seq<string>, k: string)
    requires k in Grouped(rows, drivers, tokens).groups
    ensures RowsOf(rows, drivers, tokens, k) != []
    ensures Grouped(rows, drivers, tokens).groups[k] == FoldGroup(RowsOf(rows, drivers, tokens, k), drivers)
  {
    var init, row := rows[..|rows| - 1], rows[|rows| - 1];
    var t0 := Grouped(init, drivers, tokens);
    var rs0 := RowsOf(init, drivers, tokens, k);
    if Survives(row, drivers, tokens) && RowKey(row) == k {
      var rs := rs0 + [row];
      assert RowsOf(rows, drivers, tokens, k) == rs;
      assert rs[..|rs| - 1] == rs0;
      if k in t0.groups {
        GroupedEntries(init, drivers, tokens, k);
      } else {
        GroupedKeys(init, drivers, tokens);
        GroupedDomain(init, drivers, tokens, k);
        SurvivingKeysRows(init, drivers, tokens, k);
        assert rs0 == [];
      }
    } else {
      assert RowsOf(rows, drivers, tokens, k) == rs0;
      GroupedEntries(init, drivers, tokens, k);
    }
  }

  /**
   * The map holds one entry per key of a surviving row, keys in order of first
   * appearance, and each entry is built from exactly the rows of its key.
   */
  lemma GroupedSpec(rows: seq<DispatchRow>, drivers: seq<DriverRecord>, tokens: seq<string>)
    ensures var t := Grouped(rows, drivers, tokens);
      && t.keys == Dedup(SurvivingKeys(rows, drivers, tokens))
      && (forall k :: k in t.groups <==> k in t.keys)
      && (forall k :: k in t.keys <==> RowsOf(rows, drivers, tokens, k) != [])
      && (forall k :: k in t.groups ==> (RowsOf(rows, drivers, tokens, k) != []
           && t.groups[k] == FoldGroup(RowsOf(rows, drivers, tokens, k), drivers)))
  {
    GroupedKeys(rows, drivers, tokens);
    forall k
      ensures k in Grouped(rows, drivers, tokens).keys <==> RowsOf(rows, drivers, tokens, k) != []
      ensures k in Grouped(rows, drivers, tokens).groups <==> k in Grouped(rows, drivers, tokens).keys
    {
      SurvivingKeysRows(rows, drivers, tokens, k);
      GroupedDomain(rows, drivers, tokens, k);
    }
    forall k | k in Grouped(rows, drivers, tokens).groups
      ensures RowsOf(rows, drivers, tokens, k) != []
      ensures Grouped(rows, drivers, tokens).groups[k] == FoldGroup(RowsOf(rows, drivers, tokens, k), drivers)
    {
      GroupedEntries(rows, drivers, tokens, k);
    }
  }

  /** An entry's date, name and tonnage are its first row's; its sums and sets cover all its rows. */
  lemma {:induction false} FoldGroupContents(rs: seq<DispatchRow>, drivers: seq<DriverRecord>)
    requires rs != []
    ensures var g := FoldGroup(rs, drivers);
      && g.date == rs[0].date && g.driverName == rs[0].driverName && g.tonnage == rs[0].tonnage
      && g.totalCount == SumCounts(rs) && g.totalWeight == SumWeights(rs)
      && g.dests == Dedup(AllDests(rs)) && g.addrs == Dedup(AllAddrs(rs))
  {
    var init, last := rs[..|rs| - 1], rs[|rs| - 1];
    if |rs| == 1 {
      assert init == [];
      AddAllDedup([], Destinations(last));
      AddAllDedup([], Addresses(last));
      assert AllDests(rs) == [] + Destinations(last);
      assert AllAddrs(rs) == [] + Addresses(last);
    } else {
      FoldGroupContents(init, drivers);
      AddAllDedup(AllDests(init), Destinations(last));
      AddAllDedup(AllAddrs(init), Addresses(last));
    }
  }

  /** Every row of an entry has the entry's key, so the settled test looks up that key. */
  lemma ItemKeyIsKey(rs: seq<DispatchRow>, drivers: seq<DriverRecord>, k: string)
    requires rs != [] && forall j :: 0 <= j < |rs| ==> RowKey(rs[j]) == k
    ensures ItemKey(FoldGroup(rs, drivers)) == k
  {
    FoldGroupContents(rs, drivers);
  }

  /** The destination count is the number of distinct addresses, not a sum of per-row counts. */
  lemma DestCountIsDistinctAddresses(rs: seq<DispatchRow>, drivers: seq<DriverRecord>)
    requires rs != []
    ensures Finish(FoldGroup(rs, drivers)).destCount == |set a | a in AllAddrs(rs)|
  {
    FoldGroupContents(rs, drivers);
    var d := Dedup(AllAddrs(rs));
    DistinctCardinality(d);
    assert (set a | a in d) == (set a | a in AllAddrs(rs));
  }

  /** The joined lists are '-' exactly when nothing was collected. */
  lemma DashWhenEmpty(g: Group)
    requires forall k :: 0 <= k < |g.addrs| ==> g.addrs[k] != ""
    requires forall k :: 0 <= k < |g.dests| ==> g.dests[k] != ""
    ensures Finish(g).addrDetail == "-" <==> g.addrs == [] || Join(g.addrs, "||") == "-"
    ensures Finish(g).destDetail == "-" <==> g.dests == [] || Join(g.dests, ", ") == "-"
  {
    JoinEmpty(g.addrs, "||");
    JoinEmpty(g.dests, ", ");
  }

  // ---------------------------------------------------------------------------
  // The affiliation of an entry

  /** A registered affiliation other than '' and '-' is kept, whatever the rows say. */
  lemma {:induction false} RegisteredAffiliationWins(rs: seq<DispatchRow>, drivers: seq<DriverRecord>)
    requires rs != [] && DivGiven(RegisteredAffiliation(rs[0], drivers))
    ensures FoldGroup(rs, drivers).driverDiv == RegisteredAffiliation(rs[0], drivers)
  {
    if |rs| > 1 {
      var init := rs[..|rs| - 1];
      assert init[0] == rs[0];
      RegisteredAffiliationWins(init, drivers);
    }
  }

  /** While no row has given a division, an entry without a registered affiliation has none. */
  lemma {:induction false} NoDivisionYet(rs: seq<DispatchRow>, drivers: seq<DriverRecord>)
    requires rs != [] && RegisteredAffiliation(rs[0], drivers) == ""
    requires forall j :: 0 <= j < |rs| ==> !DivGiven(rs[j].driverDiv)
    ensures FoldGroup(rs, drivers).driverDiv == ""
  {
    if |rs| > 1 {
      var init := rs[..|rs| - 1];
      assert init[0] == rs[0];
      NoDivisionYet(init, drivers);
    }
  }

  /**
   * Without a registered affiliation, the entry takes the cleaned division of
   * the first row that gives one (when that is not itself empty or '-').
   */
  lemma {:induction false} FirstDivisionWins(rs: seq<DispatchRow>, drivers: seq<DriverRecord>, k: int)
    requires 0 <= k < |rs| && RegisteredAffiliation(rs[0], drivers) == ""
    requires DivGiven(rs[k].driverDiv) && forall j :: 0 <= j < k ==> !DivGiven(rs[j].driverDiv)
    requires DivGiven(CleanPart(rs[k].driverDiv))
    ensures FoldGroup(rs, drivers).driverDiv == CleanPart(rs[k].driverDiv)
  {
    FoldDivision(rs, drivers);
    FirstGivenDivision(rs, RegisteredAffiliation(rs[0], drivers), k);
  }

  /** The division of an entry, row by row: what `Absorb` and `NewGroup` do to `driverDiv`. */
  function DivisionOf(rs: seq<DispatchRow>, regAff: string): string
    requires rs != []
  {
    if |rs| == 1 then
      var d := if regAff != "" then regAff else if DivGiven(rs[0].driverDiv) then CleanPart(rs[0].driverDiv) else "";
      if !DivGiven(d) && DivGiven(rs[0].driverDiv) then CleanPart(rs[0].driverDiv) else d
    else
      var d, row := DivisionOf(rs[..|rs| - 1], regAff), rs[|rs| - 1];
      if !DivGiven(d) && DivGiven(row.driverDiv) then CleanPart(row.driverDiv) else d
  }

  lemma {:induction false} FoldDivision(rs: seq<DispatchRow>, drivers: seq<DriverRecord>)
    requires rs != []
    ensures FoldGroup(rs, drivers).driverDiv == DivisionOf(rs, RegisteredAffiliation(rs[0], drivers))
  {
    if |rs| > 1 {
      var init := rs[..|rs| - 1];
      assert init[0] == rs[0];
      FoldDivision(init, drivers);
    }
  }

  lemma {:induction false} FirstGivenDivision(rs: seq<DispatchRow>, regAff: string, k: int)
    requires 0 <= k < |rs| && regAff == ""
    requires DivGiven(rs[k].driverDiv) && forall j :: 0 <= j < k ==> !DivGiven(rs[j].driverDiv)
    requires DivGiven(CleanPart(rs[k].driverDiv))
    ensures DivisionOf(rs, regAff) == CleanPart(rs[k].driverDiv)
    decreases |rs|
  {
    var init := rs[..|rs| - 1];
    if |rs| - 1 > k {
      assert init[k] == rs[k];
      FirstGivenDivision(init, regAff, k);
    } else if k > 0 {
      NoGivenDivision(init, regAff);
    }
  }

  lemma {:induction false} NoGivenDivision(rs: seq<DispatchRow>, regAff: string)
    requires rs != [] && regAff == ""
    requires forall j :: 0 <= j < |rs| ==> !DivGiven(rs[j].driverDiv)
    ensures DivisionOf(rs, regAff) == ""
  {
    if |rs| > 1 {
      NoGivenDivision(rs[..|rs| - 1], regAff);
    }
  }

  // ---------------------------------------------------------------------------
  // Properties of the output

  /** The unsettled keys among `keys`, in order. */
  function Unsettled(keys: seq<string>, history: seq<SettlementRecord>): (r: seq<string>)
    ensures forall k :: k in r <==> k in keys && !Settled(history, k)
    ensures NoDuplicates(keys) ==> NoDuplicates(r)
  {
    if keys == [] then []
    else
      var init, k := keys[..|keys| - 1], keys[|keys| - 1];
      assert forall x :: x in keys <==> x in init || x == k;
      Unsettled(init, history) + (if Settled(history, k) then [] else [k])
  }

  /** The output finishes the entries of the unsettled keys, in key order. */
  lemma {:induction false} EmitUnsettled(keys: seq<string>, groups: map<string, Group>, history: seq<SettlementRecord>)
    requires forall k :: k in keys ==> k in groups && ItemKey(groups[k]) == k
    ensures var out, u := Emit(keys, groups, history), Unsettled(keys, history);
      |out| == |u| && forall i :: 0 <= i < |u| ==> out[i] == Finish(groups[u[i]])
  {
    if keys != [] {
      EmitUnsettled(keys[..|keys| - 1], groups, history);
    }
  }

  /**
   * The consolidation: one item per unsettled key of a surviving row, in order
   * of first appearance, each summing exactly the rows of its key, counting
   * its distinct addresses and rounding its weight up.
   */
  lemma ConsolidationSpec(rows: seq<DispatchRow>, drivers: seq<DriverRecord>, query: string, history: seq<SettlementRecord>)
    ensures var tokens := SearchTokens(query);
      var keys := Unsettled(Dedup(SurvivingKeys(rows, drivers, tokens)), history);
      var out := Consolidation(rows, drivers, query, history);
      && |out| == |keys| && NoDuplicates(keys)
      && (forall k :: k in keys <==> RowsOf(rows, drivers, tokens, k) != [] && !Settled(history, k))
      && forall i :: 0 <= i < |keys| ==>
           var rs := RowsOf(rows, drivers, tokens, keys[i]);
           && rs != []
           && out[i].date == rs[0].date && out[i].driverName == rs[0].driverName
           && out[i].totalCount == SumCounts(rs)
           && SumWeights(rs) <= out[i].totalWeight as real < SumWeights(rs) + 1.0
           && out[i].destCount == |set a | a in AllAddrs(rs)|
  {
    var tokens := SearchTokens(query);
    var t := Grouped(rows, drivers, tokens);
    GroupedSpec(rows, drivers, tokens);
    forall k | k in t.keys
      ensures ItemKey(t.groups[k]) == k
    {
      ItemKeyIsKey(RowsOf(rows, drivers, tokens, k), drivers, k);
    }
    EmitUnsettled(t.keys, t.groups, history);
    var keys := Unsettled(t.keys, history);
    forall i | 0 <= i < |keys|
      ensures var rs := RowsOf(rows, drivers, tokens, keys[i]);
        var o := Consolidation(rows, drivers, query, history)[i];
        && rs != []
        && o.date == rs[0].date && o.driverName == rs[0].driverName
        && o.totalCount == SumCounts(rs)
        && SumWeights(rs) <= o.totalWeight as real < SumWeights(rs) + 1.0
        && o.destCount == |set a | a in AllAddrs(rs)|
    {
      var rs := RowsOf(rows, drivers, tokens, keys[i]);
      FoldGroupContents(rs, drivers);
      DestCountIsDistinctAddresses(rs, drivers);
    }
  }

  /** A row survives exactly when its driver is registered and it passes the search. */
  lemma SurvivorsAreRegistered(rows: seq<DispatchRow>, drivers: seq<DriverRecord>, tokens: seq<string>, k: string)
    ensures forall j :: 0 <= j < |RowsOf(rows, drivers, tokens, k)| ==>
      var row := RowsOf(rows, drivers, tokens, k)[j];
      (exists d :: d in drivers && CleanName(d.name) == CleanName(row.driverName))
      && NameMatches(tokens, CleanName(row.driverName))
  {
    var rs := RowsOf(rows, drivers, tokens, k);
    forall j | 0 <= j < |rs|
      ensures exists d :: d in drivers && CleanName(d.name) == CleanName(rs[j].driverName)
    {
      var d := FindDriver(drivers, CleanName(rs[j].driverName)).value;
      assert d in drivers;
    }
  }

  /** An empty search keeps every row of a registered driver. */
  lemma EmptySearchKeepsAll(query: string, row: DispatchRow, drivers: seq<DriverRecord>)
    requires query == ""
    ensures SearchTokens(query) == []
    ensures Survives(row, drivers, SearchTokens(query)) <==> FindDriver(drivers, CleanName(row.driverName)).Some?
  {
    SplitNoSep(query, ',');
    assert Split(query, ",") == [""];
  }
}
