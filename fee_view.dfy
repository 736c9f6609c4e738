/**
 * The fee screens of `public/fees.js`: the year/affiliation/region filters
 * applied to the stored fee list, and the matrix view with regions as rows
 * and affiliations as columns, '이룸' first, each cell showing the record the
 * `region|affiliation` lookup holds.
 */
module FeeView {
  import opened Wrappers
  import opened Text
  import opened Seqs
  import opened Sorting
  import opened Records

  // ---------------------------------------------------------------------
  // Filters

  /** The search form: a year (`None` when the select is empty) and two free texts. */
  datatype FeeQuery = FeeQuery(year: Option<int>, affiliation: string, region: string)

  /** `!(q && !text.toLowerCase().includes(q))` with `q` the trimmed, lower-cased query text. */
  predicate TextHit(text: string, query: string) {
    var q := ToLower(Trim(query));
    q == "" || Contains(ToLower(text), q)
  }

  predicate YearHit(row: FeeRecord, year: Option<int>) {
    year.None? || row.year == year.value
  }

  /** The predicate of `fetchFeeMaster`: year and affiliation. */
  predicate MasterKeep(row: FeeRecord, year: Option<int>, affiliation: string) {
    YearHit(row, year) && TextHit(row.affiliation, affiliation)
  }

  /** The predicate of `fetchFeeEntry`: year, affiliation and region. */
  predicate EntryKeep(row: FeeRecord, q: FeeQuery) {
    YearHit(row, q.year) && TextHit(row.affiliation, q.affiliation) && TextHit(row.region, q.region)
  }

  /** The list `fetchFeeMaster` hands to the matrix view. */
  function MasterList(rows: seq<FeeRecord>, year: Option<int>, affiliation: string): seq<FeeRecord> {
    Select(rows, x => MasterKeep(x, year, affiliation))
  }

  /** The list `fetchFeeEntry` shows for editing. */
  function EntryList(rows: seq<FeeRecord>, q: FeeQuery): seq<FeeRecord> {
    Select(rows, x => EntryKeep(x, q))
  }

  /** The lists hold exactly the stored rows that pass the year and text tests. */
  lemma ListsSpec(rows: seq<FeeRecord>, q: FeeQuery, x: FeeRecord)
    ensures x in MasterList(rows, q.year, q.affiliation) <==>
      x in rows && (q.year.None? || x.year == q.year.value) && TextHit(x.affiliation, q.affiliation)
    ensures x in EntryList(rows, q) <==>
      x in rows && (q.year.None? || x.year == q.year.value) && TextHit(x.affiliation, q.affiliation) && TextHit(x.region, q.region)
    ensures Count(EntryList(rows, q), x) == if EntryKeep(x, q) then Count(rows, x) else 0
  {
    SelectCount(rows, x => EntryKeep(x, q), x);
  }

  /** An empty form keeps every stored row, in order. */
  lemma EmptyQueryKeepsAll(rows: seq<FeeRecord>)
    ensures MasterList(rows, None, "") == rows
    ensures EntryList(rows, FeeQuery(None, "", "")) == rows
  {
    var blank := Trim("");
    assert ToLower(blank) == "";
    SelectAll(rows, x => MasterKeep(x, None, ""));
    SelectAll(rows, x => EntryKeep(x, FeeQuery(None, "", "")));
  }

  lemma LowerCharIdempotent(c: char)
    ensures LowerChar(LowerChar(c)) == LowerChar(c)
  {
  }

  /** The text test ignores the letter case of the stored text. */
  lemma TextHitIgnoresCase(text: string, query: string)
    ensures TextHit(ToLower(text), query) <==> TextHit(text, query)
  {
    forall i | 0 <= i < |text|
      ensures ToLower(ToLower(text))[i] == ToLower(text)[i]
    {
      LowerCharIdempotent(text[i]);
    }
    assert ToLower(ToLower(text)) == ToLower(text);
  }

  // ---------------------------------------------------------------------
  // Matrix view

  function AffiliationOf(r: FeeRecord): string { r.affiliation }
  function RegionOf(r: FeeRecord): string { r.region }

  /** `data.forEach(row => { if (row[field]) set.add(row[field]) })`: the distinct non-empty values in first-seen order. */
  function Distinct(data: seq<FeeRecord>, field: FeeRecord -> string): (r: seq<string>)
    ensures NoDuplicates(r)
    ensures forall s :: s in r <==> s != "" && exists x :: x in data && field(x) == s
  {
    if data == [] then []
    else
      var init, last := data[..|data| - 1], data[|data| - 1];
      assert forall x :: x in data <==> x in init || x == last;
      var prior := Distinct(init, field);
      if field(last) != "" then AddUnique(prior, field(last)) else prior
  }

  /** The affiliation comparator: '이룸' before everything, the rest in string order. */
  predicate AffiliationOrder(a: string, b: string) {
    a == "이룸" || (b != "이룸" && LexLessEq(a, b))
  }

  lemma AffiliationOrderTotal()
    ensures TotalPreorder(AffiliationOrder)
  {
    forall a: string, b: string
      ensures AffiliationOrder(a, b) || AffiliationOrder(b, a)
    {
      LexTrichotomy(a, b);
    }
    forall a: string, b: string, c: string | AffiliationOrder(a, b) && AffiliationOrder(b, c)
      ensures AffiliationOrder(a, c)
    {
      if a != "이룸" && a != b && b != c {
        LexLessTransitive(a, b, c);
      }
    }
  }

  lemma LexLessEqTotal()
    ensures TotalPreorder(LexLessEq)
  {
    forall a: string, b: string
      ensures LexLessEq(a, b) || LexLessEq(b, a)
    {
      LexTrichotomy(a, b);
    }
    forall a: string, b: string, c: string | LexLessEq(a, b) && LexLessEq(b, c)
      ensures LexLessEq(a, c)
    {
      if a != b && b != c {
        LexLessTransitive(a, b, c);
      }
    }
  }

  /** The `region|affiliation` key of the lookup. */
  function Key(r: FeeRecord): string {
    r.region + "|" + r.affiliation
  }

  /** The lookup after `data.forEach`: a row takes its key when the key is free or the row is not readonly. */
  function Lookup(data: seq<FeeRecord>): (m: map<string, FeeRecord>)
    ensures forall k :: k in m ==> m[k] in data && Key(m[k]) == k
    ensures forall x :: x in data ==> Key(x) in m
  {
    if data == [] then map[]
    else
      var init, last := data[..|data| - 1], data[|data| - 1];
      assert forall x :: x in data <==> x in init || x == last;
      var m := Lookup(init);
      if Key(last) !in m || !last.readonly then m[Key(last) := last] else m
  }

  /** The cells, one row per region and one column per affiliation; `None` renders as '-'. */
  function Grid(regions: seq<string>, affiliations: seq<string>, lookup: map<string, FeeRecord>): seq<seq<Option<FeeRecord>>> {
    seq(|regions|, i requires 0 <= i < |regions| =>
      seq(|affiliations|, j requires 0 <= j < |affiliations| =>
        var k := regions[i] + "|" + affiliations[j];
        if k in lookup then Some(lookup[k]) else None))
  }

  /** What `renderFeeMatrix` draws: the column heads, the row heads and the cells. */
  datatype Matrix = Matrix(affiliations: seq<string>, regions: seq<string>, cells: seq<seq<Option<FeeRecord>>>)

  function MatrixOf(data: seq<FeeRecord>): Matrix {
    if data == [] then Matrix([], [], [])
    else
      var affiliations := SortBy(Distinct(data, AffiliationOf), AffiliationOrder);
      var regions := SortBy(Distinct(data, RegionOf), LexLessEq);
      Matrix(affiliations, regions, Grid(regions, affiliations, Lookup(data)))
  }

  /** The two `forEach` passes and the two sorts of `renderFeeMatrix`. */
  method RenderFeeMatrix(data: seq<FeeRecord>) returns (view: Matrix)
    ensures view == MatrixOf(data)
  {
    if |data| == 0 {
      return Matrix([], [], []);
    }
    var affiliations: seq<string> := [];
    var regions: seq<string> := [];
    for i := 0 to |data|
      invariant affiliations == Distinct(data[..i], AffiliationOf)
      invariant regions == Distinct(data[..i], RegionOf)
    {
      assert data[..i + 1][..i] == data[..i];
      if data[i].affiliation != "" {
        affiliations := AddUnique(affiliations, data[i].affiliation);
      }
      if data[i].region != "" {
        regions := AddUnique(regions, data[i].region);
      }
    }
    assert data[..|data|] == data;
    var sortedAffs := SortBy(affiliations, AffiliationOrder);
    var sortedRegions := SortBy(regions, LexLessEq);
    var lookup := BuildLookup(data);
    view := Matrix(sortedAffs, sortedRegions, Grid(sortedRegions, sortedAffs, lookup));
  }

  /** The `feeLookup` pass. */
  method BuildLookup(data: seq<FeeRecord>) returns (lookup: map<string, FeeRecord>)
    ensures lookup == Lookup(data)
  {
    lookup := map[];
    for i := 0 to |data|
      invariant lookup == Lookup(data[..i])
    {
      assert data[..i + 1][..i] == data[..i];
      var key := data[i].region + "|" + data[i].affiliation;
      if key !in lookup || !data[i].readonly {
        lookup := lookup[key := data[i]];
      }
    }
    assert data[..|data|] == data;
  }

  /** A key with a non-readonly row shows the last such row. */
  lemma {:induction false} LookupLastActive(data: seq<FeeRecord>, i: int)
    requires 0 <= i < |data| && !data[i].readonly
    requires forall j :: i < j < |data| && Key(data[j]) == Key(data[i]) ==> data[j].readonly
    ensures Key(data[i]) in Lookup(data) && Lookup(data)[Key(data[i])] == data[i]
  {
    var init := data[..|data| - 1];
    if i < |data| - 1 {
      assert init[i] == data[i];
      LookupLastActive(init, i);
    }
  }

  /** A key whose rows are all readonly shows the first of them. */
  lemma {:induction false} LookupFirstFrozen(data: seq<FeeRecord>, i: int)
    requires 0 <= i < |data|
    requires forall j :: 0 <= j < |data| && Key(data[j]) == Key(data[i]) ==> data[j].readonly
    requires forall j :: 0 <= j < i ==> Key(data[j]) != Key(data[i])
    ensures Key(data[i]) in Lookup(data) && Lookup(data)[Key(data[i])] == data[i]
  {
    var init := data[..|data| - 1];
    if i < |data| - 1 {
      assert init[i] == data[i];
      LookupFirstFrozen(init, i);
    } else {
      assert forall x :: x in init ==> Key(x) != Key(data[i]) by {
        forall x | x in init
          ensures Key(x) != Key(data[i])
        {
          var j :| 0 <= j < |init| && init[j] == x;
          assert data[j] == x;
        }
      }
    }
  }

  /**
   * The column heads are the distinct non-empty affiliations, '이룸' first and
   * the rest in string order; the row heads are the distinct non-empty
   * regions in ascending order.
   */
  lemma MatrixAxes(data: seq<FeeRecord>)
    ensures var v := MatrixOf(data);
      && NoDuplicates(v.affiliations) && NoDuplicates(v.regions)
      && (forall a :: a in v.affiliations <==> a != "" && exists x :: x in data && x.affiliation == a)
      && (forall r :: r in v.regions <==> r != "" && exists x :: x in data && x.region == r)
      && (forall i, j :: 0 <= i < j < |v.affiliations| ==> AffiliationOrder(v.affiliations[i], v.affiliations[j]))
      && forall i, j :: 0 <= i < j < |v.regions| ==> LexLess(v.regions[i], v.regions[j])
  {
    if data != [] {
      var affs, regs := Distinct(data, AffiliationOf), Distinct(data, RegionOf);
      var v := MatrixOf(data);
      AffiliationOrderTotal();
      LexLessEqTotal();
      SortBySorted(affs, AffiliationOrder);
      SortBySorted(regs, LexLessEq);
      PermutationDistinct(affs, v.affiliations);
      PermutationDistinct(regs, v.regions);
      forall a
        ensures a in v.affiliations <==> a in affs
      {
        assert a in v.affiliations <==> a in multiset(v.affiliations);
      }
      forall r
        ensures r in v.regions <==> r in regs
      {
        assert r in v.regions <==> r in multiset(v.regions);
      }
    }
  }

  /** When some stored row belongs to '이룸', '이룸' is the first column. */
  lemma IroomFirst(data: seq<FeeRecord>)
    requires exists x :: x in data && x.affiliation == "이룸"
    ensures var v := MatrixOf(data); |v.affiliations| > 0 && v.affiliations[0] == "이룸"
  {
    var affs := Distinct(data, AffiliationOf);
    AffiliationOrderTotal();
    assert "이룸" in affs;
    FirstOfSorted(affs, AffiliationOrder);
  }

  /**
   * The cell of region `regions[i]` and affiliation `affiliations[j]` shows a
   * record exactly when some stored row has that key, and then it shows a
   * stored row with that key.
   */
  lemma MatrixCell(data: seq<FeeRecord>, i: int, j: int)
    requires var v := MatrixOf(data); 0 <= i < |v.regions| && 0 <= j < |v.affiliations|
    ensures var v := MatrixOf(data);
      && |v.cells| == |v.regions| && |v.cells[i]| == |v.affiliations|
      && (v.cells[i][j].Some? <==> exists x :: x in data && Key(x) == v.regions[i] + "|" + v.affiliations[j])
      && (v.cells[i][j].Some? ==> v.cells[i][j].value in data && Key(v.cells[i][j].value) == v.regions[i] + "|" + v.affiliations[j])
  {
  }
}
