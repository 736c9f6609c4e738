/**
 * The spreadsheet import of the price table (`processMatrixExcelRows` in
 * `public/fees.js`): a matrix whose rows are regions and whose columns are
 * affiliations becomes a list of fee records. The sheet arrives already
 * decoded into rows of cells; the year is read from a leading year row (or a
 * fallback is used), the header row is the first row naming '지역명', the
 * affiliation columns are the header's named cells except notes, and every
 * positive amount of a data row becomes one record.
 */
module FeeMatrix {
  import opened Wrappers
  import opened Text
  import opened Records

  /**
   * A decoded cell: nothing (`undefined`, `null` or ''), a text, or a number
   * given by its text as `String(n)` renders it and by its amount already
   * scaled to won (the source multiplies by 10000 and rounds).
   */
  datatype Cell = Blank | Str(s: string) | Num(shown: string, scaled: int)

  /** A row is absent (`null` or not an array) or a sequence of cells. */
  type Sheet = seq<Option<seq<Cell>>>

  /** One affiliation column of the header: its trimmed name and its index. */
  datatype Column = Column(name: string, colIdx: nat)

  /** What the import ends with: an alert, or the records handed to the preview. */
  datatype Outcome = NoRows | Failed | NoAffiliations | NoPrices | Parsed(records: seq<FeeInput>)

  /** `row[j]`, with cells past the end read as nothing. */
  function CellAt(row: seq<Cell>, j: nat): Cell {
    if j < |row| then row[j] else Blank
  }

  /** `String(cell)`, with nothing read as '' (no keyword below occurs in 'undefined' or 'null'). */
  function Shown(c: Cell): string {
    match c
    case Blank => ""
    case Str(s) => s
    case Num(t, _) => t
  }

  /** `String(cell || '')`: a falsy cell (nothing, '' or the number 0) reads as ''. */
  function OrEmpty(c: Cell): string {
    match c
    case Blank => ""
    case Str(s) => s
    case Num(t, _) => if t == "0" then "" else t
  }

  // ---------------------------------------------------------------------------
  // The year

  /** `words.some(w => s.includes(w))` */
  predicate MentionsAny(s: string, words: seq<string>) {
    exists w :: w in words && Contains(s, w)
  }

  /** The keywords of the year row, the header row, note columns and skipped regions. */
  const YearWords: seq<string> := ["연도", "Year"]
  const HeaderWords: seq<string> := ["지역명"]
  const NoteWords: seq<string> := ["비고", "기타"]
  const SkipWords: seq<string> := ["연도"]

  /** A first cell containing '연도' or 'Year' marks the year row. */
  predicate IsYearRow(row: seq<Cell>) {
    MentionsAny(Shown(CellAt(row, 0)), YearWords)
  }

  /** `parseInt` of the year row's second cell, when there is a year row. */
  function SheetYear(rows: Sheet): Option<int> {
    if rows != [] && rows[0].Some? && IsYearRow(rows[0].value) then ParseInt(Shown(CellAt(rows[0].value, 1)))
    else None
  }

  /** The year of every record: the sheet's year unless it is missing, `NaN` or 0. */
  function DetectYear(rows: Sheet, fallback: int): (y: int)
    ensures y == fallback || (SheetYear(rows) == Some(y) && y != 0)
    ensures SheetYear(rows).Some? && SheetYear(rows).value != 0 ==> y == SheetYear(rows).value
  {
    match SheetYear(rows)
    case Some(y) => if y != 0 then y else fallback
    case None => fallback
  }

  // ---------------------------------------------------------------------------
  // The header row and its affiliation columns

  /** A present row whose first cell contains '지역명'. */
  predicate IsHeaderRow(r: Option<seq<Cell>>) {
    r.Some? && MentionsAny(Shown(CellAt(r.value, 0)), HeaderWords)
  }

  /** The index the header search stops at, if any row qualifies. */
  function FirstHeader(rows: Sheet): (h: Option<nat>)
    ensures h.None? <==> forall i :: 0 <= i < |rows| ==> !IsHeaderRow(rows[i])
    ensures h.Some? ==> (h.value < |rows| && IsHeaderRow(rows[h.value])
                      && forall i :: 0 <= i < h.value ==> !IsHeaderRow(rows[i]))
  {
    if rows == [] then None
    else if IsHeaderRow(rows[0]) then Some(0)
    else
      var h := FirstHeader(rows[1..]);
      assert forall i :: 1 <= i < |rows| ==> rows[i] == rows[1..][i - 1];
      if h.None? then None else Some(h.value + 1)
  }

  /** `headerIdx`: the first header row, or row 0 when none names '지역명'. */
  function HeaderIndex(rows: Sheet): (h: nat)
    ensures rows != [] ==> h < |rows|
  {
    FirstHeader(rows).GetOr(0)
  }

  /** The trimmed text of every header cell, `String(header[j] || '').trim()`. */
  function HeaderNames(header: seq<Cell>): (names: seq<string>)
    ensures |names| == |header|
    ensures forall j :: 0 <= j < |header| ==> names[j] == Trim(OrEmpty(header[j]))
  {
    if header == [] then [] else HeaderNames(header[..|header| - 1]) + [Trim(OrEmpty(header[|header| - 1]))]
  }

  /** A header name that is an affiliation: not empty, no '비고' (notes), no '기타' (other). */
  predicate IsAffiliationName(aff: string) {
    aff != "" && !MentionsAny(aff, NoteWords)
  }

  /** The affiliation columns among header indices `1 .. n - 1`, left to right, given the header's names. */
  function Columns(names: seq<string>, n: nat): (cols: seq<Column>)
    requires n <= |names|
    ensures forall k :: 0 <= k < |cols| ==> 1 <= cols[k].colIdx < n
    ensures forall k, l :: 0 <= k < l < |cols| ==> cols[k].colIdx < cols[l].colIdx
  {
    if n <= 1 then []
    else if IsAffiliationName(names[n - 1]) then Columns(names, n - 1) + [Column(names[n - 1], n - 1)]
    else Columns(names, n - 1)
  }

  /** Every column carries the name of its header cell, and that name is an affiliation name ... */
  lemma {:induction false} ColumnNamed(names: seq<string>, n: nat, k: nat)
    requires n <= |names| && k < |Columns(names, n)|
    ensures var col := Columns(names, n)[k];
      col.name == names[col.colIdx] && IsAffiliationName(col.name)
    decreases n
  {
    var init := Columns(names, n - 1);
    if IsAffiliationName(names[n - 1]) {
      assert Columns(names, n) == init + [Column(names[n - 1], n - 1)];
      if k < |init| {
        ColumnNamed(names, n - 1, k);
      }
    } else {
      ColumnNamed(names, n - 1, k);
    }
  }

  /** ... and every header cell after the first whose name is an affiliation name becomes a column. */
  lemma {:induction false} ColumnIncluded(names: seq<string>, n: nat, j: nat)
    requires n <= |names| && 1 <= j < n && IsAffiliationName(names[j])
    ensures Column(names[j], j) in Columns(names, n)
    decreases n
  {
    if j < n - 1 {
      ColumnIncluded(names, n - 1, j);
    }
  }

  // ---------------------------------------------------------------------------
  // The data rows

  /** The trimmed first cell of a row, `String(row[0] || '').trim()`. */
  function RegionOf(row: seq<Cell>): string {
    Trim(OrEmpty(CellAt(row, 0)))
  }

  /** The region of a row ('' for an absent row). */
  function RowRegion(row: Option<seq<Cell>>): string {
    if row.Some? then RegionOf(row.value) else ""
  }

  /** The region of every row, as the loop computes it row by row. */
  function RowRegions(rows: Sheet): seq<string> {
    seq(|rows|, i requires 0 <= i < |rows| => RowRegion(rows[i]))
  }

  /** Region cells that mark a row to skip: empty, 'undefined', '-', or containing '연도'. */
  predicate SkippedRegion(region: string) {
    region == "" || region == "undefined" || region == "-" || MentionsAny(region, SkipWords)
  }

  /** A present row whose region is not skipped. */
  predicate Kept(r: Option<seq<Cell>>, region: string) {
    r.Some? && !SkippedRegion(region)
  }

  /**
   * The amount of a cell that yields a record: a number above zero. Nothing
   * and '' are skipped outright; a text cell is not a number.
   */
  function Price(c: Cell): (p: Option<int>)
    ensures p.Some? ==> p.value > 0
  {
    match c
    case Num(_, v) => if v > 0 then Some(v) else None
    case _ => None
  }

  /** The record a cell of column `col` in a row of `region` yields. */
  function CellRecord(col: Column, region: string, year: int, price: int): FeeInput {
    FeeInput(None, col.name, region, year, price, "ALL", "", None)
  }

  /** `rec` is the record that the cell of `row` under `col` yields. */
  predicate Emits(row: seq<Cell>, region: string, col: Column, year: int, rec: FeeInput) {
    Price(CellAt(row, col.colIdx)) == Some(rec.price) && rec == CellRecord(col, region, year, rec.price)
  }

  /** The records one kept row yields, column by column. */
  function RowRecords(row: seq<Cell>, region: string, cols: seq<Column>, year: int): (r: seq<FeeInput>)
    ensures |r| <= |cols|
  {
    if cols == [] then []
    else
      var col := cols[|cols| - 1];
      var p := Price(CellAt(row, col.colIdx));
      RowRecords(row, region, cols[..|cols| - 1], year) + (if p.Some? then [CellRecord(col, region, year, p.value)] else [])
  }

  /** The records one row yields: none when it is absent or skipped. */
  function RowPart(r: Option<seq<Cell>>, region: string, cols: seq<Column>, year: int): (part: seq<FeeInput>)
    ensures |part| <= |cols|
  {
    if Kept(r, region) then RowRecords(r.value, region, cols, year) else []
  }

  /** The records rows `from .. n - 1` yield, in row order. */
  function DataRecords(rows: Sheet, regions: seq<string>, from: nat, n: nat, cols: seq<Column>, year: int): (r: seq<FeeInput>)
    requires |regions| == |rows| && from <= n <= |rows|
    ensures |r| <= (n - from) * |cols|
    decreases n
  {
    if n == from then []
    else
      var init := DataRecords(rows, regions, from, n - 1, cols, year);
      assert (n - 1 - from) * |cols| + |cols| == (n - from) * |cols|;
      init + RowPart(rows[n - 1], regions[n - 1], cols, year)
  }

  /** `processMatrixExcelRows(rows)`, with the screen's (or the current) year as `fallback`. */
  function Decode(rows: Sheet, fallback: int): Outcome {
    if rows == [] then NoRows
    else
      var year := DetectYear(rows, fallback);
      var h := HeaderIndex(rows);
      if rows[h].None? then Failed
      else
        var header := rows[h].value;
        var cols := Columns(HeaderNames(header), |header|);
        if cols == [] then NoAffiliations
        else
          var data := DataRecords(rows, RowRegions(rows), h + 1, |rows|, cols, year);
          if data == [] then NoPrices else Parsed(data)
  }

  /** The import as it runs: a header search with `break`, a column scan, then the data rows. */
  method ProcessMatrixRows(rows: Sheet, fallback: int) returns (outcome: Outcome)
    ensures outcome == Decode(rows, fallback)
  {
    if |rows| < 1 {
      return NoRows;
    }
    var year := DetectYear(rows, fallback);
    var headerIdx := FindHeader(rows);
    if rows[headerIdx].None? {
      return Failed;
    }
    var affiliations := ScanColumns(rows[headerIdx].value);
    if |affiliations| == 0 {
      return NoAffiliations;
    }
    var data := ReadRows(rows, headerIdx, affiliations, year);
    if |data| == 0 {
      return NoPrices;
    }
    return Parsed(data);
  }

  /** The header search: the first row naming '지역명', else 0. */
  method FindHeader(rows: Sheet) returns (headerIdx: nat)
    ensures headerIdx == HeaderIndex(rows)
  {
    headerIdx := 0;
    var idx := 0;
    while idx < |rows|
      invariant 0 <= idx <= |rows|
      invariant forall i :: 0 <= i < idx ==> !IsHeaderRow(rows[i])
    {
      if IsHeaderRow(rows[idx]) {
        headerIdx := idx;
        break;
      }
      idx := idx + 1;
    }
  }

  /** The column scan: header cells from index 1 whose trimmed text is an affiliation name. */
  method ScanColumns(header: seq<Cell>) returns (affiliations: seq<Column>)
    ensures affiliations == Columns(HeaderNames(header), |header|)
  {
    ghost var names := HeaderNames(header);
    affiliations := [];
    if |header| == 0 {
      return;
    }
    for j := 1 to |header|
      invariant affiliations == Columns(names, j)
    {
      var aff := Trim(OrEmpty(header[j]));
      assert aff == names[j];
      if IsAffiliationName(aff) {
        affiliations := affiliations + [Column(aff, j)];
      }
    }
  }

  /** The data rows below the header, skipping absent rows and rows with a skipped region. */
  method ReadRows(rows: Sheet, headerIdx: nat, affiliations: seq<Column>, year: int) returns (data: seq<FeeInput>)
    requires headerIdx < |rows|
    ensures data == DataRecords(rows, RowRegions(rows), headerIdx + 1, |rows|, affiliations, year)
  {
    ghost var regions := RowRegions(rows);
    data := [];
    for i := headerIdx + 1 to |rows|
      invariant data == DataRecords(rows, regions, headerIdx + 1, i, affiliations, year)
    {
      var row := rows[i];
      if row.None? {
        continue;
      }
      var region := Trim(OrEmpty(CellAt(row.value, 0)));
      assert region == regions[i];
      if SkippedRegion(region) {
        continue;
      }
      var part := ReadRow(row.value, region, affiliations, year);
      data := data + part;
    }
  }

  /** One kept row: one record per column whose cell holds a positive amount. */
  method ReadRow(row: seq<Cell>, region: string, affiliations: seq<Column>, year: int) returns (part: seq<FeeInput>)
    ensures part == RowRecords(row, region, affiliations, year)
  {
    part := [];
    for k := 0 to |affiliations|
      invariant part == RowRecords(row, region, affiliations[..k], year)
    {
      var aff := affiliations[k];
      var rawVal := CellAt(row, aff.colIdx);
      assert affiliations[..k + 1][..k] == affiliations[..k];
      if rawVal.Num? && rawVal.scaled > 0 {
        part := part + [FeeInput(None, aff.name, region, year, rawVal.scaled, "ALL", "", None)];
      }
    }
    assert affiliations[..|affiliations|] == affiliations;
  }

  // ---------------------------------------------------------------------------
  // Properties

  /** A column whose cell in a row holds a positive amount yields its record ... */
  lemma {:induction false} RowRecordIn(row: seq<Cell>, region: string, cols: seq<Column>, year: int, k: nat)
    requires k < |cols| && Price(CellAt(row, cols[k].colIdx)).Some?
    ensures CellRecord(cols[k], region, year, Price(CellAt(row, cols[k].colIdx)).value) in RowRecords(row, region, cols, year)
  {
    var init := cols[..|cols| - 1];
    if k < |init| {
      assert init[k] == cols[k];
      RowRecordIn(row, region, init, year, k);
    }
  }

  /** ... and every record of a row comes from such a column. */
  lemma {:induction false} RowRecordFrom(row: seq<Cell>, region: string, cols: seq<Column>, year: int, rec: FeeInput)
    requires rec in RowRecords(row, region, cols, year)
    ensures exists k :: 0 <= k < |cols| && Emits(row, region, cols[k], year, rec)
  {
    var init := cols[..|cols| - 1];
    if rec in RowRecords(row, region, init, year) {
      RowRecordFrom(row, region, init, year, rec);
      var k :| 0 <= k < |init| && Emits(row, region, init[k], year, rec);
      assert cols[k] == init[k];
    } else {
      assert Emits(row, region, cols[|cols| - 1], year, rec);
    }
  }

  /** The records of a kept row in the range are among the data records ... */
  lemma {:induction false} DataRecordIn(rows: Sheet, regions: seq<string>, from: nat, n: nat, cols: seq<Column>, year: int, i: nat, rec: FeeInput)
    requires |regions| == |rows| && from <= i < n <= |rows|
    requires Kept(rows[i], regions[i]) && rec in RowRecords(rows[i].value, regions[i], cols, year)
    ensures rec in DataRecords(rows, regions, from, n, cols, year)
    decreases n
  {
    if i < n - 1 {
      DataRecordIn(rows, regions, from, n - 1, cols, year, i, rec);
    }
  }

  /** ... and every data record comes from a kept row in the range. */
  lemma {:induction false} DataRecordFrom(rows: Sheet, regions: seq<string>, from: nat, n: nat, cols: seq<Column>, year: int, rec: FeeInput)
    requires |regions| == |rows| && from <= n <= |rows| && rec in DataRecords(rows, regions, from, n, cols, year)
    ensures exists i :: from <= i < n && Kept(rows[i], regions[i]) && rec in RowRecords(rows[i].value, regions[i], cols, year)
    decreases n
  {
    if rec in DataRecords(rows, regions, from, n - 1, cols, year) {
      DataRecordFrom(rows, regions, from, n - 1, cols, year, rec);
    }
  }

  /** An empty sheet, and only that, is refused before the header search; an empty header row fails it. */
  lemma DecodeErrors(rows: Sheet, fallback: int)
    ensures Decode(rows, fallback).NoRows? <==> rows == []
    ensures rows != [] ==> (Decode(rows, fallback).Failed? <==> rows[HeaderIndex(rows)].None?)
  {
  }

  /** The parts a successful import is made of: a present header row and a non-empty list of data records. */
  lemma DecodeParts(rows: Sheet, fallback: int)
    requires Decode(rows, fallback).Parsed?
    ensures var h := HeaderIndex(rows);
      && h < |rows| && rows[h].Some?
      && Decode(rows, fallback).records != []
      && Decode(rows, fallback).records
         == DataRecords(rows, RowRegions(rows), h + 1, |rows|, Columns(HeaderNames(rows[h].value), |rows[h].value|), DetectYear(rows, fallback))
  {
  }

  /**
   * `recs` are exactly the records that the positive cells of the kept rows
   * `from ..` yield under `cols`, and there are at most as many as rows times
   * columns.
   */
  predicate YieldedBy(recs: seq<FeeInput>, rows: Sheet, regions: seq<string>, from: nat, cols: seq<Column>, year: int)
    requires |regions| == |rows| && from <= |rows|
  {
    && |recs| <= (|rows| - from) * |cols|
    && (forall rec :: rec in recs ==>
         exists i, k :: from <= i < |rows| && Kept(rows[i], regions[i]) && 0 <= k < |cols| && Emits(rows[i].value, regions[i], cols[k], year, rec))
    && forall i, k :: from <= i < |rows| && Kept(rows[i], regions[i]) && 0 <= k < |cols| && Price(CellAt(rows[i].value, cols[k].colIdx)).Some? ==>
         CellRecord(cols[k], regions[i], year, Price(CellAt(rows[i].value, cols[k].colIdx)).value) in recs
  }

  lemma DataRecordsSpec(rows: Sheet, regions: seq<string>, from: nat, cols: seq<Column>, year: int)
    requires |regions| == |rows| && from <= |rows|
    ensures YieldedBy(DataRecords(rows, regions, from, |rows|, cols, year), rows, regions, from, cols, year)
  {
    var recs := DataRecords(rows, regions, from, |rows|, cols, year);
    forall rec | rec in recs
      ensures exists i, k :: from <= i < |rows| && Kept(rows[i], regions[i]) && 0 <= k < |cols| && Emits(rows[i].value, regions[i], cols[k], year, rec)
    {
      DataRecordFrom(rows, regions, from, |rows|, cols, year, rec);
      var i :| from <= i < |rows| && Kept(rows[i], regions[i]) && rec in RowRecords(rows[i].value, regions[i], cols, year);
      RowRecordFrom(rows[i].value, regions[i], cols, year, rec);
    }
    forall i, k | from <= i < |rows| && Kept(rows[i], regions[i]) && 0 <= k < |cols| && Price(CellAt(rows[i].value, cols[k].colIdx)).Some?
      ensures CellRecord(cols[k], regions[i], year, Price(CellAt(rows[i].value, cols[k].colIdx)).value) in recs
    {
      RowRecordIn(rows[i].value, regions[i], cols, year, k);
      DataRecordIn(rows, regions, from, |rows|, cols, year, i, CellRecord(cols[k], regions[i], year, Price(CellAt(rows[i].value, cols[k].colIdx)).value));
    }
  }

  /** The fields every imported record carries. */
  predicate ImportedShape(rec: FeeInput, year: int) {
    && rec.price > 0 && rec.tonnage == "ALL" && rec.memo == "" && rec.idx.None? && rec.priceChanged.None?
    && rec.year == year && IsAffiliationName(rec.affiliation) && !SkippedRegion(rec.region)
  }

  /**
   * Every record the data rows yield has no id, a positive amount, tonnage
   * 'ALL', an empty memo, the given year, an affiliation name and a region
   * that is not skipped.
   */
  lemma RecordShapeOf(rows: Sheet, regions: seq<string>, from: nat, names: seq<string>, year: int, rec: FeeInput)
    requires |regions| == |rows| && from <= |rows|
    requires rec in DataRecords(rows, regions, from, |rows|, Columns(names, |names|), year)
    ensures ImportedShape(rec, year)
  {
    var cols := Columns(names, |names|);
    DataRecordFrom(rows, regions, from, |rows|, cols, year, rec);
    var i :| from <= i < |rows| && Kept(rows[i], regions[i]) && rec in RowRecords(rows[i].value, regions[i], cols, year);
    RowRecordFrom(rows[i].value, regions[i], cols, year, rec);
    var k :| 0 <= k < |cols| && Emits(rows[i].value, regions[i], cols[k], year, rec);
    ColumnNamed(names, |names|, k);
  }

  /** Without a header naming '지역명', row 0 is taken as the header. */
  lemma HeaderDefaultsToFirstRow(rows: Sheet)
    requires forall i :: 0 <= i < |rows| ==> !IsHeaderRow(rows[i])
    ensures HeaderIndex(rows) == 0
  {
  }

  /** A header with no affiliation name yields no records, whatever the rows below hold. */
  lemma NoColumnsNoRecords(rows: Sheet, fallback: int)
    requires rows != [] && rows[HeaderIndex(rows)].Some?
    requires forall j :: 1 <= j < |rows[HeaderIndex(rows)].value| ==> !IsAffiliationName(HeaderNames(rows[HeaderIndex(rows)].value)[j])
    ensures Decode(rows, fallback) == NoAffiliations
  {
    var header := rows[HeaderIndex(rows)].value;
    var cols := Columns(HeaderNames(header), |header|);
    if cols != [] {
      ColumnNamed(HeaderNames(header), |header|, 0);
    }
    assert cols == [];
  }
}
