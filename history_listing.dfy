/**
 * The `/api/settlement-history` listing of `api/index.js`: the stored
 * settlement records within a date range whose name contains a search text,
 * newest date first and, within a date, highest id first.
 */
module HistoryListing {
  import opened Text
  import opened Sorting
  import opened Records
  import opened Ledgers

  /** The query: each part is '' when absent. */
  datatype Query = Query(startDate: string, endDate: string, name: string)

  /** `!(startDate && date < startDate) && !(endDate && date > endDate)` */
  predicate InRange(date: string, q: Query) {
    (q.startDate == "" || !LexLess(date, q.startDate)) && (q.endDate == "" || !LexLess(q.endDate, date))
  }

  /** The name test: spaces removed and lower-cased on both sides, then `includes`. */
  predicate NameHit(name: string, search: string) {
    search == "" || Contains(ToLower(StripWhite(name)), ToLower(StripWhite(search)))
  }

  /** The `filter` predicate. */
  predicate Keep(e: Entry<SettlementRecord>, q: Query) {
    InRange(e.data.date, q) && NameHit(e.data.name, q.name)
  }

  /** `list.filter(...)`, applied only when some part of the query is given. */
  function Filtered(entries: seq<Entry<SettlementRecord>>, q: Query): (r: seq<Entry<SettlementRecord>>)
    ensures |r| <= |entries|
    ensures forall e :: e in r <==> e in entries && Keep(e, q)
  {
    if q.startDate == "" && q.endDate == "" && q.name == "" then entries
    else KeepAll(entries, q)
  }

  function KeepAll(entries: seq<Entry<SettlementRecord>>, q: Query): (r: seq<Entry<SettlementRecord>>)
    ensures |r| <= |entries|
    ensures forall e :: e in r <==> e in entries && Keep(e, q)
  {
    if entries == [] then []
    else
      var init, last := entries[..|entries| - 1], entries[|entries| - 1];
      assert forall e :: e in entries <==> e in init || e == last;
      KeepAll(init, q) + (if Keep(last, q) then [last] else [])
  }

  /**
   * The comparator: `b.date.localeCompare(a.date)` when the dates differ,
   * else `b.idx - a.idx`. `NewestFirst(a, b)` holds when it does not put
   * `b` strictly before `a`.
   */
  predicate NewestFirst(a: Entry<SettlementRecord>, b: Entry<SettlementRecord>) {
    if a.data.date != b.data.date then LexLess(b.data.date, a.data.date) else a.idx >= b.idx
  }

  lemma NewestFirstTotal()
    ensures TotalPreorder(NewestFirst)
  {
    forall a: Entry<SettlementRecord>, b: Entry<SettlementRecord>
      ensures NewestFirst(a, b) || NewestFirst(b, a)
    {
      LexTrichotomy(a.data.date, b.data.date);
    }
    forall a: Entry<SettlementRecord>, b: Entry<SettlementRecord>, c: Entry<SettlementRecord> | NewestFirst(a, b) && NewestFirst(b, c)
      ensures NewestFirst(a, c)
    {
      var da, db, dc := a.data.date, b.data.date, c.data.date;
      if da != db && db != dc {
        LexLessTransitive(dc, db, da);
        LexLessIrreflexive(da);
      } else if da != dc {
        LexTrichotomy(da, dc);
      }
    }
  }

  /** The response's `data`. */
  function Listing(entries: seq<Entry<SettlementRecord>>, q: Query): seq<Entry<SettlementRecord>> {
    SortBy(Filtered(entries, q), NewestFirst)
  }

  /**
   * The listing holds exactly the records that pass the filter, each as often
   * as stored, newest date first and, within one date, highest id first.
   */
  lemma ListingSpec(entries: seq<Entry<SettlementRecord>>, q: Query)
    ensures var r := Listing(entries, q);
      && multiset(r) == multiset(Filtered(entries, q))
      && (forall e :: e in r <==> e in entries && Keep(e, q))
      && forall i, j :: 0 <= i < j < |r| ==>
           LexLess(r[j].data.date, r[i].data.date) || (r[i].data.date == r[j].data.date && r[i].idx >= r[j].idx)
  {
    var f := Filtered(entries, q);
    var r := SortBy(f, NewestFirst);
    NewestFirstTotal();
    SortBySorted(f, NewestFirst);
    forall e
      ensures e in r <==> e in f
    {
      assert e in r <==> e in multiset(r);
      assert e in f <==> e in multiset(f);
    }
  }

  /** Records of one date keep their stored order when their ids tie. */
  lemma ListingStable(entries: seq<Entry<SettlementRecord>>, q: Query, y: Entry<SettlementRecord>)
    ensures TiesWith(Listing(entries, q), NewestFirst, y) == TiesWith(Filtered(entries, q), NewestFirst, y)
  {
    NewestFirstTotal();
    SortByStable(Filtered(entries, q), NewestFirst, y);
  }

  /** An empty query lists every stored record. */
  lemma EmptyQueryListsAll(entries: seq<Entry<SettlementRecord>>)
    ensures multiset(Listing(entries, Query("", "", ""))) == multiset(entries)
  {
  }

  /** The name search ignores spaces and ASCII letter case on both sides. */
  lemma NameHitIgnoresSpaces(name: string, search: string)
    requires search != ""
    ensures NameHit(name, search) <==> NameHit(StripWhite(name), StripWhite(search))
  {
    StripWhiteIdempotent(name);
    StripWhiteIdempotent(search);
  }
}
