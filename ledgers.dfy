/**
 * The id-keyed ledgers of `api/storage.js`: settlement history, drivers and
 * affiliations. Each is a list of records with a numeric `idx`; a save with a
 * known id overwrites the record's fields in place, a save without an id
 * appends a record under a fresh id, and a delete filters the id out. The
 * history ledger also appends when the id is unknown; the driver and
 * affiliation ledgers then do nothing.
 */
module Ledgers {
  import opened Wrappers

  /** A stored record: its id and its fields. */
  datatype Entry<T> = Entry(idx: int, data: T)

  /** A record as a form submits it: `idx` is `None` when absent or falsy. */
  datatype Submission<T> = Submission(idx: Option<int>, data: T)

  /** `list.findIndex(item => item.idx === id)`, -1 when absent. */
  function FindEntry<T>(entries: seq<Entry<T>>, id: int): (t: int)
    ensures -1 <= t < |entries|
    ensures t >= 0 ==> entries[t].idx == id && forall j :: 0 <= j < t ==> entries[j].idx != id
    ensures t == -1 <==> forall j :: 0 <= j < |entries| ==> entries[j].idx != id
  {
    if entries == [] then -1
    else if entries[0].idx == id then 0
    else
      var t := FindEntry(entries[1..], id);
      assert forall j :: 1 <= j < |entries| ==> entries[j] == entries[1..][j - 1];
      if t == -1 then -1 else t + 1
  }

  /** `saveHistory(record)`: merge into the record with that id, otherwise append under `freshId`. */
  function SaveHistoryResult<T>(entries: seq<Entry<T>>, s: Submission<T>, freshId: int): seq<Entry<T>> {
    var t := if s.idx.Some? then FindEntry(entries, s.idx.value) else -1;
    if t != -1 then entries[t := Entry(entries[t].idx, s.data)]
    else entries + [Entry(freshId, s.data)]
  }

  /** `saveDriver(driver)` and `saveAffiliation(aff)`: merge into the record with that id, or append when there is no id. */
  function SaveMasterResult<T>(entries: seq<Entry<T>>, s: Submission<T>, freshId: int): seq<Entry<T>> {
    if s.idx.None? then entries + [Entry(freshId, s.data)]
    else
      var t := FindEntry(entries, s.idx.value);
      if t != -1 then entries[t := Entry(entries[t].idx, s.data)] else entries
  }

  /** `list.filter(item => item.idx !== parseInt(idx))` */
  function WithoutEntry<T>(entries: seq<Entry<T>>, id: int): (r: seq<Entry<T>>)
    ensures |r| <= |entries|
  {
    if entries == [] then []
    else WithoutEntry(entries[..|entries| - 1], id) + (if entries[|entries| - 1].idx == id then [] else [entries[|entries| - 1]])
  }

  /** One ledger file of `api/storage.js`; a write to it always succeeds. */
  class Ledger<T> {
    var entries: seq<Entry<T>>

    constructor(initial: seq<Entry<T>>)
      ensures entries == initial
    {
      entries := initial;
    }

    /** `saveHistory(record)` with `Date.now() + random` as `freshId`. */
    method SaveHistory(s: Submission<T>, freshId: int) returns (ok: bool)
      modifies this
      ensures ok && entries == SaveHistoryResult(old(entries), s, freshId)
    {
      if s.idx.Some? {
        var target := FindEntry(entries, s.idx.value);
        if target != -1 {
          entries := entries[target := Entry(entries[target].idx, s.data)];
        } else {
          entries := entries + [Entry(freshId, s.data)];
        }
      } else {
        entries := entries + [Entry(freshId, s.data)];
      }
      ok := true;
    }

    /** `saveDriver(driver)` / `saveAffiliation(aff)` with `Date.now()` as `freshId`. */
    method SaveMaster(s: Submission<T>, freshId: int) returns (ok: bool)
      modifies this
      ensures ok && entries == SaveMasterResult(old(entries), s, freshId)
    {
      if s.idx.Some? {
        var target := FindEntry(entries, s.idx.value);
        if target != -1 {
          entries := entries[target := Entry(entries[target].idx, s.data)];
        }
      } else {
        entries := entries + [Entry(freshId, s.data)];
      }
      ok := true;
    }

    /** `deleteHistory(idx)` / `deleteDriver(idx)` / `deleteAffiliation(idx)` */
    method Delete(id: int) returns (ok: bool)
      modifies this
      ensures ok && entries == WithoutEntry(old(entries), id)
    {
      entries := WithoutEntry(entries, id);
      ok := true;
    }
  }

  /** A known id overwrites that record's fields in place: same length, same id, nothing else touched. */
  lemma SaveKnownIdMerges<T>(entries: seq<Entry<T>>, s: Submission<T>, freshId: int, t: int)
    requires 0 <= t < |entries| && s.idx == Some(entries[t].idx)
    requires forall j :: 0 <= j < t ==> entries[j].idx != entries[t].idx
    ensures var r := SaveHistoryResult(entries, s, freshId);
      && r == SaveMasterResult(entries, s, freshId)
      && |r| == |entries| && r[t] == Entry(entries[t].idx, s.data)
      && forall j :: 0 <= j < |entries| && j != t ==> r[j] == entries[j]
  {
    assert FindEntry(entries, entries[t].idx) == t;
  }

  /** A history save with an unknown or absent id appends exactly one record under the fresh id. */
  lemma SaveHistoryUnknownAppends<T>(entries: seq<Entry<T>>, s: Submission<T>, freshId: int)
    requires forall j :: 0 <= j < |entries| ==> Some(entries[j].idx) != s.idx
    ensures var r := SaveHistoryResult(entries, s, freshId);
      |r| == |entries| + 1 && r[..|entries|] == entries && r[|entries|] == Entry(freshId, s.data)
  {
  }

  /** A driver or affiliation save with an unknown id changes nothing. */
  lemma SaveMasterUnknownIdIgnored<T>(entries: seq<Entry<T>>, s: Submission<T>, freshId: int)
    requires s.idx.Some? && forall j :: 0 <= j < |entries| ==> entries[j].idx != s.idx.value
    ensures SaveMasterResult(entries, s, freshId) == entries
  {
  }

  /** A driver or affiliation save without an id appends exactly one record under the fresh id. */
  lemma SaveMasterWithoutIdAppends<T>(entries: seq<Entry<T>>, s: Submission<T>, freshId: int)
    requires s.idx.None?
    ensures var r := SaveMasterResult(entries, s, freshId);
      |r| == |entries| + 1 && r[..|entries|] == entries && r[|entries|] == Entry(freshId, s.data)
  {
  }

  /** A delete keeps exactly the records with another id ... */
  lemma {:induction false} WithoutEntryMembers<T>(entries: seq<Entry<T>>, id: int)
    ensures forall e :: e in WithoutEntry(entries, id) <==> e in entries && e.idx != id
  {
    if entries != [] {
      WithoutEntryMembers(entries[..|entries| - 1], id);
      assert entries == entries[..|entries| - 1] + [entries[|entries| - 1]];
    }
  }

  /** ... in their original order, since the filter distributes over concatenation. */
  lemma {:induction false} WithoutEntryAppend<T>(a: seq<Entry<T>>, b: seq<Entry<T>>, id: int)
    ensures WithoutEntry(a + b, id) == WithoutEntry(a, id) + WithoutEntry(b, id)
    decreases |b|
  {
    if b != [] {
      var init := b[..|b| - 1];
      assert (a + b)[..|a + b| - 1] == a + init;
      WithoutEntryAppend(a, init, id);
    } else {
      assert a + b == a;
    }
  }
}
