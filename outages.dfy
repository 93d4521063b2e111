/**
 * `save_outages` (dukeoutages.py:190-254) as a function of the table at call entry.
 * Each entry has its convex hull serialised in place, then the identifier is counted and
 * a row inserted only when the count is zero. A database error on a row rolls back the
 * whole uncommitted transaction, which is the table as it was when the call began; the
 * loop then goes on and the single commit after it keeps what was done since.
 */
module Outages {
  import opened Wrappers
  import opened Records
  import opened Identifiers

  /** `entry['convex_hull'] = json.dumps(entry['convex_hull'])`. */
  function Serialize(e: Entry): Entry {
    e.(convexHull := Serialized(e.convexHull))
  }

  function SerializeAll(data: seq<Entry>): seq<Entry> {
    seq(|data|, k requires 0 <= k < |data| => Serialize(data[k]))
  }

  /** The row the INSERT writes; `created_at` takes its default, the time of the insert. */
  function OutageRowOf(e: Entry, now: int): OutageRow {
    OutageRow(e.sourceEventNumber, e.deviceLat, e.deviceLon, e.convexHull, e.jurisdiction, e.affected, e.cause, now)
  }

  /** One iteration: `base` is the table at call entry, `cur` the table as the transaction sees it. */
  function OutageStep(base: seq<OutageRow>, cur: seq<OutageRow>, e: Entry, f: DbFault, now: int): seq<OutageRow> {
    var entry := Serialize(e);
    if f == LookupFails then base
    else if Count(OutageIds(cur), entry.sourceEventNumber) != 0 then cur
    else if f == WriteFails then base
    else cur + [OutageRowOf(entry, now)]
  }

  /** The table after the first `i` iterations. */
  function SavedOutages(base: seq<OutageRow>, data: seq<Entry>, faults: seq<DbFault>, now: int, i: nat): seq<OutageRow>
    requires i <= |data|
  {
    if i == 0 then base
    else OutageStep(base, SavedOutages(base, data, faults, now, i - 1), data[i - 1], FaultAt(faults, i - 1), now)
  }

  lemma OutageIdsAppend(rows: seq<OutageRow>, row: OutageRow)
    ensures OutageIds(rows + [row]) == OutageIds(rows) + [row.identifier]
  {
  }

  lemma OutageIdsPrefix(rows: seq<OutageRow>, longer: seq<OutageRow>)
    requires rows <= longer
    ensures forall x :: x in OutageIds(rows) ==> x in OutageIds(longer)
  {
    forall x | x in OutageIds(rows)
      ensures x in OutageIds(longer)
    {
      var j :| 0 <= j < |rows| && rows[j].identifier == x;
      assert longer[j] == rows[j];
      assert OutageIds(longer)[j] == x;
    }
  }

  /**
   * Rows are only appended: the table at call entry stays a prefix, and once the call has
   * been rolled back to it at iteration `k0`, every later row is the serialised row of an
   * entry after `k0`. (With `k0 = 0`: every new row comes from the snapshot.)
   */
  lemma {:induction false} OutagesGrow(base: seq<OutageRow>, data: seq<Entry>, faults: seq<DbFault>, now: int, i: nat, k0: nat)
    requires k0 <= i <= |data|
    requires SavedOutages(base, data, faults, now, k0) == base
    ensures base <= SavedOutages(base, data, faults, now, i)
    ensures var rows := SavedOutages(base, data, faults, now, i);
      forall j :: |base| <= j < |rows| ==> exists k :: k0 <= k < i && rows[j] == OutageRowOf(Serialize(data[k]), now)
    decreases i
  {
    if i > k0 {
      OutagesGrow(base, data, faults, now, i - 1, k0);
      var cur := SavedOutages(base, data, faults, now, i - 1);
      var rows := SavedOutages(base, data, faults, now, i);
      if rows == cur + [OutageRowOf(Serialize(data[i - 1]), now)] && rows != base && rows != cur {
        forall j | |base| <= j < |rows|
          ensures exists k :: k0 <= k < i && rows[j] == OutageRowOf(Serialize(data[k]), now)
        {
          if j == |cur| {
            assert rows[j] == OutageRowOf(Serialize(data[i - 1]), now);
          } else {
            assert rows[j] == cur[j];
          }
        }
      }
    }
  }

  /** At most one row per identifier: a call keeps a duplicate-free table duplicate-free. */
  lemma {:induction false} OutagesUnique(base: seq<OutageRow>, data: seq<Entry>, faults: seq<DbFault>, now: int, i: nat)
    requires i <= |data|
    requires Unique(OutageIds(base))
    ensures Unique(OutageIds(SavedOutages(base, data, faults, now, i)))
  {
    if i > 0 {
      OutagesUnique(base, data, faults, now, i - 1);
      var cur := SavedOutages(base, data, faults, now, i - 1);
      var row := OutageRowOf(Serialize(data[i - 1]), now);
      if Count(OutageIds(cur), row.identifier) == 0 {
        OutageIdsAppend(cur, row);
        AppendFresh(OutageIds(cur), row.identifier);
      }
    }
  }

  /** An iteration without a database error keeps the table and leaves the entry's identifier with a row. */
  lemma OutageIteration(base: seq<OutageRow>, data: seq<Entry>, faults: seq<DbFault>, now: int, i: nat)
    requires i < |data| && FaultAt(faults, i) == NoFault
    ensures SavedOutages(base, data, faults, now, i) <= SavedOutages(base, data, faults, now, i + 1)
    ensures data[i].sourceEventNumber in OutageIds(SavedOutages(base, data, faults, now, i + 1))
  {
    var cur := SavedOutages(base, data, faults, now, i);
    var id := data[i].sourceEventNumber;
    CountZeroIff(OutageIds(cur), id);
    if Count(OutageIds(cur), id) == 0 {
      OutageIdsAppend(cur, OutageRowOf(Serialize(data[i]), now));
    }
  }

  /** A step without a database error only ever appends. */
  lemma OutageStepKeeps(base: seq<OutageRow>, cur: seq<OutageRow>, e: Entry, now: int)
    ensures cur <= OutageStep(base, cur, e, NoFault, now)
  {
  }

  /** From iteration `k0` on without database errors, what the table held at `k0` is kept. */
  lemma {:induction false} OutagesKeep(base: seq<OutageRow>, data: seq<Entry>, faults: seq<DbFault>, now: int, i: nat, k0: nat)
    requires k0 <= i <= |data|
    requires forall k :: k0 <= k < i ==> FaultAt(faults, k) == NoFault
    ensures SavedOutages(base, data, faults, now, k0) <= SavedOutages(base, data, faults, now, i)
    decreases i
  {
    if i > k0 {
      OutagesKeep(base, data, faults, now, i - 1, k0);
      var cur := SavedOutages(base, data, faults, now, i - 1);
      assert FaultAt(faults, i - 1) == NoFault;
      OutageStepKeeps(base, cur, data[i - 1], now);
      PrefixTransitive(SavedOutages(base, data, faults, now, k0), cur, SavedOutages(base, data, faults, now, i));
    }
  }

  /**
   * From iteration `k0` on without database errors, each entry's identifier ends up with
   * a row (so the rows after a rollback are kept).
   */
  lemma {:induction false} OutagesCover(base: seq<OutageRow>, data: seq<Entry>, faults: seq<DbFault>, now: int, i: nat, k0: nat)
    requires k0 <= i <= |data|
    requires forall k :: k0 <= k < i ==> FaultAt(faults, k) == NoFault
    ensures forall k :: k0 <= k < i ==> data[k].sourceEventNumber in OutageIds(SavedOutages(base, data, faults, now, i))
    decreases i
  {
    if i > k0 {
      OutagesCover(base, data, faults, now, i - 1, k0);
      OutageIteration(base, data, faults, now, i - 1);
      OutageIdsPrefix(SavedOutages(base, data, faults, now, i - 1), SavedOutages(base, data, faults, now, i));
    }
  }

  /**
   * First write wins within one snapshot: without database errors, the row of a new
   * identifier is the one built from the first entry that carries it.
   */
  lemma FirstWriteWins(base: seq<OutageRow>, data: seq<Entry>, faults: seq<DbFault>, now: int, k: nat)
    requires k < |data|
    requires forall k' :: 0 <= k' < |data| ==> FaultAt(faults, k') == NoFault
    requires data[k].sourceEventNumber !in OutageIds(base)
    requires forall k' :: 0 <= k' < k ==> data[k'].sourceEventNumber != data[k].sourceEventNumber
    ensures OutageRowOf(Serialize(data[k]), now) in SavedOutages(base, data, faults, now, |data|)
  {
    var cur := SavedOutages(base, data, faults, now, k);
    var id := data[k].sourceEventNumber;
    OutagesGrow(base, data, faults, now, k, 0);
    assert id !in OutageIds(cur) by {
      forall j | 0 <= j < |cur|
        ensures cur[j].identifier != id
      {
        if j < |base| {
          assert cur[j] == base[j];
          assert OutageIds(base)[j] == base[j].identifier;
        } else {
          var k' :| 0 <= k' < k && cur[j] == OutageRowOf(Serialize(data[k']), now);
        }
      }
    }
    CountZeroIff(OutageIds(cur), id);
    var next := SavedOutages(base, data, faults, now, k + 1);
    assert next == cur + [OutageRowOf(Serialize(data[k]), now)];
    assert next[|cur|] == OutageRowOf(Serialize(data[k]), now);
    OutagesKeep(base, data, faults, now, |data|, k + 1);
    var rows := SavedOutages(base, data, faults, now, |data|);
    assert rows[|cur|] == next[|cur|];
  }

  /** A snapshot whose identifiers all have rows already changes nothing, whatever fails. */
  lemma {:induction false} OutagesIdle(base: seq<OutageRow>, data: seq<Entry>, faults: seq<DbFault>, now: int, i: nat)
    requires i <= |data|
    requires forall k :: 0 <= k < |data| ==> data[k].sourceEventNumber in OutageIds(base)
    ensures SavedOutages(base, data, faults, now, i) == base
  {
    if i > 0 {
      OutagesIdle(base, data, faults, now, i - 1);
      CountZeroIff(OutageIds(base), data[i - 1].sourceEventNumber);
    }
  }

  /**
   * The rollback after a row error reverts the whole uncommitted call, not just that row:
   * an entry inserted earlier in the same call is lost when a later insert fails.
   */
  lemma RowErrorDiscardsEarlierRows()
    ensures var a := Entry("a", 0.0, 0.0, Decoded("{}"), "DEF", 1, "cause", "Duke Energy", None, None);
      var b := a.(sourceEventNumber := "b");
      && SavedOutages([], [a, b], [NoFault, WriteFails], 0, 1) == [OutageRowOf(Serialize(a), 0)]
      && SavedOutages([], [a, b], [NoFault, WriteFails], 0, 2) == []
  {
    var a := Entry("a", 0.0, 0.0, Decoded("{}"), "DEF", 1, "cause", "Duke Energy", None, None);
    var b := a.(sourceEventNumber := "b");
    var data, faults := [a, b], [NoFault, WriteFails];
    var one := SavedOutages([], data, faults, 0, 1);
    assert SavedOutages([], data, faults, 0, 0) == [];
    assert Count(OutageIds([]), "a") == 0;
    assert FaultAt(faults, 0) == NoFault && data[0] == a;
    assert one == [OutageRowOf(Serialize(a), 0)];
    assert OutageIds(one) == ["a"];
    assert Count(OutageIds(one), "b") == 0;
  }
}
