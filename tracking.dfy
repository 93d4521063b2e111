/**
 * `save_tracker` (dukeoutages.py:262-354) as a function of the tracker table at call
 * entry. An entry whose identifier has no tracker row is enriched through `hit_fcc`,
 * gets the enrichment keys and `outage_restored = False` written into it, and is
 * inserted as an open row whose start and end estimates default to the insertion time.
 * Any exception on a row (the geocoder request, an empty `results`, a missing key, a
 * database error) rolls back the call's uncommitted work.
 */
module Tracking {
  import opened Wrappers
  import opened Records
  import opened Identifiers
  import opened Fetch

  /** The FCC area response for a coordinate: its decoded `results`, or `None` if the request raised. */
  type Geocoder = (real, real) -> Option<seq<FccResult>>

  /** `hit_fcc(entry) or {}` followed by the key lookups; `None` wherever Python raises. */
  function Enrichment(e: Entry, fcc: Geocoder): Option<TrackerKeys> {
    var results :- fcc(e.deviceLat, e.deviceLon);
    Merged(LastArea(results))
  }

  /** What one entry's enrichment yields; `save_tracker` uses `Enricher(fcc)`. */
  type Enrich = Entry -> Option<TrackerKeys>

  function Enricher(fcc: Geocoder): Enrich {
    e => Enrichment(e, fcc)
  }

  /**
   * The row the INSERT writes: `outage_restored` is the `False` just written into the
   * entry, both estimates take their default, the time of the insert, and the duration
   * is null.
   */
  function NewTrackerRow(e: Entry, keys: TrackerKeys, now: int): TrackerRow {
    TrackerRow(e.sourceEventNumber, e.deviceLat, e.deviceLon, keys.blockFips, e.convexHull, e.jurisdiction,
               e.origin, keys.state, keys.county, e.affected, e.cause, now, now, None, false)
  }

  /** One iteration: the tracker table as the transaction sees it afterwards, and the entry. */
  function TrackerStep(base: seq<TrackerRow>, cur: seq<TrackerRow>, e: Entry, f: DbFault, enrich: Enrich, now: int)
    : (seq<TrackerRow>, Entry)
  {
    if f == LookupFails then (base, e)
    else if Count(TrackerIds(cur), e.sourceEventNumber) != 0 then (cur, e)
    else match enrich(e)
      case None => (base, e)
      case Some(keys) =>
        var entry := e.(area := Some(keys), outageRestored := Some(false));
        if f == WriteFails then (base, entry) else (cur + [NewTrackerRow(entry, keys, now)], entry)
  }

  /** The tracker table after the first `i` iterations. */
  function SavedTracker(base: seq<TrackerRow>, data: seq<Entry>, faults: seq<DbFault>, enrich: Enrich, now: int, i: nat)
    : seq<TrackerRow>
    requires i <= |data|
  {
    if i == 0 then base
    else TrackerStep(base, SavedTracker(base, data, faults, enrich, now, i - 1), data[i - 1], FaultAt(faults, i - 1), enrich, now).0
  }

  /** Entry `k` as iteration `k` leaves it. */
  function TrackedEntry(base: seq<TrackerRow>, data: seq<Entry>, faults: seq<DbFault>, enrich: Enrich, now: int, k: nat): Entry
    requires k < |data|
  {
    TrackerStep(base, SavedTracker(base, data, faults, enrich, now, k), data[k], FaultAt(faults, k), enrich, now).1
  }

  /** Writing the tracker keys into an entry changes nothing else about it. */
  lemma TrackedEntryKeeps(base: seq<TrackerRow>, data: seq<Entry>, faults: seq<DbFault>, enrich: Enrich, now: int, k: nat)
    requires k < |data|
    ensures var e := TrackedEntry(base, data, faults, enrich, now, k);
      && e.(area := data[k].area, outageRestored := data[k].outageRestored) == data[k]
      && (e != data[k] ==> e.area == enrich(data[k]) && e.outageRestored == Some(false))
  {
  }

  /** The entries as the first `i` iterations leave them. */
  function TrackedEntries(base: seq<TrackerRow>, data: seq<Entry>, faults: seq<DbFault>, enrich: Enrich, now: int, i: nat)
    : (entries: seq<Entry>)
    requires i <= |data|
    ensures |entries| == i
  {
    if i == 0 then [] else TrackedEntries(base, data, faults, enrich, now, i - 1) + [TrackedEntry(base, data, faults, enrich, now, i - 1)]
  }

  /** Entry `k` of the list as iteration `k` left it; later iterations do not touch it. */
  lemma {:induction false} TrackedEntriesAt(base: seq<TrackerRow>, data: seq<Entry>, faults: seq<DbFault>, enrich: Enrich, now: int, i: nat, k: nat)
    requires k < i <= |data|
    ensures TrackedEntries(base, data, faults, enrich, now, i)[k] == TrackedEntry(base, data, faults, enrich, now, k)
  {
    if k < i - 1 {
      TrackedEntriesAt(base, data, faults, enrich, now, i - 1, k);
    }
  }

  /** The call changes no entry but for its tracker keys, so the snapshot's identifiers survive it. */
  lemma TrackedEntriesIds(base: seq<TrackerRow>, data: seq<Entry>, faults: seq<DbFault>, enrich: Enrich, now: int)
    ensures var entries := TrackedEntries(base, data, faults, enrich, now, |data|);
      && (forall k :: 0 <= k < |data| ==> entries[k].(area := data[k].area, outageRestored := data[k].outageRestored) == data[k])
      && SnapshotIds(entries) == SnapshotIds(data)
  {
    var entries := TrackedEntries(base, data, faults, enrich, now, |data|);
    forall k | 0 <= k < |data|
      ensures entries[k].(area := data[k].area, outageRestored := data[k].outageRestored) == data[k]
      ensures SnapshotIds(entries)[k] == SnapshotIds(data)[k]
    {
      TrackedEntriesAt(base, data, faults, enrich, now, |data|, k);
      TrackedEntryKeeps(base, data, faults, enrich, now, k);
    }
  }

  lemma TrackerIdsAppend(rows: seq<TrackerRow>, row: TrackerRow)
    ensures TrackerIds(rows + [row]) == TrackerIds(rows) + [row.identifier]
  {
  }

  lemma TrackerIdsPrefix(rows: seq<TrackerRow>, longer: seq<TrackerRow>)
    requires rows <= longer
    ensures forall x :: x in TrackerIds(rows) ==> x in TrackerIds(longer)
  {
    forall x | x in TrackerIds(rows)
      ensures x in TrackerIds(longer)
    {
      var j :| 0 <= j < |rows| && rows[j].identifier == x;
      assert longer[j] == rows[j];
      assert TrackerIds(longer)[j] == x;
    }
  }

  /**
   * Existing tracker rows are never modified, and every new row is built from an entry
   * after the last rollback (`k0`) whose enrichment succeeded: it is open, has no
   * duration, and its start and end estimates are the insertion time.
   */
  lemma {:induction false} TrackerGrow(base: seq<TrackerRow>, data: seq<Entry>, faults: seq<DbFault>, enrich: Enrich, now: int,
                                       i: nat, k0: nat)
    requires k0 <= i <= |data|
    requires SavedTracker(base, data, faults, enrich, now, k0) == base
    ensures base <= SavedTracker(base, data, faults, enrich, now, i)
    ensures var rows := SavedTracker(base, data, faults, enrich, now, i);
      forall j :: |base| <= j < |rows| ==> exists k :: (k0 <= k < i && enrich(data[k]).Some? &&
        rows[j] == NewTrackerRow(data[k], enrich(data[k]).value, now))
    ensures var rows := SavedTracker(base, data, faults, enrich, now, i);
      forall j :: |base| <= j < |rows| ==>
        !rows[j].restored && rows[j].fixDuration == None && rows[j].startEstimate == now && rows[j].endEstimate == now
    decreases i
  {
    if i > k0 {
      TrackerGrow(base, data, faults, enrich, now, i - 1, k0);
      var cur := SavedTracker(base, data, faults, enrich, now, i - 1);
      var rows := SavedTracker(base, data, faults, enrich, now, i);
      var e := data[i - 1];
      if rows != base && rows != cur {
        var keys := enrich(e).value;
        assert rows == cur + [NewTrackerRow(e, keys, now)];
        forall j | |base| <= j < |rows|
          ensures exists k :: (k0 <= k < i && enrich(data[k]).Some? &&
            rows[j] == NewTrackerRow(data[k], enrich(data[k]).value, now))
        {
          if j < |cur| {
            assert rows[j] == cur[j];
          }
        }
      }
    }
  }

  /** At most one tracker row per identifier. */
  lemma {:induction false} TrackerUnique(base: seq<TrackerRow>, data: seq<Entry>, faults: seq<DbFault>, enrich: Enrich, now: int, i: nat)
    requires i <= |data|
    requires Unique(TrackerIds(base))
    ensures Unique(TrackerIds(SavedTracker(base, data, faults, enrich, now, i)))
  {
    if i > 0 {
      TrackerUnique(base, data, faults, enrich, now, i - 1);
      var cur := SavedTracker(base, data, faults, enrich, now, i - 1);
      var rows := SavedTracker(base, data, faults, enrich, now, i);
      var e := data[i - 1];
      if rows != base && rows != cur {
        var row := NewTrackerRow(e, enrich(e).value, now);
        TrackerIdsAppend(cur, row);
        AppendFresh(TrackerIds(cur), row.identifier);
      }
    }
  }

  /**
   * From iteration `k0` on, if no database error occurs and every enrichment succeeds,
   * what the table held at `k0` is kept.
   */
  lemma {:induction false} TrackerKeeps(base: seq<TrackerRow>, data: seq<Entry>, faults: seq<DbFault>, enrich: Enrich, now: int,
                                        i: nat, k0: nat)
    requires k0 <= i <= |data|
    requires forall k :: k0 <= k < i ==> FaultAt(faults, k) == NoFault && enrich(data[k]).Some?
    ensures SavedTracker(base, data, faults, enrich, now, k0) <= SavedTracker(base, data, faults, enrich, now, i)
    decreases i
  {
    if i > k0 {
      TrackerKeeps(base, data, faults, enrich, now, i - 1, k0);
      SuccessfulIteration(base, data, faults, enrich, now, i - 1);
      PrefixTransitive(SavedTracker(base, data, faults, enrich, now, k0), SavedTracker(base, data, faults, enrich, now, i - 1),
                       SavedTracker(base, data, faults, enrich, now, i));
    }
  }

  /**
   * From iteration `k0` on, if no database error occurs and every enrichment succeeds,
   * each entry's identifier ends up tracked.
   */
  lemma {:induction false} TrackerCover(base: seq<TrackerRow>, data: seq<Entry>, faults: seq<DbFault>, enrich: Enrich, now: int,
                                        i: nat, k0: nat)
    requires k0 <= i <= |data|
    requires forall k :: k0 <= k < i ==> FaultAt(faults, k) == NoFault && enrich(data[k]).Some?
    ensures forall k :: k0 <= k < i ==> data[k].sourceEventNumber in TrackerIds(SavedTracker(base, data, faults, enrich, now, i))
    decreases i
  {
    if i > k0 {
      TrackerCover(base, data, faults, enrich, now, i - 1, k0);
      SuccessfulIteration(base, data, faults, enrich, now, i - 1);
      TrackerIdsPrefix(SavedTracker(base, data, faults, enrich, now, i - 1), SavedTracker(base, data, faults, enrich, now, i));
    }
  }

  lemma SuccessfulIteration(base: seq<TrackerRow>, data: seq<Entry>, faults: seq<DbFault>, enrich: Enrich, now: int, i: nat)
    requires i < |data| && FaultAt(faults, i) == NoFault && enrich(data[i]).Some?
    ensures SavedTracker(base, data, faults, enrich, now, i) <= SavedTracker(base, data, faults, enrich, now, i + 1)
    ensures data[i].sourceEventNumber in TrackerIds(SavedTracker(base, data, faults, enrich, now, i + 1))
  {
    CoverStep(base, SavedTracker(base, data, faults, enrich, now, i), data[i], enrich, now);
  }

  /** A successful iteration keeps the table as a prefix and leaves the entry's identifier tracked. */
  lemma CoverStep(base: seq<TrackerRow>, cur: seq<TrackerRow>, e: Entry, enrich: Enrich, now: int)
    requires enrich(e).Some?
    ensures cur <= TrackerStep(base, cur, e, NoFault, enrich, now).0
    ensures e.sourceEventNumber in TrackerIds(TrackerStep(base, cur, e, NoFault, enrich, now).0)
  {
    CountZeroIff(TrackerIds(cur), e.sourceEventNumber);
    if Count(TrackerIds(cur), e.sourceEventNumber) == 0 {
      var row := NewTrackerRow(e, enrich(e).value, now);
      TrackerIdsAppend(cur, row);
    }
  }

  /**
   * An identifier whose enrichment fails for every entry that carries it gets no tracker
   * row in this call (it stays eligible for the next one).
   */
  lemma EnrichmentFailureSkips(base: seq<TrackerRow>, data: seq<Entry>, faults: seq<DbFault>, enrich: Enrich, now: int, x: string)
    requires x !in TrackerIds(base)
    requires forall k :: 0 <= k < |data| && data[k].sourceEventNumber == x ==> enrich(data[k]).None?
    ensures x !in TrackerIds(SavedTracker(base, data, faults, enrich, now, |data|))
  {
    TrackerGrow(base, data, faults, enrich, now, |data|, 0);
    var rows := SavedTracker(base, data, faults, enrich, now, |data|);
    forall j | 0 <= j < |rows|
      ensures rows[j].identifier != x
    {
      if j < |base| {
        assert rows[j] == base[j];
        assert TrackerIds(base)[j] == base[j].identifier;
      } else {
        var k :| 0 <= k < |data| && enrich(data[k]).Some? &&
          rows[j] == NewTrackerRow(data[k], enrich(data[k]).value, now);
      }
    }
  }

  /** A snapshot whose identifiers are all tracked changes nothing, whatever fails. */
  lemma {:induction false} TrackerIdle(base: seq<TrackerRow>, data: seq<Entry>, faults: seq<DbFault>, enrich: Enrich, now: int, i: nat)
    requires i <= |data|
    requires forall k :: 0 <= k < |data| ==> data[k].sourceEventNumber in TrackerIds(base)
    ensures SavedTracker(base, data, faults, enrich, now, i) == base
  {
    if i > 0 {
      TrackerIdle(base, data, faults, enrich, now, i - 1);
      CountZeroIff(TrackerIds(base), data[i - 1].sourceEventNumber);
    }
  }
}
