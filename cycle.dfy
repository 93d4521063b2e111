/**
 * One reconciliation cycle, the call order of `main` (dukeoutages.py:465-477): fetch the
 * snapshot, `save_outages`, `save_tracker` on the same (now serialised) entries, then
 * `update_tracker` against the snapshot's identifiers. Each call starts from what the
 * previous one committed.
 */
module Cycle {
  import opened Wrappers
  import opened Records
  import opened Identifiers
  import opened Fetch
  import opened Outages
  import opened Tracking
  import opened Restoration

  /** The two tables of the database. */
  datatype Tables = Tables(outages: seq<OutageRow>, tracker: seq<TrackerRow>)

  /** The database errors of each of the three calls, by loop position. */
  datatype Faults = Faults(outages: seq<DbFault>, tracker: seq<DbFault>, update: seq<DbFault>)

  const NoFaults := Faults([], [], [])

  /** At most one row per identifier in each table, and every tracker row sound. */
  predicate TablesValid(t: Tables) {
    && Unique(OutageIds(t.outages))
    && Unique(TrackerIds(t.tracker))
    && forall j :: 0 <= j < |t.tracker| ==> RowSound(t.tracker[j])
  }

  /** The tables after `save_outages`, `save_tracker` and `update_tracker` on `snapshot`. */
  function CycleAfter(t: Tables, snapshot: seq<Entry>, fcc: Geocoder, faults: Faults, now: int): Tables {
    var outages := SavedOutages(t.outages, snapshot, faults.outages, now, |snapshot|);
    var data := SerializeAll(snapshot);
    var tracker := SavedTracker(t.tracker, data, faults.tracker, Enricher(fcc), now, |data|);
    Tables(outages, UpdatedTracker(tracker, SnapshotIds(snapshot), faults.update, now))
  }

  /**
   * `main`: `hit_duke` on the polled jurisdictions, then the cycle; a failing Duke
   * request raises out of `hit_duke` before anything is written.
   */
  function MainAfter(t: Tables, feed: Feed, fcc: Geocoder, faults: Faults, now: int): Tables {
    match Collected(Jurisdictions, feed)
    case None => t
    case Some(snapshot) => CycleAfter(t, snapshot, fcc, faults, now)
  }

  /** The geocoder answers with a non-empty `results` for every entry of the snapshot. */
  predicate Geocodes(fcc: Geocoder, snapshot: seq<Entry>) {
    forall k :: 0 <= k < |snapshot| ==>
      fcc(snapshot[k].deviceLat, snapshot[k].deviceLon).Some? && fcc(snapshot[k].deviceLat, snapshot[k].deviceLon).value != []
  }

  /**
   * Every identifier of the snapshot has an outage row and a tracker row, and every
   * tracker row whose identifier is not in the snapshot is restored.
   */
  predicate Settled(t: Tables, snapshot: seq<Entry>) {
    && (forall k :: 0 <= k < |snapshot| ==> snapshot[k].sourceEventNumber in OutageIds(t.outages))
    && (forall k :: 0 <= k < |snapshot| ==> snapshot[k].sourceEventNumber in TrackerIds(t.tracker))
    && (forall j :: 0 <= j < |t.tracker| && t.tracker[j].identifier !in SnapshotIds(snapshot) ==> t.tracker[j].restored)
  }

  lemma SerializedIds(snapshot: seq<Entry>)
    ensures |SerializeAll(snapshot)| == |snapshot|
    ensures forall k :: 0 <= k < |snapshot| ==> SerializeAll(snapshot)[k].sourceEventNumber == snapshot[k].sourceEventNumber
  {
  }

  /** Enrichment reads only the coordinates, which serialisation leaves alone. */
  lemma EnrichesAll(fcc: Geocoder, snapshot: seq<Entry>)
    requires Geocodes(fcc, snapshot)
    ensures forall k :: 0 <= k < |snapshot| ==> Enricher(fcc)(SerializeAll(snapshot)[k]).Some?
  {
    forall k | 0 <= k < |snapshot|
      ensures Enricher(fcc)(SerializeAll(snapshot)[k]).Some?
    {
      var e := SerializeAll(snapshot)[k];
      FccAreaMerges(fcc(e.deviceLat, e.deviceLon).value);
    }
  }

  /** The tracker table after `save_tracker` keeps every row sound, whatever fails. */
  lemma SavedTrackerValid(base: seq<TrackerRow>, data: seq<Entry>, faults: seq<DbFault>, enrich: Enrich, now: int)
    requires Unique(TrackerIds(base)) && forall j :: 0 <= j < |base| ==> RowSound(base[j])
    ensures var rows := SavedTracker(base, data, faults, enrich, now, |data|);
      Unique(TrackerIds(rows)) && forall j :: 0 <= j < |rows| ==> RowSound(rows[j])
  {
    TrackerUnique(base, data, faults, enrich, now, |data|);
    TrackerGrow(base, data, faults, enrich, now, |data|, 0);
    var rows := SavedTracker(base, data, faults, enrich, now, |data|);
    forall j | 0 <= j < |rows|
      ensures RowSound(rows[j])
    {
      if j < |base| {
        assert rows[j] == base[j];
      }
    }
  }

  /** A cycle keeps both tables duplicate-free and every tracker row sound, whatever fails. */
  lemma CyclePreservesValid(t: Tables, snapshot: seq<Entry>, fcc: Geocoder, faults: Faults, now: int)
    requires TablesValid(t)
    ensures TablesValid(CycleAfter(t, snapshot, fcc, faults, now))
  {
    OutagesUnique(t.outages, snapshot, faults.outages, now, |snapshot|);
    var data := SerializeAll(snapshot);
    SavedTrackerValid(t.tracker, data, faults.tracker, Enricher(fcc), now);
    var tracker := SavedTracker(t.tracker, data, faults.tracker, Enricher(fcc), now, |data|);
    UpdatedSound(tracker, SnapshotIds(snapshot), faults.update, now);
  }

  /**
   * Outage rows are never modified or removed, and tracker rows are never removed and
   * keep their position and start estimate: history only grows.
   */
  lemma CycleKeepsHistory(t: Tables, snapshot: seq<Entry>, fcc: Geocoder, faults: Faults, now: int)
    requires TablesValid(t)
    ensures var after := CycleAfter(t, snapshot, fcc, faults, now);
      && t.outages <= after.outages
      && |t.tracker| <= |after.tracker|
      && forall j :: 0 <= j < |t.tracker| ==>
           after.tracker[j].identifier == t.tracker[j].identifier && after.tracker[j].startEstimate == t.tracker[j].startEstimate
  {
    OutagesGrow(t.outages, snapshot, faults.outages, now, |snapshot|, 0);
    var data := SerializeAll(snapshot);
    TrackerGrow(t.tracker, data, faults.tracker, Enricher(fcc), now, |data|, 0);
    TrackerUnique(t.tracker, data, faults.tracker, Enricher(fcc), now, |data|);
    var tracker := SavedTracker(t.tracker, data, faults.tracker, Enricher(fcc), now, |data|);
    RestoredFramed(tracker, SnapshotIds(snapshot), faults.update, now, |tracker|);
    var after := CycleAfter(t, snapshot, fcc, faults, now);
    forall j | 0 <= j < |t.tracker|
      ensures after.tracker[j].identifier == t.tracker[j].identifier && after.tracker[j].startEstimate == t.tracker[j].startEstimate
    {
      assert tracker[j] == t.tracker[j];
      assert TrackerIds(after.tracker)[j] == TrackerIds(tracker)[j];
    }
  }

  /** A restored tracker row is never reopened or rewritten, even when its outage reappears. */
  lemma CycleKeepsRestored(t: Tables, snapshot: seq<Entry>, fcc: Geocoder, faults: Faults, now: int, j: nat)
    requires TablesValid(t) && j < |t.tracker| && t.tracker[j].restored
    ensures var after := CycleAfter(t, snapshot, fcc, faults, now);
      j < |after.tracker| && after.tracker[j] == t.tracker[j]
  {
    var data := SerializeAll(snapshot);
    TrackerGrow(t.tracker, data, faults.tracker, Enricher(fcc), now, |data|, 0);
    TrackerUnique(t.tracker, data, faults.tracker, Enricher(fcc), now, |data|);
    var tracker := SavedTracker(t.tracker, data, faults.tracker, Enricher(fcc), now, |data|);
    assert tracker[j] == t.tracker[j];
    RestoredStays(tracker, SnapshotIds(snapshot), faults.update, now, j);
  }

  /** On settled tables a cycle changes nothing, whatever fails and whatever the geocoder answers. */
  lemma SettledCycleIsNoop(t: Tables, snapshot: seq<Entry>, fcc: Geocoder, faults: Faults, now: int)
    requires TablesValid(t) && Settled(t, snapshot)
    ensures CycleAfter(t, snapshot, fcc, faults, now) == t
  {
    OutagesIdle(t.outages, snapshot, faults.outages, now, |snapshot|);
    var data := SerializeAll(snapshot);
    SerializedIds(snapshot);
    TrackerIdle(t.tracker, data, faults.tracker, Enricher(fcc), now, |data|);
    UpdateIdle(t.tracker, SnapshotIds(snapshot), faults.update, now);
  }

  /** Without database errors, and with every entry geocoded, one cycle settles the tables. */
  lemma CycleSettles(t: Tables, snapshot: seq<Entry>, fcc: Geocoder, now: int)
    requires TablesValid(t) && Geocodes(fcc, snapshot)
    ensures Settled(CycleAfter(t, snapshot, fcc, NoFaults, now), snapshot)
  {
    var after := CycleAfter(t, snapshot, fcc, NoFaults, now);
    OutagesCover(t.outages, snapshot, [], now, |snapshot|, 0);
    var data := SerializeAll(snapshot);
    SerializedIds(snapshot);
    EnrichesAll(fcc, snapshot);
    TrackerCover(t.tracker, data, [], Enricher(fcc), now, |data|, 0);
    SavedTrackerValid(t.tracker, data, [], Enricher(fcc), now);
    var tracker := SavedTracker(t.tracker, data, [], Enricher(fcc), now, |data|);
    UpdatedSound(tracker, SnapshotIds(snapshot), [], now);
    forall j | 0 <= j < |after.tracker| && after.tracker[j].identifier !in SnapshotIds(snapshot)
      ensures after.tracker[j].restored
    {
      assert TrackerIds(after.tracker)[j] == TrackerIds(tracker)[j];
      AbsentRestored(tracker, SnapshotIds(snapshot), [], now, j);
    }
  }

  /**
   * Reconciliation is idempotent: after a fault-free cycle with every entry geocoded, a
   * second cycle on the same snapshot changes nothing, whatever fails in it.
   */
  lemma CycleIdempotent(t: Tables, snapshot: seq<Entry>, fcc: Geocoder, fcc2: Geocoder, faults: Faults, now: int, later: int)
    requires TablesValid(t) && Geocodes(fcc, snapshot)
    ensures var once := CycleAfter(t, snapshot, fcc, NoFaults, now);
      CycleAfter(once, snapshot, fcc2, faults, later) == once
  {
    CyclePreservesValid(t, snapshot, fcc, NoFaults, now);
    CycleSettles(t, snapshot, fcc, now);
    SettledCycleIsNoop(CycleAfter(t, snapshot, fcc, NoFaults, now), snapshot, fcc2, faults, later);
  }

  /**
   * An outage whose geocoding fails gets no tracker row in that cycle, and a later
   * fault-free cycle in which it geocodes inserts it: enrichment is retried.
   */
  lemma EnrichmentRetried(t: Tables, snapshot: seq<Entry>, fcc: Geocoder, fcc2: Geocoder, faults: Faults, now: int, later: int, x: string)
    requires TablesValid(t) && x !in TrackerIds(t.tracker)
    requires forall k :: 0 <= k < |snapshot| && snapshot[k].sourceEventNumber == x ==> Enricher(fcc)(snapshot[k]).None?
    requires x in SnapshotIds(snapshot) && Geocodes(fcc2, snapshot)
    ensures var once := CycleAfter(t, snapshot, fcc, faults, now);
      && x !in TrackerIds(once.tracker)
      && x in TrackerIds(CycleAfter(once, snapshot, fcc2, NoFaults, later).tracker)
  {
    var data := SerializeAll(snapshot);
    SerializedIds(snapshot);
    forall k | 0 <= k < |data| && data[k].sourceEventNumber == x
      ensures Enricher(fcc)(data[k]).None?
    {
      assert data[k].deviceLat == snapshot[k].deviceLat && data[k].deviceLon == snapshot[k].deviceLon;
    }
    EnrichmentFailureSkips(t.tracker, data, faults.tracker, Enricher(fcc), now, x);
    var tracker := SavedTracker(t.tracker, data, faults.tracker, Enricher(fcc), now, |data|);
    TrackerUnique(t.tracker, data, faults.tracker, Enricher(fcc), now, |data|);
    RestoredFramed(tracker, SnapshotIds(snapshot), faults.update, now, |tracker|);
    var once := CycleAfter(t, snapshot, fcc, faults, now);
    assert TrackerIds(once.tracker) == TrackerIds(tracker);
    CyclePreservesValid(t, snapshot, fcc, faults, now);
    CycleSettles(once, snapshot, fcc2, later);
    var k :| 0 <= k < |snapshot| && SnapshotIds(snapshot)[k] == x;
    assert snapshot[k].sourceEventNumber == x;
  }

  /** A failed Duke request leaves both tables as they were. */
  lemma FeedFailureIsNoop(t: Tables, feed: Feed, fcc: Geocoder, faults: Faults, now: int, j: string)
    requires j in Jurisdictions && feed(j).None?
    ensures MainAfter(t, feed, fcc, faults, now) == t
  {
    CollectedSomeIff(Jurisdictions, feed);
  }
}
