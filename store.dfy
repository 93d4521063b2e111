/**
 * The PostgreSQL database as `save_outages`, `save_tracker` and `update_tracker`
 * (dukeoutages.py:190-443) drive it: each call opens a connection, works row by row
 * inside one transaction, rolls back the uncommitted work when a statement on a row
 * raises, and commits once after its loop. The `data` list the three calls share is an
 * array of entries that the first two update in place.
 */
module Database {
  import opened Wrappers
  import opened Records
  import opened Identifiers
  import Duration
  import opened Fetch
  import opened Outages
  import opened Tracking
  import opened Restoration
  import opened Cycle

  class Store {
    /** The tables as the open transaction sees them. */
    var outages: seq<OutageRow>
    var tracker: seq<TrackerRow>
    /** The tables as last committed. */
    var committedOutages: seq<OutageRow>
    var committedTracker: seq<TrackerRow>

    function Committed(): Tables
      reads this
    {
      Tables(committedOutages, committedTracker)
    }

    /** Both tables duplicate-free and every tracker row sound, as committed. */
    predicate Valid()
      reads this
    {
      TablesValid(Committed())
    }

    /** An empty database, as `create_tables` leaves a fresh one. */
    constructor ()
      ensures outages == [] && tracker == [] && committedOutages == [] && committedTracker == []
      ensures Valid()
    {
      outages, tracker := [], [];
      committedOutages, committedTracker := [], [];
    }

    /** `conn.rollback()`; a fresh connection likewise starts with no uncommitted work. */
    method Rollback()
      modifies this`outages, this`tracker
      ensures outages == committedOutages && tracker == committedTracker
    {
      outages, tracker := committedOutages, committedTracker;
    }

    /** `conn.commit()`. */
    method Commit()
      modifies this`committedOutages, this`committedTracker
      ensures committedOutages == outages && committedTracker == tracker
    {
      committedOutages, committedTracker := outages, tracker;
    }

    /** `save_outages(data)`: serialises each hull in place and inserts each unseen identifier. */
    method SaveOutages(data: array<Entry>, faults: seq<DbFault>, now: int)
      modifies this`outages, this`tracker, this`committedOutages, this`committedTracker, data
      ensures data[..] == SerializeAll(old(data[..]))
      ensures committedOutages == SavedOutages(old(committedOutages), old(data[..]), faults, now, data.Length)
      ensures committedTracker == old(committedTracker)
      ensures outages == committedOutages && tracker == committedTracker
      ensures old(Valid()) ==> Valid()
    {
      ghost var was := data[..];
      ghost var wasValid := Valid();
      Rollback();
      for i := 0 to data.Length
        invariant committedOutages == old(committedOutages) && committedTracker == old(committedTracker)
        invariant tracker == committedTracker
        invariant outages == SavedOutages(committedOutages, was, faults, now, i)
        invariant forall k :: 0 <= k < i ==> data[k] == Serialize(was[k])
        invariant forall k :: i <= k < data.Length ==> data[k] == was[k]
      {
        SaveOutagesEntry(data, i, FaultAt(faults, i), now);
      }
      Commit();
      if wasValid {
        OutagesUnique(old(committedOutages), was, faults, now, data.Length);
      }
    }

    /** The body of `save_outages`'s loop for entry `i`, its exceptions included. */
    method SaveOutagesEntry(data: array<Entry>, i: nat, f: DbFault, now: int)
      requires i < data.Length && tracker == committedTracker
      modifies this`outages, this`tracker, data
      ensures outages == OutageStep(committedOutages, old(outages), old(data[i]), f, now)
      ensures data[..] == old(data[..])[i := Serialize(old(data[i]))]
      ensures tracker == committedTracker
    {
      var entry := Serialize(data[i]);
      data[i] := entry;
      if f == LookupFails {
        Rollback();
      } else if Count(OutageIds(outages), entry.sourceEventNumber) == 0 {
        if f == WriteFails {
          Rollback();
        } else {
          outages := outages + [OutageRowOf(entry, now)];
        }
      }
    }

    /**
     * `save_tracker(data)`: enriches each entry without a tracker row through `hit_fcc`,
     * writes the keys into the entry and inserts it as an open row.
     */
    method SaveTracker(data: array<Entry>, faults: seq<DbFault>, fcc: Geocoder, now: int)
      modifies this`outages, this`tracker, this`committedOutages, this`committedTracker, data
      ensures data[..] == TrackedEntries(old(committedTracker), old(data[..]), faults, Enricher(fcc), now, data.Length)
      ensures committedTracker == SavedTracker(old(committedTracker), old(data[..]), faults, Enricher(fcc), now, data.Length)
      ensures committedOutages == old(committedOutages)
      ensures outages == committedOutages && tracker == committedTracker
      ensures old(Valid()) ==> Valid()
    {
      ghost var was := data[..];
      ghost var wasValid := Valid();
      Rollback();
      for i := 0 to data.Length
        invariant committedOutages == old(committedOutages) && committedTracker == old(committedTracker)
        invariant outages == committedOutages
        invariant tracker == SavedTracker(committedTracker, was, faults, Enricher(fcc), now, i)
        invariant data[..i] == TrackedEntries(committedTracker, was, faults, Enricher(fcc), now, i)
        invariant forall k :: i <= k < data.Length ==> data[k] == was[k]
      {
        SaveTrackerEntry(data, i, FaultAt(faults, i), fcc, now);
        assert data[..i + 1] == data[..i] + [data[i]];
      }
      assert data[..] == data[..data.Length];
      Commit();
      if wasValid {
        SavedTrackerValid(old(committedTracker), was, faults, Enricher(fcc), now);
      }
    }

    /** The body of `save_tracker`'s loop for entry `i`, its exceptions included. */
    method SaveTrackerEntry(data: array<Entry>, i: nat, f: DbFault, fcc: Geocoder, now: int)
      requires i < data.Length && outages == committedOutages
      modifies this`outages, this`tracker, data
      ensures (tracker, data[i]) == TrackerStep(committedTracker, old(tracker), old(data[i]), f, Enricher(fcc), now)
      ensures data[..] == old(data[..])[i := data[i]]
      ensures outages == committedOutages
    {
      var entry := data[i];
      if f == LookupFails {
        Rollback();
      } else if Count(TrackerIds(tracker), entry.sourceEventNumber) == 0 {
        var response := fcc(entry.deviceLat, entry.deviceLon);
        if response.None? {
          Rollback();
        } else {
          var area := HitFcc(response.value);
          var keys := Merged(area);
          assert keys == Enricher(fcc)(entry);
          if keys.None? {
            Rollback();
          } else {
            entry := entry.(area := Some(keys.value), outageRestored := Some(false));
            data[i] := entry;
            if f == WriteFails {
              Rollback();
            } else {
              tracker := tracker + [NewTrackerRow(entry, keys.value, now)];
            }
          }
        }
      }
    }

    /**
     * `update_tracker(data)`: every tracker identifier absent from `data` is marked
     * restored, its end estimate and duration written only if it was still open.
     */
    method UpdateTracker(data: array<Entry>, faults: seq<DbFault>, now: int)
      modifies this`outages, this`tracker, this`committedOutages, this`committedTracker
      ensures committedTracker == UpdatedTracker(old(committedTracker), SnapshotIds(data[..]), faults, now)
      ensures committedOutages == old(committedOutages)
      ensures outages == committedOutages && tracker == committedTracker
      ensures old(Valid()) ==> Valid()
    {
      ghost var wasValid := Valid();
      Rollback();
      var identifiers := TrackerIds(tracker);
      var snapshot := SnapshotIds(data[..]);
      for i := 0 to |identifiers|
        invariant committedOutages == old(committedOutages) && committedTracker == old(committedTracker)
        invariant outages == committedOutages
        invariant tracker == Restored(committedTracker, identifiers, snapshot, faults, now, i)
      {
        UpdateTrackerEntry(identifiers[i], snapshot, FaultAt(faults, i), now);
      }
      Commit();
      if wasValid {
        UpdatedSound(old(committedTracker), snapshot, faults, now);
      }
    }

    /** The body of `update_tracker`'s loop for identifier `id`, its exceptions included. */
    method UpdateTrackerEntry(id: string, snapshot: seq<string>, f: DbFault, now: int)
      requires outages == committedOutages
      modifies this`outages, this`tracker
      ensures tracker == RestoreStep(committedTracker, old(tracker), id, snapshot, f, now)
      ensures outages == committedOutages
    {
      if id !in snapshot {
        if f == LookupFails {
          Rollback();
        } else {
          var start := StartOf(tracker, id);
          if start.None? {
            Rollback();
          } else {
            var duration := Duration.Format(now - start.value);
            if f == WriteFails {
              Rollback();
            } else {
              tracker := RestoreWhere(tracker, id, now, duration);
            }
          }
        }
      }
    }

    /**
     * `main(headers, cookies)` after `create_tables`: fetch, then the three calls in
     * order on the same list. The committed tables end as `MainAfter` says, and stay valid.
     */
    method Run(feed: Feed, fcc: Geocoder, faults: Faults, now: int)
      modifies this
      ensures Committed() == MainAfter(old(Committed()), feed, fcc, faults, now)
      ensures old(Valid()) ==> Valid()
    {
      ghost var before := Committed();
      var master := HitDuke(Jurisdictions, feed);
      if master.None? {
        return;
      }
      var snapshot := master.value;
      var data := new Entry[|snapshot|](k requires 0 <= k < |snapshot| => snapshot[k]);
      assert data[..] == snapshot;
      SaveOutages(data, faults.outages, now);
      ghost var serialised := data[..];
      SaveTracker(data, faults.tracker, fcc, now);
      TrackedEntriesIds(before.tracker, serialised, faults.tracker, Enricher(fcc), now);
      assert SnapshotIds(serialised) == SnapshotIds(snapshot);
      UpdateTracker(data, faults.update, now);
    }
  }
}
