/**
 * `update_tracker` (dukeoutages.py:362-443) as a function of the tracker table at call
 * entry. It reads every tracker identifier, and for each one absent from the snapshot it
 * reads the row's start estimate, formats the elapsed time, and issues an UPDATE that sets
 * `outage_restored = true` but writes the end estimate and the duration only when the row
 * was still open. A database error on an identifier rolls back the call's uncommitted work.
 */
module Restoration {
  import opened Wrappers
  import opened Records
  import opened Identifiers
  import Duration

  /** The guarded UPDATE on one row: the CASE keeps end and duration of a restored row. */
  function Restore(r: TrackerRow, end: int, duration: string): TrackerRow {
    r.(restored := true,
       endEstimate := if !r.restored then end else r.endEstimate,
       fixDuration := if !r.restored then Some(duration) else r.fixDuration)
  }

  /** `UPDATE outage_tracker SET ... WHERE outage_identifer = id`. */
  function RestoreWhere(rows: seq<TrackerRow>, id: string, end: int, duration: string): seq<TrackerRow> {
    seq(|rows|, k requires 0 <= k < |rows| => if rows[k].identifier == id then Restore(rows[k], end, duration) else rows[k])
  }

  /** `SELECT outage_start_estimate ... WHERE outage_identifer = id` and `fetchone()[0]`: the first match. */
  function StartOf(rows: seq<TrackerRow>, id: string): Option<int> {
    if rows == [] then None
    else if rows[0].identifier == id then Some(rows[0].startEstimate)
    else StartOf(rows[1..], id)
  }

  /** A row as restoration at time `now` leaves it. */
  function Closed(r: TrackerRow, now: int): TrackerRow {
    Restore(r, now, Duration.Format(now - r.startEstimate))
  }

  /**
   * The lifecycle invariant of a tracker row: an open row has no duration and an end
   * estimate equal to its start (both were the insertion time); a restored row's duration
   * is the formatted difference of its end and start.
   */
  predicate RowSound(r: TrackerRow) {
    && (!r.restored ==> r.fixDuration == None && r.endEstimate == r.startEstimate)
    && (r.restored ==> r.fixDuration == Some(Duration.Format(r.endEstimate - r.startEstimate)))
  }

  /** One iteration over tracker identifier `id`. */
  function RestoreStep(base: seq<TrackerRow>, cur: seq<TrackerRow>, id: string, snapshot: seq<string>, f: DbFault, now: int)
    : seq<TrackerRow>
  {
    if id in snapshot then cur
    else if f == LookupFails then base
    else match StartOf(cur, id)
      case None => base
      case Some(start) =>
        if f == WriteFails then base else RestoreWhere(cur, id, now, Duration.Format(now - start))
  }

  /** The tracker table after the first `i` of the identifiers `ids`. */
  function Restored(base: seq<TrackerRow>, ids: seq<string>, snapshot: seq<string>, faults: seq<DbFault>, now: int, i: nat)
    : (rows: seq<TrackerRow>)
    requires i <= |ids|
    ensures |rows| == |base|
  {
    if i == 0 then base
    else RestoreStep(base, Restored(base, ids, snapshot, faults, now, i - 1), ids[i - 1], snapshot, FaultAt(faults, i - 1), now)
  }

  /** `update_tracker` on the table `base`, iterating over its own identifiers. */
  function UpdatedTracker(base: seq<TrackerRow>, snapshot: seq<string>, faults: seq<DbFault>, now: int): (rows: seq<TrackerRow>)
    ensures |rows| == |base|
  {
    Restored(base, TrackerIds(base), snapshot, faults, now, |base|)
  }

  /** Restoring a restored row changes nothing: the transition happens once. */
  lemma RestoreIdempotent(r: TrackerRow, end: int, duration: string)
    requires r.restored
    ensures Restore(r, end, duration) == r
  {
  }

  /** Restoration keeps a row sound. */
  lemma ClosedSound(r: TrackerRow, now: int)
    requires RowSound(r)
    ensures RowSound(Closed(r, now))
  {
  }

  /** A closed row is restored; one that was open ends at `now` with the elapsed time. */
  lemma ClosedFields(r: TrackerRow, now: int)
    ensures Closed(r, now).restored
    ensures !r.restored ==> Closed(r, now).endEstimate == now && Closed(r, now).fixDuration == Some(Duration.Format(now - r.startEstimate))
  {
  }

  lemma {:induction false} StartOfUnique(rows: seq<TrackerRow>, j: nat)
    requires j < |rows| && Unique(TrackerIds(rows))
    ensures StartOf(rows, rows[j].identifier) == Some(rows[j].startEstimate)
  {
    if j > 0 {
      assert TrackerIds(rows)[0] != TrackerIds(rows)[j];
      var tail := rows[1..];
      assert TrackerIds(tail) == TrackerIds(rows)[1..];
      assert tail[j - 1] == rows[j];
      StartOfUnique(tail, j - 1);
    }
  }

  /** Rows keep their identifiers and start estimates; rows not yet visited are unchanged. */
  ghost predicate Framed(base: seq<TrackerRow>, rows: seq<TrackerRow>, i: nat) {
    && |rows| == |base|
    && TrackerIds(rows) == TrackerIds(base)
    && (forall j :: 0 <= j < |base| ==> rows[j].startEstimate == base[j].startEstimate)
    && (forall j :: i <= j < |base| ==> rows[j] == base[j])
  }

  /** With distinct identifiers, the UPDATE on row `i`'s identifier touches row `i` alone. */
  lemma RestoreWhereOne(rows: seq<TrackerRow>, i: nat, end: int, duration: string)
    requires i < |rows| && Unique(TrackerIds(rows))
    ensures RestoreWhere(rows, rows[i].identifier, end, duration) == rows[i := Restore(rows[i], end, duration)]
  {
    var next := RestoreWhere(rows, rows[i].identifier, end, duration);
    forall j | 0 <= j < |rows| && j != i
      ensures next[j] == rows[j]
    {
      assert TrackerIds(rows)[j] != TrackerIds(rows)[i];
    }
  }

  /**
   * One iteration over the `i`-th identifier of a duplicate-free table: it rolls back,
   * leaves the table alone, or closes exactly row `i`, and the last only if the
   * identifier is absent from the snapshot.
   */
  lemma RestoreIteration(base: seq<TrackerRow>, cur: seq<TrackerRow>, snapshot: seq<string>, f: DbFault, now: int, i: nat)
    requires i < |base| && Unique(TrackerIds(base)) && Framed(base, cur, i)
    ensures var next := RestoreStep(base, cur, base[i].identifier, snapshot, f, now);
      && (next == base || next == cur || (base[i].identifier !in snapshot && next == cur[i := Closed(base[i], now)]))
      && (f == NoFault ==> next == if base[i].identifier in snapshot then cur else cur[i := Closed(base[i], now)])
  {
    if f == NoFault {
      CleanIteration(base, cur, snapshot, now, i);
    }
  }

  /** Without a database error, the iteration closes row `i` exactly when its identifier is absent. */
  lemma CleanIteration(base: seq<TrackerRow>, cur: seq<TrackerRow>, snapshot: seq<string>, now: int, i: nat)
    requires i < |base| && Unique(TrackerIds(base)) && Framed(base, cur, i)
    ensures RestoreStep(base, cur, base[i].identifier, snapshot, NoFault, now)
      == if base[i].identifier in snapshot then cur else cur[i := Closed(base[i], now)]
  {
    assert cur[i] == base[i];
    if base[i].identifier !in snapshot {
      StartOfUnique(cur, i);
      RestoreWhereOne(cur, i, now, Duration.Format(now - base[i].startEstimate));
    }
  }

  /** Closing row `i` keeps the frame and extends the visited part past `i`. */
  lemma FramedClose(base: seq<TrackerRow>, cur: seq<TrackerRow>, now: int, i: nat)
    requires i < |base| && Framed(base, cur, i)
    ensures Framed(base, cur[i := Closed(base[i], now)], i + 1)
  {
    var next := cur[i := Closed(base[i], now)];
    assert TrackerIds(next) == TrackerIds(cur) by {
      forall j | 0 <= j < |next|
        ensures TrackerIds(next)[j] == TrackerIds(cur)[j]
      {
      }
    }
  }

  /** Each of the three outcomes of an iteration keeps the frame. */
  lemma FramedStep(base: seq<TrackerRow>, cur: seq<TrackerRow>, next: seq<TrackerRow>, now: int, i: nat)
    requires i < |base| && Framed(base, cur, i)
    requires next == base || next == cur || next == cur[i := Closed(base[i], now)]
    ensures Framed(base, next, i + 1)
  {
    if next != base && next != cur {
      FramedClose(base, cur, now, i);
    }
  }

  /** Whatever its outcome, the iteration over the `i`-th identifier keeps the frame. */
  lemma FramedIteration(base: seq<TrackerRow>, cur: seq<TrackerRow>, snapshot: seq<string>, f: DbFault, now: int, i: nat)
    requires i < |base| && Unique(TrackerIds(base)) && Framed(base, cur, i)
    ensures Framed(base, RestoreStep(base, cur, base[i].identifier, snapshot, f, now), i + 1)
  {
    RestoreIteration(base, cur, snapshot, f, now, i);
    FramedStep(base, cur, RestoreStep(base, cur, base[i].identifier, snapshot, f, now), now, i);
  }

  lemma {:induction false} RestoredFramed(base: seq<TrackerRow>, snapshot: seq<string>, faults: seq<DbFault>, now: int, i: nat)
    requires i <= |base| && Unique(TrackerIds(base))
    ensures Framed(base, Restored(base, TrackerIds(base), snapshot, faults, now, i), i)
  {
    if i > 0 {
      RestoredFramed(base, snapshot, faults, now, i - 1);
      assert TrackerIds(base)[i - 1] == base[i - 1].identifier;
      FramedIteration(base, Restored(base, TrackerIds(base), snapshot, faults, now, i - 1), snapshot, FaultAt(faults, i - 1), now, i - 1);
    }
  }

  /** The iteration over identifier `i` in terms of the tables before and after it. */
  lemma RestoredNext(base: seq<TrackerRow>, snapshot: seq<string>, faults: seq<DbFault>, now: int, i: nat)
    requires i < |base| && Unique(TrackerIds(base))
    ensures var cur := Restored(base, TrackerIds(base), snapshot, faults, now, i);
      var next := Restored(base, TrackerIds(base), snapshot, faults, now, i + 1);
      && cur[i] == base[i]
      && (next == base || next == cur || (base[i].identifier !in snapshot && next == cur[i := Closed(base[i], now)]))
  {
    RestoredFramed(base, snapshot, faults, now, i);
    var cur := Restored(base, TrackerIds(base), snapshot, faults, now, i);
    assert TrackerIds(base)[i] == base[i].identifier;
    RestoreIteration(base, cur, snapshot, FaultAt(faults, i), now, i);
  }

  /** The same iteration when its statements succeed. */
  lemma RestoredNextClean(base: seq<TrackerRow>, snapshot: seq<string>, faults: seq<DbFault>, now: int, i: nat)
    requires i < |base| && Unique(TrackerIds(base)) && FaultAt(faults, i) == NoFault
    ensures var cur := Restored(base, TrackerIds(base), snapshot, faults, now, i);
      && cur[i] == base[i]
      && Restored(base, TrackerIds(base), snapshot, faults, now, i + 1)
         == if base[i].identifier in snapshot then cur else cur[i := Closed(base[i], now)]
  {
    RestoredFramed(base, snapshot, faults, now, i);
    var cur := Restored(base, TrackerIds(base), snapshot, faults, now, i);
    assert TrackerIds(base)[i] == base[i].identifier;
    CleanIteration(base, cur, snapshot, now, i);
  }

  /** Row `r` is row `b` left alone, or closed at `now` because it was absent from the snapshot. */
  predicate Outcome(b: TrackerRow, r: TrackerRow, snapshot: seq<string>, now: int) {
    r == b || (b.identifier !in snapshot && r == Closed(b, now))
  }

  /** Whatever fails, a visited row is either unchanged or closed at `now`, and closed only if absent from the snapshot. */
  lemma {:induction false} RestoredEither(base: seq<TrackerRow>, snapshot: seq<string>, faults: seq<DbFault>, now: int, i: nat, j: nat)
    requires j < i <= |base| && Unique(TrackerIds(base))
    ensures Outcome(base[j], Restored(base, TrackerIds(base), snapshot, faults, now, i)[j], snapshot, now)
  {
    RestoredNext(base, snapshot, faults, now, i - 1);
    if j < i - 1 {
      RestoredEither(base, snapshot, faults, now, i - 1, j);
    }
  }

  /** Without database errors, a visited row is closed exactly when it is absent from the snapshot. */
  lemma {:induction false} RestoredExactly(base: seq<TrackerRow>, snapshot: seq<string>, faults: seq<DbFault>, now: int, i: nat, j: nat)
    requires j < i <= |base| && Unique(TrackerIds(base))
    requires forall k :: 0 <= k < i ==> FaultAt(faults, k) == NoFault
    ensures Restored(base, TrackerIds(base), snapshot, faults, now, i)[j] == if base[j].identifier in snapshot then base[j] else Closed(base[j], now)
  {
    assert FaultAt(faults, i - 1) == NoFault;
    RestoredNextClean(base, snapshot, faults, now, i - 1);
    if j < i - 1 {
      RestoredExactly(base, snapshot, faults, now, i - 1, j);
    }
  }

  /** A row whose identifier is in the snapshot is left exactly as it was. */
  lemma PresentUnchanged(base: seq<TrackerRow>, snapshot: seq<string>, faults: seq<DbFault>, now: int, j: nat)
    requires j < |base| && Unique(TrackerIds(base)) && base[j].identifier in snapshot
    ensures UpdatedTracker(base, snapshot, faults, now)[j] == base[j]
  {
    RestoredEither(base, snapshot, faults, now, |base|, j);
  }

  /** Restoration is one-way: a restored row keeps its flag, end estimate and duration. */
  lemma RestoredStays(base: seq<TrackerRow>, snapshot: seq<string>, faults: seq<DbFault>, now: int, j: nat)
    requires j < |base| && Unique(TrackerIds(base)) && base[j].restored
    ensures UpdatedTracker(base, snapshot, faults, now)[j] == base[j]
  {
    RestoredEither(base, snapshot, faults, now, |base|, j);
  }

  /**
   * Without database errors every row absent from the snapshot is restored; a row that
   * was open gets end estimate `now` and the formatted elapsed time.
   */
  lemma AbsentRestored(base: seq<TrackerRow>, snapshot: seq<string>, faults: seq<DbFault>, now: int, j: nat)
    requires j < |base| && Unique(TrackerIds(base)) && base[j].identifier !in snapshot
    requires forall k :: 0 <= k < |base| ==> FaultAt(faults, k) == NoFault
    ensures var r := UpdatedTracker(base, snapshot, faults, now)[j];
      && r.restored
      && (!base[j].restored ==> r.endEstimate == now && r.fixDuration == Some(Duration.Format(now - base[j].startEstimate)))
  {
    RestoredExactly(base, snapshot, faults, now, |base|, j);
    ClosedFields(base[j], now);
  }

  /** Every row stays sound, whatever fails. */
  lemma UpdatedSound(base: seq<TrackerRow>, snapshot: seq<string>, faults: seq<DbFault>, now: int)
    requires Unique(TrackerIds(base)) && forall j :: 0 <= j < |base| ==> RowSound(base[j])
    ensures var rows := UpdatedTracker(base, snapshot, faults, now);
      TrackerIds(rows) == TrackerIds(base) && forall j :: 0 <= j < |rows| ==> RowSound(rows[j])
  {
    RestoredFramed(base, snapshot, faults, now, |base|);
    var rows := UpdatedTracker(base, snapshot, faults, now);
    forall j | 0 <= j < |rows|
      ensures RowSound(rows[j])
    {
      RestoredEither(base, snapshot, faults, now, |base|, j);
      ClosedSound(base[j], now);
    }
  }

  /** Once every row absent from the snapshot is restored, a further run changes nothing. */
  lemma UpdateIdle(base: seq<TrackerRow>, snapshot: seq<string>, faults: seq<DbFault>, now: int)
    requires Unique(TrackerIds(base))
    requires forall j :: 0 <= j < |base| && base[j].identifier !in snapshot ==> base[j].restored
    ensures UpdatedTracker(base, snapshot, faults, now) == base
  {
    var rows := UpdatedTracker(base, snapshot, faults, now);
    forall j | 0 <= j < |base|
      ensures rows[j] == base[j]
    {
      RestoredEither(base, snapshot, faults, now, |base|, j);
    }
  }
}
