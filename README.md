# Duke outage reconciliation, modelled in Dafny

The polling job in `dukeoutages.py` runs one reconciliation cycle per call of `main`.
It fetches the current outages of the four Duke Energy jurisdictions (`hit_duke`).
It records each new outage identifier once in `duke_outages` (`save_outages`).
It opens a row in `outage_tracker` for each new identifier, enriched with the census
block, state and county from the FCC area service (`save_tracker` via `hit_fcc`).
Finally, it marks every tracked outage missing from the snapshot as restored, with an
end estimate and a `"{d}d {h}h {m}m {s}s"` duration (`update_tracker`). The alternative
enrichment from the Census geographies service (`hit_geo`) is modelled too.

The project is organised as follows.

- `records.dfy` holds the values: feed items, entry dictionaries, geocoder answers and
  table rows.
- `fetch.dfy` models `hit_duke` and `hit_fcc` as loop methods proved against reference
  functions, and `hit_geo` as a function.
- `duration.dfy` models the duration text and proves it can be parsed back.
- `outages.dfy`, `tracking.dfy` and `restoration.dfy` model the three database calls.
  Each is a fold over its loop. Every operation receives `base`, the tables at call
  entry, which is what a `conn.rollback()` returns to. It also receives `cur`, the
  tables as the open transaction sees them.
- `cycle.dfy` composes the three calls in `main`'s order and proves the
  reconciliation properties for the whole cycle.
- `store.dfy` is the imperative model: a `Store` class with the transaction's view and
  the committed tables as fields. `Rollback` and `Commit` methods restore or save
  them. There is one method per database call, whose loop carries the fold as its
  invariant, and a `Run` method for `main`. The `data` list is an `array<Entry>` that
  `SaveOutages` and `SaveTracker` update in place.

Tables are sequences of rows in insertion order. "At most one row per identifier" is
not built into the type; it is the invariant `Identifiers.Unique`, proved to be kept.
Database errors are inputs. Each call receives a sequence of `DbFault` values, one per
loop position: `LookupFails` makes the first statement of that iteration raise,
`WriteFails` makes the INSERT or UPDATE raise. The outage feed (`Feed`) and the FCC
service (`Geocoder`) are function parameters. `None` stands for a request or decoding
error.

A database error on one row does not roll back that row alone. `conn.rollback()`
(dukeoutages.py:243, 344, 430) discards all uncommitted work of the current call,
because the only commit comes after the loop. The loop then goes on, and the rows
written after the error are committed. `Outages.RowErrorDiscardsEarlierRows` shows a
row inserted earlier in the call lost to a later row's error.

## Model

| member | source | states |
|---|---|---|
| Identifiers.Count | dukeoutages.py:213-217 | `SELECT COUNT(*)` for an identifier never exceeds the number of rows |
| Identifiers.CountZeroIff | dukeoutages.py:217-219 | the count is zero exactly when the identifier is absent, so the `count == 0` test is a membership test |
| Identifiers.CountOfUnique | dukeoutages.py:292-298 | on a duplicate-free table the count is 1 for a present identifier and 0 otherwise |
| Identifiers.AppendFresh | dukeoutages.py:219-239 | appending an identifier whose count is zero keeps the identifiers distinct |
| Fetch.HitDuke | dukeoutages.py:97-129 | the nested loop's `master` equals the reference `Collected`; a failing request ends the fetch with no result |
| Fetch.CollectedNoneExtends | dukeoutages.py:100-105 | once one jurisdiction's request fails, the whole fetch fails |
| Fetch.CollectedSomeIff | dukeoutages.py:100-105 | the fetch succeeds exactly when every jurisdiction's request succeeds |
| Fetch.CollectedLength | dukeoutages.py:107-127 | a successful fetch holds one entry per feed item over all jurisdictions |
| Fetch.CollectedAppend | dukeoutages.py:100-127 | jurisdiction order is kept: fetching `js1 + js2` gives the entries of `js1` followed by those of `js2` |
| Fetch.CollectedTags | dukeoutages.py:111-124 | every fetched entry has origin "Duke Energy", a jurisdiction from the list, and no tracker keys |
| Fetch.CollectedSingle | dukeoutages.py:107-127 | one jurisdiction yields exactly its items, in feed order |
| Fetch.HitFcc | dukeoutages.py:38-58 | the loop returns nothing exactly when `results` is empty (the unbound `entry`); otherwise it returns the dictionary of the last result |
| Fetch.FccAreaMerges | dukeoutages.py:299-304 | on `hit_fcc`'s dictionary, enrichment fails exactly when `results` is empty and otherwise takes the last result's three fields, so `or {}` never applies |
| Fetch.HitGeo | dukeoutages.py:67-89 | defines `hit_geo`: the States name, the Counties name and GEOID, and the tract, each read from its layer's first record when the layer is present; a layer without that record or field makes it fail |
| Fetch.HitGeoKeys | dukeoutages.py:67-89 | `hit_geo` succeeds exactly when every layer present can be read; then each key is present exactly when its layer is, with that layer's first record's value |
| Fetch.GeoAreaMerges | dukeoutages.py:67-89 | with `hit_geo`'s dictionary, enrichment would succeed exactly when the States and Counties layers are present, and never gives a block FIPS |
| Duration.Format | dukeoutages.py:401-406 | defines the duration text: the days of the floor split, then hours, minutes and seconds of the remainder, as `"{d}d {h}h {m}m {s}s"` |
| Duration.Split | dukeoutages.py:401-404 | hours are in 0..23, minutes and seconds in 0..59, and days, hours, minutes and seconds add up to the elapsed seconds |
| Duration.SplitUnique | dukeoutages.py:401-404 | the split is the only one with those bounds, as `timedelta` normalises |
| Duration.ParseFormat | dukeoutages.py:401-406 | the duration text parses back to the elapsed seconds, negative ones included |
| Duration.FormatInjective | dukeoutages.py:401-406 | distinct elapsed times give distinct texts |
| Duration.FormatExample | dukeoutages.py:406 | 90061 seconds reads "1d 1h 1m 1s" |
| Duration.FormatNotCalendarAware | dukeoutages.py:401-406 | 25 hours reads "1d 1h 0m 0s" |
| Duration.FormatNegative | dukeoutages.py:396-406 | a start one second in the future gives "-1d 23h 59m 59s" |
| Outages.OutageStep | dukeoutages.py:210-243 | defines one iteration of `save_outages`: an error on the SELECT returns to the table at call entry; a present identifier leaves the table alone; otherwise the INSERT appends the serialised row, or its error returns to the table at call entry |
| Outages.SavedOutages | dukeoutages.py:209-245 | defines the table after the first `i` iterations of `save_outages` |
| Outages.OutagesGrow | dukeoutages.py:209-243 | rows are only appended: the table at call entry stays a prefix, and every new row is the serialised row of a snapshot entry |
| Outages.OutagesUnique | dukeoutages.py:213-239 | whatever fails, a duplicate-free `duke_outages` stays duplicate-free |
| Outages.OutagesKeep | dukeoutages.py:209-245 | with no error from position `k0` on, nothing inserted from there is lost |
| Outages.OutagesCover | dukeoutages.py:209-245 | with no error from position `k0` on, every identifier from there has a row at the end |
| Outages.FirstWriteWins | dukeoutages.py:213-239 | without errors, a new identifier's row is the one built from its first occurrence in the snapshot |
| Outages.OutagesIdle | dukeoutages.py:219 | when every identifier already has a row, the call changes nothing, whatever fails |
| Outages.RowErrorDiscardsEarlierRows | dukeoutages.py:240-245 | an insert that fails rolls back an earlier successful insert of the same call |
| Tracking.TrackerStep | dukeoutages.py:289-344 | defines one iteration of `save_tracker`, on the table and on the entry: a tracked identifier is skipped; otherwise a failing enrichment or INSERT returns to the table at call entry, and a successful one appends an open row built from the enriched entry |
| Tracking.SavedTracker | dukeoutages.py:288-346 | defines the table after the first `i` iterations of `save_tracker` |
| Tracking.TrackedEntryKeeps | dukeoutages.py:302-309 | `save_tracker` changes an entry only by writing its tracker keys and `outage_restored = False` |
| Tracking.TrackedEntriesIds | dukeoutages.py:288-309 | after `save_tracker` every entry of the list equals the one it was given but for its tracker keys and `outage_restored`, so the list still has the snapshot's identifiers in order |
| Tracking.TrackerGrow | dukeoutages.py:288-344 | existing tracker rows are never modified; every new row comes from an entry whose enrichment succeeded, is open, has no duration, and starts and ends at the insertion time |
| Tracking.TrackerUnique | dukeoutages.py:292-340 | whatever fails, a duplicate-free `outage_tracker` stays duplicate-free |
| Tracking.TrackerKeeps | dukeoutages.py:288-346 | with no error and successful enrichment from position `k0` on, nothing inserted from there is lost |
| Tracking.TrackerCover | dukeoutages.py:288-346 | with no error and successful enrichment from position `k0` on, every identifier from there has a tracker row at the end |
| Tracking.EnrichmentFailureSkips | dukeoutages.py:299-304 | an identifier whose enrichment fails gets no tracker row in that call |
| Tracking.TrackerIdle | dukeoutages.py:298 | when every identifier is already tracked, the call changes nothing and the geocoder is not consulted |
| Restoration.Restore | dukeoutages.py:408-420 | defines the CASE-guarded UPDATE on one row: it sets the flag, and writes end estimate and duration only on a row that was open |
| Restoration.RestoreStep | dukeoutages.py:384-430 | defines one iteration of `update_tracker`: a present identifier is skipped; an error on the SELECT, a missing row or an error on the UPDATE returns to the table at call entry; otherwise every row with that identifier is updated |
| Restoration.Restored | dukeoutages.py:383-430 | marking identifiers restored never adds or removes rows |
| Restoration.UpdatedTracker | dukeoutages.py:371-432 | the table after `update_tracker` has as many rows as before |
| Restoration.RestoreIdempotent | dukeoutages.py:408-420 | the guarded UPDATE leaves a restored row as it is |
| Restoration.ClosedSound | dukeoutages.py:394-420 | closing a sound row gives a sound row |
| Restoration.ClosedFields | dukeoutages.py:394-420 | a closed row is restored; a row that was open gets end estimate `now` and the formatted time elapsed since its start |
| Restoration.StartOfUnique | dukeoutages.py:387-392 | on a duplicate-free table the start lookup returns the row's own start estimate |
| Restoration.RestoreWhereOne | dukeoutages.py:408-420 | on a duplicate-free table, the UPDATE on one row's identifier changes that row alone |
| Restoration.RestoreIteration | dukeoutages.py:384-430 | one iteration rolls back, leaves the table alone, or closes exactly the identifier's own row, and the last only for an identifier absent from `data`; without an error it closes that row exactly when the identifier is absent |
| Restoration.CleanIteration | dukeoutages.py:384-425 | when its statements succeed, one iteration leaves the table alone if the identifier is in the snapshot and otherwise closes exactly that row |
| Restoration.FramedIteration | dukeoutages.py:384-430 | whatever its outcome, one iteration keeps every identifier and start estimate and leaves the rows not yet visited as they were |
| Restoration.RestoredFramed | dukeoutages.py:383-430 | every row keeps its identifier and start estimate, and rows not yet visited are unchanged |
| Restoration.RestoredNext | dukeoutages.py:383-430 | the same iteration, stated between the tables before and after it |
| Restoration.RestoredNextClean | dukeoutages.py:383-425 | the error-free iteration, stated between the tables before and after it |
| Restoration.RestoredEither | dukeoutages.py:383-430 | whatever fails, a visited row is unchanged or closed at `now`, and closed only if absent from the snapshot |
| Restoration.RestoredExactly | dukeoutages.py:383-430 | without errors, a visited row is closed exactly when absent from the snapshot |
| Restoration.PresentUnchanged | dukeoutages.py:385 | a row whose identifier is in the snapshot is left exactly as it was |
| Restoration.RestoredStays | dukeoutages.py:412-419 | restoration is one-way: a restored row keeps its flag, end estimate and duration |
| Restoration.AbsentRestored | dukeoutages.py:385-425 | without errors, every row absent from the snapshot is restored; an open one gets end `now` and the duration since its start |
| Restoration.UpdatedSound | dukeoutages.py:371-432 | whatever fails, identifiers are kept and every row stays sound (open: no duration and end = start; restored: duration = end - start) |
| Restoration.UpdateIdle | dukeoutages.py:383-425 | once every absent row is restored, the call changes nothing, whatever fails |
| Cycle.CycleAfter | dukeoutages.py:470-477 | defines a cycle on a fetched snapshot: `save_outages`, then `save_tracker` on the serialised entries, then `update_tracker` against the snapshot's identifiers |
| Cycle.MainAfter | dukeoutages.py:465-477 | defines `main` after `create_tables`: fetch the four jurisdictions, then the cycle; a failed fetch writes nothing |
| Cycle.SerializedIds | dukeoutages.py:211 | serialising the hulls keeps the entries and their identifiers |
| Cycle.EnrichesAll | dukeoutages.py:38-58 | enrichment succeeds for every entry if the geocoder answers each with a non-empty `results` |
| Cycle.SavedTrackerValid | dukeoutages.py:288-346 | after `save_tracker` the tracker table is duplicate-free and every row is sound |
| Cycle.CyclePreservesValid | dukeoutages.py:465-477 | whatever fails, a cycle keeps both tables duplicate-free and every tracker row sound |
| Cycle.CycleKeepsHistory | dukeoutages.py:465-477 | outage rows are never modified or removed; tracker rows are never removed and keep their position, identifier and start estimate |
| Cycle.CycleKeepsRestored | dukeoutages.py:465-477 | a restored tracker row is never reopened, even when its outage reappears in the feed |
| Cycle.SettledCycleIsNoop | dukeoutages.py:465-477 | on settled tables (snapshot fully recorded, every absent outage restored) a cycle changes nothing, whatever fails and whatever the geocoder answers |
| Cycle.CycleSettles | dukeoutages.py:465-477 | without errors and with every entry geocoded, one cycle settles the tables |
| Cycle.CycleIdempotent | dukeoutages.py:465-477 | after such a cycle a second one on the same snapshot changes nothing |
| Cycle.EnrichmentRetried | dukeoutages.py:298-304 | an outage whose enrichment fails (the request raises, or `results` is empty) gets no tracker row; a later fault-free cycle in which it geocodes inserts it |
| Cycle.FeedFailureIsNoop | dukeoutages.py:465-477 | a failed Duke request leaves both tables unchanged |
| Database.Store.constructor | dukeoutages.py:138-182 | a freshly created database has two empty tables, which are valid |
| Database.Store.Rollback | dukeoutages.py:243 | the transaction's view returns to the committed tables |
| Database.Store.Commit | dukeoutages.py:245 | the committed tables become the transaction's view |
| Database.Store.SaveOutagesEntry | dukeoutages.py:210-243 | one iteration serialises entry `i` in place and leaves the outage view as one fold step prescribes |
| Database.Store.SaveOutages | dukeoutages.py:190-254 | the array holds the serialised entries, and the committed outage table is `SavedOutages` of the table at entry; the tracker table is untouched; a valid database stays valid |
| Database.Store.SaveTrackerEntry | dukeoutages.py:289-344 | one iteration, `hit_fcc` included, leaves the tracker view and entry `i` as one fold step prescribes, and no other entry changes |
| Database.Store.SaveTracker | dukeoutages.py:262-354 | the array holds the entries with their tracker keys, and the committed tracker table is `SavedTracker` of the table at entry with the FCC enrichment; a valid database stays valid |
| Database.Store.UpdateTrackerEntry | dukeoutages.py:384-430 | one iteration leaves the tracker view as one fold step prescribes |
| Database.Store.UpdateTracker | dukeoutages.py:362-443 | the committed tracker table is `UpdatedTracker` of the table at entry against the identifiers in `data`; a valid database stays valid |
| Database.Store.Run | dukeoutages.py:465-477 | on the four polled jurisdictions, the committed tables end as `MainAfter` of those at entry, and a valid database stays valid |

## Left out

- `create_tables` and the `CREATE TABLE IF NOT EXISTS` statements are not modelled: the tables always exist. `Database.Store.constructor` stands for an empty, freshly created database.
- The HTTP requests, JSON decoding and credentials are not modelled: the feed and the geocoder are parameters that return decoded values or `None`. `dukeauth.py`, `dukejsoner.py`, `app.py` and `scheduler.py` are not part of this model.
- `json.dumps` of the convex hull is the constructor `Serialized`; its text is not modelled.
- Missing fields in a feed item or an FCC result (a `KeyError`) are not modelled: decoded items always carry their fields.
- Errors outside the per-row `try` are not modelled: a failing connection, cursor, DDL statement or `conn.commit()`.
- Time is one integer `now` (seconds) per call and per cycle. `CURRENT_TIMESTAMP` (transaction start, database clock) and each `datetime.now()` (host clock) are not told apart, and microseconds are dropped; `Duration.FormatNegative` shows what skew between the clocks would print.
- Rows are read back in insertion order; SQL gives no order guarantee. For `SELECT COUNT(*)` and the start-estimate lookup the order does not matter on duplicate-free tables. For `update_tracker` it does: the unordered `SELECT outage_identifer` (dukeoutages.py:371-374) decides which identifiers are visited before a failing one, and so which restorations that failure's rollback discards. With rows `[a, b]` and the UPDATE of `b` failing, `a`'s restoration is lost; with `[b, a]` it survives. The model fixes one order, insertion order, and does not cover the others.
- `Tracking.Enrichment`: a geocoder is a function, so the same coordinates always get the same answer.
- `Tracking.TrackerStep`: only `hit_fcc` dictionaries reach the key lookups in `save_tracker`. After a `KeyError` on `state`, it does not model the `block_fips` key already written into the entry. Nothing downstream reads that key.
- Latitude and longitude are reals that are never computed on; DECIMAL and TIMESTAMP column conversions are not modelled.
- Logging (`print`) and the connection/cursor lifecycle are left out; concurrent runs of the job are not modelled.
