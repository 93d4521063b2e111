/**
 * The values that flow through one polling cycle: decoded feed items, the entry
 * dictionaries built from them, the area data of the geocoders, and the rows of the
 * two tables `duke_outages` and `outage_tracker`.
 *
 * Latitude and longitude are carried as reals and never computed on; the convex hull is
 * an opaque decoded JSON value or its JSON text.
 */
module Records {
  import opened Wrappers

  /** The `convexHull` value of a feed item; `Serialized(h)` is `json.dumps(h)`. */
  datatype Hull = Decoded(value: string) | Serialized(of: Hull)

  /** One item of `outages_data["data"]` as decoded from the outage feed. */
  datatype Nugget = Nugget(
    sourceEventNumber: string,
    deviceLatitudeLocation: real,
    deviceLongitudeLocation: real,
    customersAffectedNumber: int,
    outageCause: string,
    convexHull: Hull)

  /** The area keys `save_tracker` copies from the geocoder's dictionary into an entry. */
  datatype TrackerKeys = TrackerKeys(
    blockFips: Option<string>,
    state: Option<string>,
    county: Option<string>)

  /**
   * The dictionary `hit_duke` builds for one feed item. `area` and `outageRestored` are
   * `None` until `save_tracker` writes `block_fips`, `state`, `county` and
   * `outage_restored` into it.
   */
  datatype Entry = Entry(
    sourceEventNumber: string,
    deviceLat: real,
    deviceLon: real,
    convexHull: Hull,
    jurisdiction: string,
    affected: int,
    cause: string,
    origin: string,
    area: Option<TrackerKeys>,
    outageRestored: Option<bool>)

  /** One element of the FCC area response's `results`; JSON null is `None`. */
  datatype FccResult = FccResult(stateName: Option<string>, countyName: Option<string>, blockFips: Option<string>)

  /** The dictionary a geocoder returns: key to JSON string or null. */
  type AreaData = map<string, Option<string>>

  /** One record of a Census geographies layer (`NAME`, `GEOID`, `TRACT`, ...). */
  type GeoRecord = map<string, string>

  /** A row of `duke_outages`; `createdAt` is the column default, the insertion time. */
  datatype OutageRow = OutageRow(
    identifier: string,
    deviceLat: real,
    deviceLon: real,
    convexHull: Hull,
    jurisdiction: string,
    affected: int,
    cause: string,
    createdAt: int)

  /**
   * A row of `outage_tracker`. The start and end estimates both default to the insertion
   * time; `fixDuration` is the nullable `fix_duration_estimate` text.
   */
  datatype TrackerRow = TrackerRow(
    identifier: string,
    deviceLat: real,
    deviceLon: real,
    blockFips: Option<string>,
    convexHull: Hull,
    jurisdiction: string,
    origin: string,
    state: Option<string>,
    county: Option<string>,
    affected: int,
    cause: string,
    startEstimate: int,
    endEstimate: int,
    fixDuration: Option<string>,
    restored: bool)

  /**
   * Whether the database raises on the statements of one loop iteration: on its first
   * statement (the SELECT), or on the write (INSERT or UPDATE) if that is reached.
   */
  datatype DbFault = NoFault | LookupFails | WriteFails

  /** Fault of loop iteration `i`; iterations past the end of `faults` succeed. */
  function FaultAt(faults: seq<DbFault>, i: nat): DbFault {
    if i < |faults| then faults[i] else NoFault
  }

  function OutageIds(rows: seq<OutageRow>): seq<string> {
    seq(|rows|, k requires 0 <= k < |rows| => rows[k].identifier)
  }

  function TrackerIds(rows: seq<TrackerRow>): seq<string> {
    seq(|rows|, k requires 0 <= k < |rows| => rows[k].identifier)
  }

  /** `[entry['source_event_number'] for entry in data]`. */
  function SnapshotIds(data: seq<Entry>): seq<string> {
    seq(|data|, k requires 0 <= k < |data| => data[k].sourceEventNumber)
  }
}
