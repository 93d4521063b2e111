/**
 * The shape transforms on decoded JSON in dukeoutages.py: `hit_duke` flattens the
 * per-jurisdiction outage lists into entries, `hit_fcc` and `hit_geo` pick area fields
 * out of a geocoder response. The HTTP requests and `json.loads` are not modelled: the
 * decoded responses are inputs, and `None` stands for a request or decoding that raised.
 */
module Fetch {
  import opened Wrappers
  import opened Records

  const Origin := "Duke Energy"

  /** The jurisdictions `main` polls, in order. */
  const Jurisdictions := ["DEF", "DEC", "DEI", "DEM"]

  /** The decoded `data` list of the outage feed for a jurisdiction, or `None` if fetching raised. */
  type Feed = string -> Option<seq<Nugget>>

  /** The entry dictionary for one feed item of a jurisdiction. */
  function EntryOf(n: Nugget, jurisdiction: string): Entry {
    Entry(n.sourceEventNumber, n.deviceLatitudeLocation, n.deviceLongitudeLocation, n.convexHull,
          jurisdiction, n.customersAffectedNumber, n.outageCause, Origin, None, None)
  }

  function EntriesOf(items: seq<Nugget>, jurisdiction: string): seq<Entry> {
    seq(|items|, k requires 0 <= k < |items| => EntryOf(items[k], jurisdiction))
  }

  /**
   * Reference definition of `hit_duke`'s result: the entries of each jurisdiction in
   * turn, or `None` when some jurisdiction's request raised (the exception leaves `main`).
   */
  function Collected(js: seq<string>, feed: Feed): Option<seq<Entry>> {
    if js == [] then Some([])
    else
      var earlier :- Collected(js[..|js| - 1], feed);
      var items :- feed(js[|js| - 1]);
      Some(earlier + EntriesOf(items, js[|js| - 1]))
  }

  /** Number of feed items over all jurisdictions, when every request succeeds. */
  function ItemCount(js: seq<string>, feed: Feed): nat
    requires forall j :: j in js ==> feed(j).Some?
  {
    if js == [] then 0 else ItemCount(js[..|js| - 1], feed) + |feed(js[|js| - 1]).value|
  }

  /** `hit_duke`: one request per jurisdiction, each item appended to `master` in order. */
  method HitDuke(js: seq<string>, feed: Feed) returns (master: Option<seq<Entry>>)
    ensures master == Collected(js, feed)
  {
    var entries: seq<Entry> := [];
    var i := 0;
    while i < |js|
      invariant 0 <= i <= |js|
      invariant Collected(js[..i], feed) == Some(entries)
    {
      assert js[..i + 1][..i] == js[..i];
      var jurisdiction := js[i];
      var data := feed(jurisdiction);
      if data.None? {
        CollectedNoneExtends(js, i + 1, feed);
        return None;
      }
      var items := data.value;
      var k := 0;
      ghost var before := entries;
      while k < |items|
        invariant 0 <= k <= |items|
        invariant entries == before + EntriesOf(items[..k], jurisdiction)
      {
        assert EntriesOf(items[..k + 1], jurisdiction) == EntriesOf(items[..k], jurisdiction) + [EntryOf(items[k], jurisdiction)];
        entries := entries + [EntryOf(items[k], jurisdiction)];
        k := k + 1;
      }
      assert items[..k] == items;
      i := i + 1;
    }
    assert js[..i] == js;
    master := Some(entries);
  }

  /** Once a prefix of the jurisdictions fails, the whole fetch fails. */
  lemma {:induction false} CollectedNoneExtends(js: seq<string>, n: nat, feed: Feed)
    requires n <= |js| && Collected(js[..n], feed).None?
    ensures Collected(js, feed).None?
    decreases |js| - n
  {
    if n < |js| {
      assert js[..n + 1][..n] == js[..n];
      CollectedNoneExtends(js, n + 1, feed);
    } else {
      assert js[..n] == js;
    }
  }

  /** The fetch succeeds exactly when every jurisdiction's request succeeds. */
  lemma {:induction false} CollectedSomeIff(js: seq<string>, feed: Feed)
    ensures Collected(js, feed).Some? <==> forall j :: j in js ==> feed(j).Some?
  {
    if js != [] {
      var front := js[..|js| - 1];
      CollectedSomeIff(front, feed);
      assert js == front + [js[|js| - 1]];
    }
  }

  /** The result holds one entry per feed item. */
  lemma {:induction false} CollectedLength(js: seq<string>, feed: Feed)
    requires forall j :: j in js ==> feed(j).Some?
    ensures Collected(js, feed).Some? && |Collected(js, feed).value| == ItemCount(js, feed)
  {
    if js != [] {
      var front := js[..|js| - 1];
      assert forall j :: j in front ==> j in js;
      CollectedLength(front, feed);
    }
  }

  /** Jurisdiction order is kept: fetching a concatenation concatenates the fetches. */
  lemma {:induction false} CollectedAppend(js1: seq<string>, js2: seq<string>, feed: Feed)
    requires Collected(js1, feed).Some? && Collected(js2, feed).Some?
    ensures Collected(js1 + js2, feed) == Some(Collected(js1, feed).value + Collected(js2, feed).value)
    decreases |js2|
  {
    if js2 == [] {
      assert js1 + js2 == js1;
      assert Collected(js1, feed).value + [] == Collected(js1, feed).value;
    } else {
      var front := js2[..|js2| - 1];
      var last := js2[|js2| - 1];
      assert (js1 + js2)[..|js1 + js2| - 1] == js1 + front;
      assert (js1 + js2)[|js1 + js2| - 1] == last;
      assert Collected(front, feed).Some? && feed(last).Some?;
      CollectedAppend(js1, front, feed);
      var c1, c2, tail := Collected(js1, feed).value, Collected(front, feed).value, EntriesOf(feed(last).value, last);
      assert Collected(js2, feed).value == c2 + tail;
      assert (c1 + c2) + tail == c1 + (c2 + tail);
    }
  }

  /** Every entry of the result is tagged with the Duke origin and with a polled jurisdiction. */
  lemma {:induction false} CollectedTags(js: seq<string>, feed: Feed)
    requires Collected(js, feed).Some?
    ensures forall e :: e in Collected(js, feed).value ==> e.origin == Origin && e.jurisdiction in js && e.area == None && e.outageRestored == None
  {
    if js != [] {
      var front := js[..|js| - 1];
      CollectedTags(front, feed);
      assert forall j :: j in front ==> j in js;
    }
  }

  /** The result of one jurisdiction is its feed items, in order, each tagged with it. */
  lemma CollectedSingle(j: string, feed: Feed)
    requires feed(j).Some?
    ensures Collected([j], feed) == Some(EntriesOf(feed(j).value, j))
  {
    assert [j][..0] == [];
    assert [] + EntriesOf(feed(j).value, j) == EntriesOf(feed(j).value, j);
  }

  // ---- hit_fcc ----

  /** The dictionary `hit_fcc` builds from one element of `results`. */
  function AreaOf(r: FccResult): AreaData {
    map["block_fips" := r.blockFips, "state" := r.stateName, "county" := r.countyName]
  }

  /**
   * Reference definition of `hit_fcc`: the area of the last result; `None` when `results`
   * is empty, where the code raises because `entry` was never bound.
   */
  function LastArea(results: seq<FccResult>): Option<AreaData> {
    if results == [] then None else Some(AreaOf(results[|results| - 1]))
  }

  /** `hit_fcc`'s loop: every iteration overwrites `entry`. */
  method HitFcc(results: seq<FccResult>) returns (entry: Option<AreaData>)
    ensures entry.None? <==> results == []
    ensures entry.Some? ==> entry.value == AreaOf(results[|results| - 1])
  {
    entry := None;
    for i := 0 to |results|
      invariant i == 0 ==> entry == None
      invariant i > 0 ==> entry == Some(AreaOf(results[i - 1]))
    {
      var result := results[i];
      entry := Some(AreaOf(result));
    }
  }

  /**
   * The lookups `save_tracker` performs on the geocoder's dictionary: `block_fips` is
   * optional, `state` and `county` raise a KeyError when missing.
   */
  function MergeArea(area: AreaData): Option<TrackerKeys> {
    if "state" in area && "county" in area then
      Some(TrackerKeys(if "block_fips" in area then area["block_fips"] else None, area["state"], area["county"]))
    else None
  }

  /**
   * Whatever `hit_fcc` returns carries all three keys, so the `or {}` fallback and the
   * missing-key failures of `save_tracker` cannot happen with it: enrichment fails
   * exactly when `results` is empty.
   */
  lemma FccAreaMerges(results: seq<FccResult>)
    ensures Merged(LastArea(results)).Some? <==> results != []
    ensures results != [] ==> var r := results[|results| - 1];
      Merged(LastArea(results)) == Some(TrackerKeys(r.blockFips, r.stateName, r.countyName))
  {
  }

  function Merged(area: Option<AreaData>): Option<TrackerKeys> {
    var a :- area;
    MergeArea(a)
  }

  // ---- hit_geo ----

  /** The layers of the Census response `result.geographies`. */
  type Geographies = map<string, seq<GeoRecord>>

  /** `layer[0][field]` for a layer the response carries; `None` where Python raises. */
  function FirstField(g: Geographies, layer: string, field: string): Option<string>
    requires layer in g
  {
    if |g[layer]| > 0 && field in g[layer][0] then Some(g[layer][0][field]) else None
  }

  /** `hit_geo`: one key per layer present, read from that layer's first record. */
  function HitGeo(g: Geographies): Option<AreaData> {
    var withState :- if "States" in g then
        var name :- FirstField(g, "States", "NAME");
        Some(map["state" := Some(name)])
      else Some(map[]);
    var withCounty :- if "Counties" in g then
        var name :- FirstField(g, "Counties", "NAME");
        var geoid :- FirstField(g, "Counties", "GEOID");
        Some(withState["county" := Some(name)]["fips" := Some(geoid)])
      else Some(withState);
    if "Census Tracts" in g then
      var tract :- FirstField(g, "Census Tracts", "TRACT");
      Some(withCounty["tract" := Some(tract)])
    else Some(withCounty)
  }

  /** Every layer hit_geo reads is non-empty and its first record has the field read. */
  predicate GeoReadable(g: Geographies) {
    && ("States" in g ==> FirstField(g, "States", "NAME").Some?)
    && ("Counties" in g ==> FirstField(g, "Counties", "NAME").Some? && FirstField(g, "Counties", "GEOID").Some?)
    && ("Census Tracts" in g ==> FirstField(g, "Census Tracts", "TRACT").Some?)
  }

  /**
   * `hit_geo` succeeds exactly on readable responses; then each key is present exactly
   * when its layer is, with the first record's value, and no `block_fips` key exists.
   */
  lemma HitGeoKeys(g: Geographies)
    ensures HitGeo(g).Some? <==> GeoReadable(g)
    ensures HitGeo(g).Some? ==> var a := HitGeo(g).value;
      && a.Keys <= {"state", "county", "fips", "tract"}
      && ("state" in a <==> "States" in g)
      && ("county" in a <==> "Counties" in g)
      && ("fips" in a <==> "Counties" in g)
      && ("tract" in a <==> "Census Tracts" in g)
      && ("state" in a ==> a["state"] == FirstField(g, "States", "NAME"))
      && ("county" in a ==> a["county"] == FirstField(g, "Counties", "NAME"))
      && ("fips" in a ==> a["fips"] == FirstField(g, "Counties", "GEOID"))
      && ("tract" in a ==> a["tract"] == FirstField(g, "Census Tracts", "TRACT"))
  {
  }

  /**
   * Used in place of `hit_fcc`, `hit_geo` would make `save_tracker` fail whenever the
   * response lacks the States or the Counties layer, and never yields a block FIPS.
   */
  lemma GeoAreaMerges(g: Geographies)
    requires GeoReadable(g)
    ensures Merged(HitGeo(g)).Some? <==> "States" in g && "Counties" in g
    ensures Merged(HitGeo(g)).Some? ==> Merged(HitGeo(g)).value.blockFips == None
  {
    HitGeoKeys(g);
  }
}
