/**
 * The map page of the web client: the locations it holds, the filter it applies before drawing
 * markers, the choices it offers the filter panel, and the append after a location is added.
 * A location here is the JSON object the server returns, not a database row.
 */
module MapView {
  import opened Common

  /** One photo of a location as the client holds it; `url` is absent until the client fills it. */
  datatype MapPhoto = MapPhoto(id: int, filePath: string, url: Option<string>)

  /**
   * A location as the client holds it. `netType` is `null` when the server has none;
   * `photos` may be missing from an object the add form hands back.
   */
  datatype MapLocation = MapLocation(
    id: int,
    name: string,
    description: string,
    tablesCount: int,
    netType: Option<string>,
    hasRoof: bool,
    photos: Option<seq<MapPhoto>>,
    ratingsCount: int)

  /** The filter state shared with the filter panel. */
  datatype Filters = Filters(hasRoof: bool, netTypes: seq<string>)

  /** The state the page starts in: no roof requirement, no net type selected. */
  const InitialFilters := Filters(false, [])

  /** `x ? … : …` on a string: it is truthy when present and not empty. */
  predicate Truthy(s: Option<string>)
  {
    s.Some? && s.value != ""
  }

  // ---------------------------------------------------------------------------------------
  // filteredLocations

  /** The callback given to `locations.filter`, with its two early `return false`s. */
  predicate Keep(f: Filters, loc: MapLocation)
  {
    if f.hasRoof && !loc.hasRoof then false
    else if |f.netTypes| > 0 && !(loc.netType.Some? && loc.netType.value in f.netTypes) then false
    else true
  }

  /** `locations.filter(…)`: the locations that are drawn. */
  function Filtered(f: Filters, locs: seq<MapLocation>): (r: seq<MapLocation>)
    ensures |r| <= |locs|
    ensures forall x :: x in r <==> x in locs && Keep(f, x)
  {
    if |locs| == 0 then []
    else
      var n := |locs| - 1;
      Filtered(f, locs[..n]) + (if Keep(f, locs[n]) then [locs[n]] else [])
  }

  /** The positions in `locs` of the locations `Filtered` keeps, in increasing order. */
  function KeptIndices(f: Filters, locs: seq<MapLocation>): (idx: seq<nat>)
    ensures |idx| == |Filtered(f, locs)|
    ensures forall k :: 0 <= k < |idx| ==> idx[k] < |locs| && Filtered(f, locs)[k] == locs[idx[k]]
    ensures forall k, l :: 0 <= k < l < |idx| ==> idx[k] < idx[l]
  {
    if |locs| == 0 then []
    else
      var n := |locs| - 1;
      var before := KeptIndices(f, locs[..n]);
      assert forall k :: 0 <= k < |before| ==> locs[..n][before[k]] == locs[before[k]];
      before + (if Keep(f, locs[n]) then [n] else [])
  }

  /** The filtered list is an order-preserving subsequence of the locations. */
  lemma FilteredSubsequence(f: Filters, locs: seq<MapLocation>)
    ensures exists idx: seq<nat> ::
      && |idx| == |Filtered(f, locs)|
      && (forall k :: 0 <= k < |idx| ==> idx[k] < |locs| && Filtered(f, locs)[k] == locs[idx[k]])
      && (forall k, l :: 0 <= k < l < |idx| ==> idx[k] < idx[l])
  {
    var idx := KeptIndices(f, locs);
  }

  /** With the roof box clear and no net type selected, every location is drawn. */
  lemma {:induction false} FilteredIdentity(f: Filters, locs: seq<MapLocation>)
    requires !f.hasRoof && |f.netTypes| == 0
    ensures Filtered(f, locs) == locs
  {
    if |locs| > 0 {
      var n := |locs| - 1;
      FilteredIdentity(f, locs[..n]);
      assert locs[..n] + [locs[n]] == locs;
    }
  }

  /** What a drawn location satisfies: a roof when asked for, a selected net type when any is. */
  lemma FilteredSound(f: Filters, locs: seq<MapLocation>, x: MapLocation)
    requires x in Filtered(f, locs)
    ensures f.hasRoof ==> x.hasRoof
    ensures |f.netTypes| > 0 ==> x.netType.Some? && x.netType.value in f.netTypes
    ensures x in locs
  {
  }

  /** A location meeting both conditions is drawn. */
  lemma FilteredComplete(f: Filters, locs: seq<MapLocation>, x: MapLocation)
    requires x in locs
    requires f.hasRoof ==> x.hasRoof
    requires |f.netTypes| > 0 ==> x.netType.Some? && x.netType.value in f.netTypes
    ensures x in Filtered(f, locs)
  {
  }

  // ---------------------------------------------------------------------------------------
  // availableNetTypes and hasRoofAvailable

  predicate Distinct<T(==)>(xs: seq<T>)
  {
    forall i, j :: 0 <= i < j < |xs| ==> xs[i] != xs[j]
  }

  /** `Array.from(new Set(xs))`: each value once, at its first occurrence. */
  function Dedup(xs: seq<Option<string>>): (r: seq<Option<string>>)
    ensures Distinct(r)
    ensures forall x :: x in r <==> x in xs
  {
    if |xs| == 0 then []
    else
      var n := |xs| - 1;
      Dedup(xs[..n]) + (if xs[n] in xs[..n] then [] else [xs[n]])
  }

  /** `.filter(Boolean)` on net types: drop `null` and the empty string. */
  function TruthyValues(xs: seq<Option<string>>): (r: seq<string>)
    ensures forall s :: s in r <==> Some(s) in xs && s != ""
    ensures Distinct(xs) ==> Distinct(r)
  {
    if |xs| == 0 then []
    else
      var n := |xs| - 1;
      var before := TruthyValues(xs[..n]);
      if Truthy(xs[n]) then
        assert Distinct(xs) ==> xs[n].value !in before;
        before + [xs[n].value]
      else before
  }

  /** `locations.map(loc => loc.net_type)`. */
  function NetTypes(locs: seq<MapLocation>): (r: seq<Option<string>>)
    ensures |r| == |locs| && forall i :: 0 <= i < |locs| ==> r[i] == locs[i].netType
  {
    seq(|locs|, i requires 0 <= i < |locs| => locs[i].netType)
  }

  /** The net types offered as filter choices. */
  function AvailableNetTypes(locs: seq<MapLocation>): seq<string>
  {
    TruthyValues(Dedup(NetTypes(locs)))
  }

  /** Each present, non-empty net type is offered exactly once, and nothing else is. */
  lemma AvailableNetTypesSpec(locs: seq<MapLocation>)
    ensures Distinct(AvailableNetTypes(locs))
    ensures "" !in AvailableNetTypes(locs)
    ensures forall s :: s in AvailableNetTypes(locs) <==>
      s != "" && exists i :: 0 <= i < |locs| && locs[i].netType == Some(s)
  {
    var types := NetTypes(locs);
    forall s ensures Some(s) in types <==> exists i :: 0 <= i < |locs| && locs[i].netType == Some(s) {
      if Some(s) in types {
        var i :| 0 <= i < |types| && types[i] == Some(s);
      }
    }
  }

  /** `locations.some(loc => loc.has_roof)`. */
  function HasRoofAvailable(locs: seq<MapLocation>): (r: bool)
    ensures r <==> exists i :: 0 <= i < |locs| && locs[i].hasRoof
  {
    if |locs| == 0 then false
    else
      var n := |locs| - 1;
      assert forall i :: 0 <= i < n ==> locs[..n][i] == locs[i];
      HasRoofAvailable(locs[..n]) || locs[n].hasRoof
  }

  /** Asking for a roof when no location has one draws nothing. */
  lemma {:induction false} RoofFilterWithoutRoofs(f: Filters, locs: seq<MapLocation>)
    requires f.hasRoof && !HasRoofAvailable(locs)
    ensures Filtered(f, locs) == []
  {
    if |locs| > 0 {
      var n := |locs| - 1;
      assert !locs[n].hasRoof;
      assert !HasRoofAvailable(locs[..n]);
      RoofFilterWithoutRoofs(f, locs[..n]);
    }
  }

  // ---------------------------------------------------------------------------------------
  // handleAddLocation

  /** The url a photo is shown with: its own, else one under `/static/photos/`, else none. */
  function WithUrl(p: MapPhoto): (q: MapPhoto)
    ensures q.id == p.id && q.filePath == p.filePath && q.url.Some?
    ensures Truthy(p.url) ==> q.url == p.url
    ensures !Truthy(p.url) && p.filePath != "" ==> q.url == Some("/static/photos/" + p.filePath)
    ensures !Truthy(p.url) && p.filePath == "" ==> q.url == Some("")
  {
    p.(url := Some(if Truthy(p.url) then p.url.value
                   else if p.filePath != "" then "/static/photos/" + p.filePath
                   else ""))
  }

  /** `(newLocation.photos || []).map(…)`. */
  function WithUrls(photos: Option<seq<MapPhoto>>): (r: seq<MapPhoto>)
    ensures photos.None? ==> r == []
    ensures photos.Some? ==> |r| == |photos.value|
    ensures photos.Some? ==> forall k :: 0 <= k < |r| ==> r[k] == WithUrl(photos.value[k])
  {
    if photos.None? then []
    else seq(|photos.value|, k requires 0 <= k < |photos.value| => WithUrl(photos.value[k]))
  }

  /** The location list after the add form reports a new location. */
  function AddLocation(prev: seq<MapLocation>, added: MapLocation): (r: seq<MapLocation>)
    ensures |r| == |prev| + 1 && r[..|prev|] == prev
    ensures r[|prev|] == added.(photos := Some(WithUrls(added.photos)))
  {
    prev + [added.(photos := Some(WithUrls(added.photos)))]
  }

  /** Filling in urls a second time changes nothing. */
  lemma WithUrlsIdempotent(photos: Option<seq<MapPhoto>>)
    ensures WithUrls(Some(WithUrls(photos))) == WithUrls(photos)
  {
    var once := WithUrls(photos);
    var twice := WithUrls(Some(once));
    assert forall k :: 0 <= k < |once| ==> twice[k] == once[k];
  }
}
