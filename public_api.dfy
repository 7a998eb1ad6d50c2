/** The public place endpoints: nearest active place within 300 m of a
    position, one place by id, the text read aloud for a place, and the
    list of active top-level places. The great-circle distance is a
    parameter. */
module PublicApi {
  import opened Wrappers
  import opened Text
  import opened Db

  const ThresholdMeters: real := 300.0

  predicate IsActive(r: Row) {
    Col(r, "is_active") == Bool(true)
  }

  /** A place the location search measures: both coordinates are numbers
      (a NULL one is skipped; anything else makes the distance raise, which
      the loop catches and skips as well). */
  predicate HasCoordinates(r: Row) {
    Col(r, "latitude").Real? && Col(r, "longitude").Real?
  }

  /** The distance from the user's position to a place with coordinates. */
  function Distance(dist: (real, real, real, real) -> real, lat: real, lng: real, p: Row): real
    requires HasCoordinates(p)
  {
    dist(lat, lng, Col(p, "latitude").r, Col(p, "longitude").r)
  }

  /** The place `get_place_by_location`'s loop ends on: the first one
      reaching the least distance (the comparison is a strict `<`), or None
      when no place has coordinates. */
  function Nearest(ps: seq<Row>, dist: (real, real, real, real) -> real, lat: real, lng: real): (k: Option<nat>)
    ensures k.None? <==> forall j :: 0 <= j < |ps| ==> !HasCoordinates(ps[j])
    ensures k.Some? ==> k.value < |ps| && HasCoordinates(ps[k.value])
    ensures k.Some? ==> forall j :: 0 <= j < |ps| && HasCoordinates(ps[j]) ==>
      Distance(dist, lat, lng, ps[k.value]) <= Distance(dist, lat, lng, ps[j])
    ensures k.Some? ==> forall j :: 0 <= j < k.value && HasCoordinates(ps[j]) ==>
      Distance(dist, lat, lng, ps[k.value]) < Distance(dist, lat, lng, ps[j])
    decreases |ps|
  {
    if ps == [] then None
    else
      var n := |ps| - 1;
      var c := Nearest(ps[..n], dist, lat, lng);
      assert forall j :: 0 <= j < n ==> ps[..n][j] == ps[j];
      if HasCoordinates(ps[n]) && (c.None? || Distance(dist, lat, lng, ps[n]) < Distance(dist, lat, lng, ps[c.value])) then
        Some(n)
      else c
  }

  /** The place as the endpoints return it: an empty description is filled
      from `short_desc`, and the coordinates are copied to the response's
      `location_lat`/`location_lng`. */
  function Present(p: Row): (r: Row)
    ensures r.id == p.id
    ensures Truthy(Col(p, "description")) ==> Col(r, "description") == Col(p, "description")
    ensures !Truthy(Col(p, "description")) ==> Col(r, "description") == Col(p, "short_desc")
    ensures Col(r, "location_lat") == Col(p, "latitude") && Col(r, "location_lng") == Col(p, "longitude")
    ensures forall k :: k != "description" && k != "location_lat" && k != "location_lng" ==> Col(r, k) == Col(p, k)
  {
    var cols := p.cols["location_lat" := Col(p, "latitude")]["location_lng" := Col(p, "longitude")];
    Row(p.id, if Truthy(Col(p, "description")) then cols else cols["description" := Col(p, "short_desc")])
  }

  /** `int(x)` in Python: truncation toward zero. */
  function Truncate(x: real): (n: int)
    ensures x >= 0.0 ==> 0 <= n && n as real <= x < n as real + 1.0
    ensures x < 0.0 ==> n <= 0 && n as real - 1.0 < x <= n as real
  {
    if x >= 0.0 then x.Floor else -((-x).Floor)
  }

  /** A name as an f-string renders it (`None` for NULL). */
  function Render(v: Value): string {
    if v.Str? then v.s else "None"
  }

  const NotNearMessage: string := "No place found near this location."

  datatype Response = Found(place: Row) | NotFound(detail: string)

  /** `get_place_by_location` over the active places. */
  method GetPlaceByLocation(rows: seq<Row>, dist: (real, real, real, real) -> real, lat: real, lng: real)
    returns (r: Response)
    ensures var ps := Where(rows, IsActive); var k := Nearest(ps, dist, lat, lng);
      match k
      case None => r == NotFound(NotNearMessage)
      case Some(i) =>
        var d := Distance(dist, lat, lng, ps[i]);
        if d <= ThresholdMeters then r == Found(Present(ps[i]))
        else r == NotFound(NotNearMessage + " Closest: '" + Render(Col(ps[i], "name")) + "' at " + IntToString(Truncate(d)) + "m.")
  {
    var places := Where(rows, IsActive);
    var closest, minDist := Closest(places, dist, lat, lng);
    if closest.Some? && minDist <= ThresholdMeters {
      return Found(Present(places[closest.value]));
    }
    var message := NotNearMessage;
    if closest.Some? {
      message := message + " Closest: '" + Render(Col(places[closest.value], "name")) + "' at " + IntToString(Truncate(minDist)) + "m.";
    }
    r := NotFound(message);
  }

  /** The search loop of `get_place_by_location`: the nearest place with
      coordinates under strict `<`, and its distance. */
  method Closest(places: seq<Row>, dist: (real, real, real, real) -> real, lat: real, lng: real)
    returns (closest: Option<nat>, minDist: real)
    ensures closest == Nearest(places, dist, lat, lng)
    ensures closest.Some? ==> closest.value < |places| && minDist == Distance(dist, lat, lng, places[closest.value])
  {
    closest, minDist := None, 0.0;
    var i := 0;
    while i < |places|
      invariant 0 <= i <= |places|
      invariant closest == Nearest(places[..i], dist, lat, lng)
      invariant closest.Some? ==> minDist == Distance(dist, lat, lng, places[closest.value])
    {
      var place := places[i];
      assert places[..i + 1][..i] == places[..i];
      assert forall j :: 0 <= j < i ==> places[..i][j] == places[j];
      if HasCoordinates(place) {
        var d := Distance(dist, lat, lng, place);
        if closest.None? || d < minDist {
          minDist := d;
          closest := Some(i);
        }
      }
      i := i + 1;
    }
    assert places[..|places|] == places;
  }

  /** The place the search settles on is an active row with coordinates,
      and no active place with coordinates is nearer. */
  lemma LocationFound(rows: seq<Row>, dist: (real, real, real, real) -> real, lat: real, lng: real)
    ensures var ps := Where(rows, IsActive); var k := Nearest(ps, dist, lat, lng);
      k.Some? ==>
        var p := ps[k.value];
        p in rows && IsActive(p) && HasCoordinates(p) &&
        forall q :: q in rows && IsActive(q) && HasCoordinates(q) ==>
          Distance(dist, lat, lng, p) <= Distance(dist, lat, lng, q)
  {
    var ps := Where(rows, IsActive);
    var k := Nearest(ps, dist, lat, lng);
    if k.Some? {
      forall q | q in rows && IsActive(q) && HasCoordinates(q)
        ensures Distance(dist, lat, lng, ps[k.value]) <= Distance(dist, lat, lng, q)
      {
        assert q in ps;
        var j :| 0 <= j < |ps| && ps[j] == q;
      }
    }
  }

  function ActiveWithId(id: int): Row -> bool {
    (r: Row) => r.id == id && IsActive(r)
  }

  /** `get_place`: 404 for a missing or inactive id. */
  function GetPlace(rows: seq<Row>, id: int): (r: Response)
    ensures r.NotFound? <==> forall j :: 0 <= j < |rows| ==> !(rows[j].id == id && IsActive(rows[j]))
    ensures r.NotFound? ==> r.detail == "Place not found"
    ensures r.Found? ==> r.place.id == id && IsActive(r.place)
    ensures r.Found? ==> exists j :: 0 <= j < |rows| && rows[j].id == id && IsActive(rows[j]) && r.place == Present(rows[j])
  {
    match FirstWhere(rows, ActiveWithId(id))
    case None => NotFound("Place not found")
    case Some(j) => assert ActiveWithId(id)(rows[j]); Found(Present(rows[j]))
  }

  /** The text `get_place_audio` reads: the description in "long" mode,
      the short description in any other mode, the name when that is empty.
      The row is the stored one: its description is not filled from
      `short_desc` first. */
  function NarrationText(p: Row, mode: string): (text: Value)
    ensures mode == "long" && Truthy(Col(p, "description")) ==> text == Col(p, "description")
    ensures mode != "long" && Truthy(Col(p, "short_desc")) ==> text == Col(p, "short_desc")
    ensures !Truthy(if mode == "long" then Col(p, "description") else Col(p, "short_desc")) ==> text == Col(p, "name")
  {
    var chosen := if mode == "long" then Col(p, "description") else Col(p, "short_desc");
    if !Truthy(chosen) then Col(p, "name") else chosen
  }

  /** A place with a name always gets something to read. */
  lemma NarrationNotEmpty(p: Row, mode: string)
    requires Truthy(Col(p, "name"))
    ensures Truthy(NarrationText(p, mode))
    ensures NarrationText(p, mode) in {Col(p, "description"), Col(p, "short_desc"), Col(p, "name")}
  {
  }

  datatype Narration = Text(value: Value) | Missing(detail: string)

  /** The lookup and text choice of `get_place_audio` (the speech synthesis
      itself is not modelled). */
  function PlaceAudioText(rows: seq<Row>, id: int, mode: string): (r: Narration)
    ensures r.Missing? <==> GetPlace(rows, id).NotFound?
    ensures r.Missing? ==> r.detail == "Place not found"
    ensures r.Text? ==>
      exists j :: 0 <= j < |rows| && rows[j].id == id && IsActive(rows[j]) &&
                  r.value == NarrationText(rows[j], mode)
  {
    match FirstWhere(rows, ActiveWithId(id))
    case None => Missing("Place not found")
    case Some(j) => assert ActiveWithId(id)(rows[j]); Text(NarrationText(rows[j], mode))
  }

  predicate IsListed(r: Row) {
    IsActive(r) && Col(r, "parent_id") == Null
  }

  /** `get_places`: the active places without a parent, in table order,
      each presented. */
  method GetPlaces(rows: seq<Row>) returns (r: seq<Row>)
    ensures |r| == |Where(rows, IsListed)|
    ensures forall i :: 0 <= i < |r| ==> r[i] == Present(Where(rows, IsListed)[i])
  {
    var places := Where(rows, IsListed);
    r := [];
    var i := 0;
    while i < |places|
      invariant 0 <= i <= |places|
      invariant |r| == i && forall j :: 0 <= j < i ==> r[j] == Present(places[j])
    {
      r := r + [Present(places[i])];
      i := i + 1;
    }
  }

  /** Every listed place is an active top-level row of the table, shown with
      a description whenever it has a short description. */
  lemma GetPlacesListed(rows: seq<Row>, i: nat)
    requires i < |Where(rows, IsListed)|
    ensures var p := Where(rows, IsListed)[i];
      p in rows && IsActive(Present(p)) && Col(Present(p), "parent_id") == Null &&
      (Truthy(Col(p, "short_desc")) ==> Truthy(Col(Present(p), "description")))
  {
    var p := Where(rows, IsListed)[i];
    assert p in Where(rows, IsListed);
  }
}
