/** The admin Location Mapper page: a walking survey records a boundary
    path from the browser's position stream, and Save either updates the
    roster entry whose name matches (case-insensitively) or creates a new
    historical place whose marker is the first recorded point. */
module Mapper {
  import opened Wrappers
  import opened Text
  import Projection

  type Coord = Projection.Coord

  /** A roster entry as the page receives it from `GET /admin/places`. */
  datatype Place = Place(
    id: int,
    name: string,
    boundaryPoints: Option<seq<Coord>>,
    shortDesc: Option<string>,
    description: Option<string>,
    parentId: Option<int>)

  /** `k` is the index `places.find(p => p.name.toLowerCase() === name.toLowerCase())`
      stops at: a match with no match before it. */
  ghost predicate FirstMatch(places: seq<Place>, k: int, name: string) {
    0 <= k < |places| && SameIgnoringCase(places[k].name, name) &&
    forall j :: 0 <= j < k ==> !SameIgnoringCase(places[j].name, name)
  }

  ghost predicate NoMatch(places: seq<Place>, name: string) {
    forall j :: 0 <= j < |places| ==> !SameIgnoringCase(places[j].name, name)
  }

  /** The linear case-insensitive search the page uses for both names. */
  function FindByName(places: seq<Place>, name: string): (r: Option<nat>)
    ensures r.Some? ==> FirstMatch(places, r.value, name)
    ensures r.None? <==> NoMatch(places, name)
  {
    if places == [] then None
    else if SameIgnoringCase(places[0].name, name) then Some(0)
    else match FindByName(places[1..], name)
      case None => None
      case Some(k) => Some(k + 1)
  }

  /** A name matches at most one first position. */
  lemma FirstMatchUnique(places: seq<Place>, k: int, m: int, name: string)
    requires FirstMatch(places, k, name) && FirstMatch(places, m, name)
    ensures k == m
  {
  }

  /** Any first match is the one the search returns. */
  lemma FirstMatchIsFound(places: seq<Place>, name: string)
    ensures forall k :: FirstMatch(places, k, name) ==> FindByName(places, name) == Some(k)
  {
    forall k | FirstMatch(places, k, name)
      ensures FindByName(places, name) == Some(k)
    {
      FirstMatchUnique(places, k, FindByName(places, name).value, name);
    }
  }

  /** `!p.parent_id`: JavaScript falsiness, so a parent id of 0 counts as none. */
  predicate NoParent(p: Place) {
    p.parentId.None? || p.parentId.value == 0
  }

  /** `places.filter(p => p.parent_id === id)`. */
  function ChildrenOf(places: seq<Place>, id: int): (r: seq<Place>)
    ensures |r| <= |places|
    ensures forall p :: p in r <==> p in places && p.parentId == Some(id)
  {
    if places == [] then []
    else (if places[0].parentId == Some(id) then [places[0]] else []) + ChildrenOf(places[1..], id)
  }

  /** The filter keeps roster order: the children of a concatenation are
      the children in its first part followed by those in its second. */
  lemma {:induction false} ChildrenOfAppend(a: seq<Place>, b: seq<Place>, id: int)
    ensures ChildrenOf(a + b, id) == ChildrenOf(a, id) + ChildrenOf(b, id)
  {
    if a == [] {
      assert a + b == b;
    } else {
      var ab := a + b;
      assert ab[0] == a[0] && ab[1..] == a[1..] + b;
      ChildrenOfAppend(a[1..], b, id);
      var h := if a[0].parentId == Some(id) then [a[0]] else [];
      assert h + (ChildrenOf(a[1..], id) + ChildrenOf(b, id)) == (h + ChildrenOf(a[1..], id)) + ChildrenOf(b, id);
    }
  }

  /** `filteredPlaces`: the roster list shown under the parent field. An
      empty parent name, or one that matches nothing, shows the whole roster
      in server order; a matching name shows the direct children of the
      first match. The parent name is compared untrimmed here. */
  function VisibleList(places: seq<Place>, parentName: string): (r: seq<Place>)
    ensures parentName == [] ==> r == places
    ensures NoMatch(places, parentName) ==> r == places
    ensures forall k :: parentName != [] && FirstMatch(places, k, parentName) ==>
      r == ChildrenOf(places, places[k].id)
  {
    FirstMatchIsFound(places, parentName);
    if parentName == [] then places
    else match FindByName(places, parentName)
      case None => places
      case Some(k) => ChildrenOf(places, places[k].id)
  }

  /** The parent suggestions (the datalist): places without a parent whose
      name differs, case-sensitively and untrimmed, from the typed name. */
  function ParentSuggestions(places: seq<Place>, placeName: string): (r: seq<Place>)
    ensures |r| <= |places|
    ensures forall p :: p in r <==> p in places && NoParent(p) && p.name != placeName
  {
    if places == [] then []
    else
      (if NoParent(places[0]) && places[0].name != placeName then [places[0]] else []) +
      ParentSuggestions(places[1..], placeName)
  }

  /** The suggestions keep roster order, as ChildrenOfAppend states for
      the child list. */
  lemma {:induction false} ParentSuggestionsAppend(a: seq<Place>, b: seq<Place>, placeName: string)
    ensures ParentSuggestions(a + b, placeName) == ParentSuggestions(a, placeName) + ParentSuggestions(b, placeName)
  {
    if a == [] {
      assert a + b == b;
    } else {
      var ab := a + b;
      assert ab[0] == a[0] && ab[1..] == a[1..] + b;
      ParentSuggestionsAppend(a[1..], b, placeName);
      var h := if NoParent(a[0]) && a[0].name != placeName then [a[0]] else [];
      assert h + (ParentSuggestions(a[1..], placeName) + ParentSuggestions(b, placeName)) ==
        (h + ParentSuggestions(a[1..], placeName)) + ParentSuggestions(b, placeName);
    }
  }

  /** Body of `PUT /admin/places/{id}`. */
  datatype UpdateBody = UpdateBody(
    boundaryPoints: seq<Coord>,
    shortDesc: string,
    description: string,
    parentId: Option<int>)

  /** Body of `POST /admin/places`. */
  datatype CreateBody = CreateBody(
    name: string,
    kind: string,
    latitude: real,
    longitude: real,
    boundaryPoints: seq<Coord>,
    shortDesc: string,
    description: string,
    parentId: Option<int>,
    longDesc: string,
    isActive: bool)

  datatype Request = Put(id: int, update: UpdateBody) | Post(create: CreateBody)

  const DefaultShortDesc: string := "Auto-created by Location Mapper"

  /** What Save does before the network: refuse for a blank name, crash on
      `recordedPoints[0]` when it must create from no points, or send. */
  datatype SaveStep = NeedName | NoFirstPoint | Send(request: Request)

  /** `parentPlace ? parentPlace.id : null` for the trimmed parent name. A
      name that matches nothing gives null and no error. */
  function ResolveParentId(places: seq<Place>, parentName: string): (r: Option<int>)
    ensures NoMatch(places, Trim(parentName)) <==> r.None?
    ensures forall k :: FirstMatch(places, k, Trim(parentName)) ==> r == Some(places[k].id)
  {
    FirstMatchIsFound(places, Trim(parentName));
    match FindByName(places, Trim(parentName))
    case None => None
    case Some(k) => Some(places[k].id)
  }

  /** The decision `saveBoundary` takes from the typed fields, the roster
      and the recorded points. */
  function PlanSave(places: seq<Place>, placeName: string, parentName: string,
                    description: string, points: seq<Coord>): (s: SaveStep)
    ensures s == NeedName <==> Trim(placeName) == []
    ensures forall k :: Trim(placeName) != [] && FirstMatch(places, k, Trim(placeName)) ==>
      s == Send(Put(places[k].id,
        UpdateBody(points, description, description, ResolveParentId(places, parentName))))
    ensures Trim(placeName) != [] && NoMatch(places, Trim(placeName)) && points == [] ==>
      s == NoFirstPoint
    ensures Trim(placeName) != [] && NoMatch(places, Trim(placeName)) && points != [] ==>
      s == Send(Post(CreateBody(Trim(placeName), "historical", points[0].lat, points[0].lng, points,
        if description == [] then DefaultShortDesc else description, description,
        ResolveParentId(places, parentName), "", true)))
  {
    var name := Trim(placeName);
    FirstMatchIsFound(places, name);
    if name == [] then NeedName
    else
      var parentId := ResolveParentId(places, parentName);
      match FindByName(places, name)
      case Some(k) =>
        Send(Put(places[k].id, UpdateBody(points, description, description, parentId)))
      case None =>
        if points == [] then NoFirstPoint
        else
          var shortDesc := if description == [] then DefaultShortDesc else description;
          Send(Post(CreateBody(name, "historical", points[0].lat, points[0].lng, points,
            shortDesc, description, parentId, "", true)))
  }

  /** Names that differ only in letter case resolve to the same request:
      saving "Harem" updates the entry stored as "harem". */
  lemma {:induction false} FindByNameIgnoresCase(places: seq<Place>, a: string, b: string)
    requires Lower(a) == Lower(b)
    ensures FindByName(places, a) == FindByName(places, b)
  {
    if places != [] {
      FindByNameIgnoresCase(places[1..], a, b);
    }
  }

  /** An existing match is always updated by id, never re-created: the
      request is a PUT exactly when the trimmed name matches a roster entry. */
  lemma SavePutsIffMatched(places: seq<Place>, placeName: string, parentName: string,
                           description: string, points: seq<Coord>)
    requires Trim(placeName) != []
    ensures var s := PlanSave(places, placeName, parentName, description, points);
      (s.Send? && s.request.Put?) <==> !NoMatch(places, Trim(placeName))
    ensures var s := PlanSave(places, placeName, parentName, description, points);
      s.Send? && s.request.Put? ==> exists k :: 0 <= k < |places| && s.request.id == places[k].id
  {
    var name := Trim(placeName);
    var r := FindByName(places, name);
    if r.Some? {
      assert FirstMatch(places, r.value, name);
    }
  }

  /** The created place's marker is the first recorded point, whatever the
      other points are. */
  lemma SaveCreatesAtFirstPoint(places: seq<Place>, placeName: string, parentName: string,
                                description: string, points: seq<Coord>)
    requires Trim(placeName) != [] && NoMatch(places, Trim(placeName)) && points != []
    ensures var s := PlanSave(places, placeName, parentName, description, points);
      s.Send? && s.request.Post? &&
      s.request.create.latitude == points[0].lat && s.request.create.longitude == points[0].lng &&
      s.request.create.boundaryPoints == points && s.request.create.name == Trim(placeName) &&
      |s.request.create.shortDesc| > 0
  {
  }

  /** What the server answered to a request: 2xx, another status (with the
      JSON text of its body), or an exception from `fetch` itself. */
  datatype Response = Ok | Rejected(body: string) | Threw(error: string)

  /** `String(err)` for the TypeError `recordedPoints[0].lat` raises on an
      empty list, in V8's wording. */
  const NoFirstPointError: string := "TypeError: Cannot read properties of undefined (reading 'lat')"

  /** The status line `saveBoundary` leaves. */
  function SaveStatus(places: seq<Place>, placeName: string, step: SaveStep, response: Response): string
  {
    match step
    case NeedName => "Please enter a name."
    case NoFirstPoint => "Error saving: " + NoFirstPointError
    case Send(request) =>
      match response
      case Threw(e) => "Error saving: " + e
      case Ok =>
        if request.Put? then
          match FindByName(places, Trim(placeName))
          case Some(k) => "Successfully updated boundary for '" + places[k].name + "'!"
          case None => "Successfully updated boundary for '" + placeName + "'!"
        else "Created NEW place '" + placeName + "' with boundary!"
      case Rejected(body) =>
        if request.Put? then "Failed to update boundary." else "Failed to create place: " + body
  }

  /** The status messages of each outcome: the updated place is named as
      stored in the roster, the created one as typed (untrimmed). */
  lemma SaveStatusMessages(places: seq<Place>, placeName: string, parentName: string,
                           description: string, points: seq<Coord>, response: Response)
    ensures var step := PlanSave(places, placeName, parentName, description, points);
      var status := SaveStatus(places, placeName, step, response);
      (Trim(placeName) == [] ==> status == "Please enter a name.") &&
      (step == NoFirstPoint ==> status == "Error saving: " + NoFirstPointError) &&
      (step.Send? && response.Threw? ==> status == "Error saving: " + response.error) &&
      (step.Send? && step.request.Put? && response.Ok? ==>
        exists k :: FirstMatch(places, k, Trim(placeName)) && places[k].id == step.request.id &&
          status == "Successfully updated boundary for '" + places[k].name + "'!") &&
      (step.Send? && step.request.Put? && response.Rejected? ==> status == "Failed to update boundary.") &&
      (step.Send? && step.request.Post? && response.Ok? ==>
        status == "Created NEW place '" + placeName + "' with boundary!") &&
      (step.Send? && step.request.Post? && response.Rejected? ==>
        status == "Failed to create place: " + response.body)
  {
    var step := PlanSave(places, placeName, parentName, description, points);
    if step.Send? && step.request.Put? {
      var k := FindByName(places, Trim(placeName)).value;
      assert FirstMatch(places, k, Trim(placeName));
    }
  }

  /** Resolution ignores letter case: two typed names equal after trimming
      and lower-casing target the same request kind and the same id. */
  lemma SaveResolvesIgnoringCase(places: seq<Place>, a: string, b: string, parentName: string,
                                 description: string, points: seq<Coord>)
    requires Trim(a) != [] && Trim(b) != [] && Lower(Trim(a)) == Lower(Trim(b))
    ensures var sa := PlanSave(places, a, parentName, description, points);
      var sb := PlanSave(places, b, parentName, description, points);
      (sa.Send? && sa.request.Put?) == (sb.Send? && sb.request.Put?) &&
      (sa.Send? && sa.request.Put? ==> sa == sb)
  {
    FindByNameIgnoresCase(places, Trim(a), Trim(b));
  }

  /** `p.short_desc || p.description || ""`: the first of the two texts that
      is present and non-empty, else the empty string. */
  function DescriptionOf(p: Place): (r: string)
    ensures p.shortDesc.Some? && p.shortDesc.value != [] ==> r == p.shortDesc.value
    ensures r != [] ==> Some(r) == p.shortDesc || Some(r) == p.description
    ensures r == [] <==>
      (p.shortDesc.None? || p.shortDesc.value == []) && (p.description.None? || p.description.value == [])
  {
    if p.shortDesc.Some? && p.shortDesc.value != [] then p.shortDesc.value
    else if p.description.Some? then p.description.value
    else []
  }

  /** `places.find(p => p.id === id)`. */
  function FindById(places: seq<Place>, id: int): (r: Option<nat>)
    ensures r.Some? ==> (r.value < |places| && places[r.value].id == id &&
      forall j :: 0 <= j < r.value ==> places[j].id != id)
    ensures r.None? <==> forall j :: 0 <= j < |places| ==> places[j].id != id
  {
    if places == [] then None
    else if places[0].id == id then Some(0)
    else match FindById(places[1..], id)
      case None => None
      case Some(k) => Some(k + 1)
  }

  /** The points an entry loads: any `boundary_points` array is truthy, an
      empty one included, so only an absent one loads the empty path. */
  function PointsOf(p: Place): seq<Coord> {
    if p.boundaryPoints.Some? then p.boundaryPoints.value else []
  }

  /** The form fields the name-sync effect and the roster click write. */
  datatype Form = Form(description: string, parentName: string, points: seq<Coord>, status: string)

  /** The effect that runs whenever `placeName` or `places` changes: a
      non-empty typed name (untrimmed) that matches an entry case-insensitively
      loads the first match's description, its parent's name when it has a
      parent the roster holds, and its points, and reports the load. An entry
      without a parent leaves the parent field as it is. */
  function SyncForm(places: seq<Place>, placeName: string, f: Form): (r: Form)
    ensures placeName == [] || NoMatch(places, placeName) ==> r == f
    ensures forall k :: placeName != [] && FirstMatch(places, k, placeName) ==>
      r.description == DescriptionOf(places[k]) && r.points == PointsOf(places[k]) &&
      r.status == "Loaded details for " + places[k].name +
        (if places[k].boundaryPoints.None? then " (No path)" else "")
    ensures forall k :: placeName != [] && FirstMatch(places, k, placeName) && NoParent(places[k]) ==>
      r.parentName == f.parentName
    ensures forall k :: placeName != [] && FirstMatch(places, k, placeName) && !NoParent(places[k]) ==>
      r.parentName == match FindById(places, places[k].parentId.value)
        case None => f.parentName
        case Some(j) => places[j].name
  {
    FirstMatchIsFound(places, placeName);
    if placeName == [] then f
    else match FindByName(places, placeName)
      case None => f
      case Some(k) =>
        var p := places[k];
        var parent :=
          if NoParent(p) then f.parentName
          else match FindById(places, p.parentId.value)
            case None => f.parentName
            case Some(j) => places[j].name;
        var status := "Loaded details for " + p.name + (if p.boundaryPoints.None? then " (No path)" else "");
        Form(DescriptionOf(p), parent, PointsOf(p), status)
  }

  /** The effect reaches a fixed point at once: running it again on what it
      wrote changes nothing. */
  lemma SyncIdempotent(places: seq<Place>, placeName: string, f: Form)
    ensures SyncForm(places, placeName, SyncForm(places, placeName, f)) == SyncForm(places, placeName, f)
  {
  }

  /** The roster click handler: the entry's description, its parent's name
      (empty when it has none or the roster lacks it), its points, and a
      status naming it. */
  function SelectForm(places: seq<Place>, p: Place): (r: Form)
    ensures r.description == DescriptionOf(p) && r.points == PointsOf(p)
    ensures NoParent(p) ==> r.parentName == []
    ensures !NoParent(p) ==> r.parentName == match FindById(places, p.parentId.value)
      case None => []
      case Some(j) => places[j].name
    ensures r.status == (if p.boundaryPoints.Some? then "Loaded boundary for " else "Selected ") + p.name
  {
    var parent :=
      if NoParent(p) then []
      else match FindById(places, p.parentId.value)
        case None => []
        case Some(j) => places[j].name;
    Form(DescriptionOf(p), parent, PointsOf(p), (if p.boundaryPoints.Some? then "Loaded boundary for " else "Selected ") + p.name)
  }

  /** Clicking an entry whose name the effect resolves back to it: an empty
      name leaves the click's fields alone; otherwise the effect
      that follows the new name keeps every field the click wrote except the
      status, which becomes the effect's "Loaded details" line, so the
      click's own message never stays on screen. */
  lemma ClickThenSync(places: seq<Place>, k: nat)
    requires k < |places| && FirstMatch(places, k, places[k].name)
    ensures var c := SelectForm(places, places[k]);
      var s := SyncForm(places, places[k].name, c);
      (places[k].name == [] ==> s == c) &&
      (places[k].name != [] ==>
        s.description == c.description && s.parentName == c.parentName && s.points == c.points &&
        s.status == "Loaded details for " + places[k].name +
          (if places[k].boundaryPoints.None? then " (No path)" else ""))
  {
  }

  /** The page state of `LocationMapperPage`. `watches` stands for the
      browser's registered `watchPosition` callbacks, `watchId` for
      `watchIdRef.current`. */
  class MapperPage {
    var places: seq<Place>
    var placeName: string
    var description: string
    var parentName: string
    var isRecording: bool
    var recordedPoints: seq<Coord>
    var status: string
    var watchId: Option<int>
    var watches: set<int>

    /** The held watch id, if any, is one the browser has registered. */
    ghost predicate Valid()
      reads this
    {
      watchId.Some? ==> watchId.value in watches
    }

    constructor ()
      ensures Valid()
      ensures places == [] && placeName == [] && description == [] && parentName == []
      ensures !isRecording && recordedPoints == [] && status == [] && watchId == None && watches == {}
    {
      places, placeName, description, parentName := [], [], [], [];
      isRecording, recordedPoints, status := false, [], [];
      watchId, watches := None, {};
    }

    /** The fields the name-sync effect reads and writes. */
    function FormState(): Form
      reads this
    {
      Form(description, parentName, recordedPoints, status)
    }

    /** One run of the name-sync effect (`useEffect` on `[placeName, places]`). */
    method SyncFromName()
      modifies this
      ensures FormState() == SyncForm(old(places), old(placeName), old(FormState()))
      ensures places == old(places) && placeName == old(placeName) && isRecording == old(isRecording)
      ensures watchId == old(watchId) && watches == old(watches)
    {
      var f := SyncForm(places, placeName, FormState());
      description, parentName, recordedPoints, status := f.description, f.parentName, f.points, f.status;
    }

    /** `fetchPlaces`: a successful fetch replaces the roster, and since
        `setPlaces` always installs a new array the name-sync effect then
        runs on it; a failed fetch changes nothing. */
    method FetchPlaces(result: Option<seq<Place>>)
      modifies this
      ensures result.Some? ==>
        places == result.value && FormState() == SyncForm(result.value, old(placeName), old(FormState()))
      ensures result.None? ==> places == old(places) && FormState() == old(FormState())
      ensures placeName == old(placeName) && isRecording == old(isRecording)
      ensures watchId == old(watchId) && watches == old(watches)
    {
      if result.Some? {
        places := result.value;
        SyncFromName();
      }
    }

    /** Typing in the place-name field: the new name, then the name-sync
        effect when the name actually changed. */
    method TypeName(name: string)
      modifies this
      ensures placeName == name && places == old(places)
      ensures FormState() == if name == old(placeName) then old(FormState())
        else SyncForm(old(places), name, old(FormState()))
      ensures isRecording == old(isRecording) && watchId == old(watchId) && watches == old(watches)
    {
      var changed := name != placeName;
      placeName := name;
      if changed {
        SyncFromName();
      }
    }

    /** Clicking a roster entry: the click handler fills the form from the
        entry, then the name-sync effect runs when the name changed. */
    method SelectPlace(p: Place)
      modifies this
      ensures placeName == p.name && places == old(places)
      ensures FormState() == if p.name == old(placeName) then SelectForm(old(places), p)
        else SyncForm(old(places), p.name, SelectForm(old(places), p))
      ensures isRecording == old(isRecording) && watchId == old(watchId) && watches == old(watches)
    {
      var changed := p.name != placeName;
      var c := SelectForm(places, p);
      placeName, description, parentName, recordedPoints, status := p.name, c.description, c.parentName, c.points, c.status;
      if changed {
        SyncFromName();
      }
    }

    /** Typing in the parent field (also the roster filter). The name-sync
        effect does not depend on it, so nothing else changes. */
    method TypeParentName(name: string)
      modifies this
      ensures parentName == name
      ensures places == old(places) && placeName == old(placeName) && description == old(description)
      ensures recordedPoints == old(recordedPoints) && status == old(status) && isRecording == old(isRecording)
      ensures watchId == old(watchId) && watches == old(watches)
    {
      parentName := name;
    }

    /** The "Show All" link under the parent field: clears the filter, and
        with it the roster list shows the whole roster again. */
    method ShowAll()
      modifies this
      ensures parentName == [] && Visible() == places
      ensures places == old(places) && placeName == old(placeName) && description == old(description)
      ensures recordedPoints == old(recordedPoints) && status == old(status) && isRecording == old(isRecording)
      ensures watchId == old(watchId) && watches == old(watches)
    {
      parentName := [];
    }

    /** Typing in the description field. */
    method TypeDescription(text: string)
      modifies this
      ensures description == text
      ensures places == old(places) && placeName == old(placeName) && parentName == old(parentName)
      ensures recordedPoints == old(recordedPoints) && status == old(status) && isRecording == old(isRecording)
      ensures watchId == old(watchId) && watches == old(watches)
    {
      description := text;
    }

    /** `startRecording`. Without geolocation only the status changes;
        otherwise recording starts on a fresh point list and `newWatch` is the
        id the browser returns for the new watch. */
    method StartRecording(geolocation: bool, newWatch: int)
      requires Valid() && newWatch !in watches
      modifies this
      ensures Valid()
      ensures !geolocation ==>
        status == "Geolocation is not supported by your browser" &&
        isRecording == old(isRecording) && recordedPoints == old(recordedPoints) &&
        watchId == old(watchId) && watches == old(watches)
      ensures geolocation ==>
        isRecording && recordedPoints == [] && status == "Recording path... Walk around the area." &&
        watchId == Some(newWatch) && watches == old(watches) + {newWatch}
      ensures places == old(places) && placeName == old(placeName) && description == old(description)
      ensures parentName == old(parentName)
    {
      if !geolocation {
        status := "Geolocation is not supported by your browser";
        return;
      }
      isRecording := true;
      status := "Recording path... Walk around the area.";
      recordedPoints := [];
      watches := watches + {newWatch};
      watchId := Some(newWatch);
    }

    /** The position callback of a registered watch: one point at the end. */
    method OnPosition(watch: int, lat: real, lng: real)
      requires Valid() && watch in watches
      modifies this
      ensures Valid()
      ensures recordedPoints == old(recordedPoints) + [Projection.Coord(lat, lng)]
      ensures isRecording == old(isRecording) && status == old(status)
      ensures watchId == old(watchId) && watches == old(watches) && places == old(places)
      ensures placeName == old(placeName) && description == old(description) && parentName == old(parentName)
    {
      recordedPoints := recordedPoints + [Projection.Coord(lat, lng)];
    }

    /** The error callback: recording is reported off, but the watch is
        neither cleared nor forgotten. */
    method OnStreamError(message: string)
      requires Valid()
      modifies this
      ensures Valid()
      ensures !isRecording && status == "Error getting location: " + message
      ensures recordedPoints == old(recordedPoints) && watchId == old(watchId) && watches == old(watches)
      ensures places == old(places) && placeName == old(placeName) && description == old(description)
      ensures parentName == old(parentName)
    {
      status := "Error getting location: " + message;
      isRecording := false;
    }

    /** `stopRecording`: clears the held watch, if any, then reports the
        number of points captured. */
    method StopRecording()
      requires Valid()
      modifies this
      ensures Valid()
      ensures watchId == None && !isRecording
      ensures old(watchId).Some? ==> watches == old(watches) - {old(watchId).value}
      ensures old(watchId).None? ==> watches == old(watches)
      ensures status == "Recording stopped. Captured " + IntToString(|recordedPoints|) + " points."
      ensures recordedPoints == old(recordedPoints) && places == old(places)
      ensures placeName == old(placeName) && description == old(description) && parentName == old(parentName)
    {
      if watchId.Some? {
        watches := watches - {watchId.value};
        watchId := None;
      }
      isRecording := false;
      status := "Recording stopped. Captured " + IntToString(|recordedPoints|) + " points.";
    }

    /** `toggleRecording`: stop while recording, start otherwise. */
    method ToggleRecording(geolocation: bool, newWatch: int)
      requires Valid() && newWatch !in watches
      modifies this
      ensures Valid()
      ensures old(isRecording) ==> !isRecording && watchId == None
      ensures !old(isRecording) && geolocation ==>
        isRecording && recordedPoints == [] && watchId == Some(newWatch) && watches == old(watches) + {newWatch}
      ensures !old(isRecording) && !geolocation ==> watchId == old(watchId) && watches == old(watches)
      ensures places == old(places) && placeName == old(placeName) && description == old(description)
      ensures parentName == old(parentName)
    {
      if isRecording {
        StopRecording();
      } else {
        StartRecording(geolocation, newWatch);
      }
    }

    /** The Clear Points button, which is disabled while recording. */
    method ClearPoints()
      modifies this
      ensures recordedPoints == if old(isRecording) then old(recordedPoints) else []
      ensures isRecording == old(isRecording) && status == old(status) && places == old(places)
      ensures watchId == old(watchId) && watches == old(watches)
      ensures placeName == old(placeName) && description == old(description) && parentName == old(parentName)
    {
      if !isRecording {
        recordedPoints := [];
      }
    }

    /** `saveBoundary`, with the server's answer as a parameter. Returns the
        request sent, if one was, and changes only the status. After a 2xx
        answer the page calls `fetchPlaces` (FetchPlaces), whose name-sync
        run replaces this status with a "Loaded details" line whenever the
        new roster holds the typed name. */
    method Save(response: Response) returns (sent: Option<Request>)
      modifies this
      ensures var step := PlanSave(old(places), old(placeName), old(parentName), old(description), old(recordedPoints));
        sent == (if step.Send? then Some(step.request) else None) &&
        status == SaveStatus(old(places), old(placeName), step, response)
      ensures places == old(places) && placeName == old(placeName) && description == old(description)
      ensures parentName == old(parentName) && recordedPoints == old(recordedPoints)
      ensures isRecording == old(isRecording) && watchId == old(watchId) && watches == old(watches)
    {
      var step := PlanSave(places, placeName, parentName, description, recordedPoints);
      sent := if step.Send? then Some(step.request) else None;
      status := SaveStatus(places, placeName, step, response);
    }

    /** `deletePlace(id, name)` after the confirmation dialog answered
        `confirmed`. Returns the id a DELETE was sent for, if any. On success
        the form is cleared only when the typed name is exactly
        (case-sensitively) the deleted name; the cleared name makes the
        name-sync effect return at once, and the page then calls
        `fetchPlaces` (FetchPlaces). */
    method DeletePlace(id: int, name: string, confirmed: bool, response: Response)
      returns (sent: Option<int>)
      modifies this
      ensures sent == if confirmed then Some(id) else None
      ensures !confirmed ==> status == old(status)
      ensures confirmed && response.Ok? ==> status == "Deleted '" + name + "'."
      ensures confirmed && response.Rejected? ==> status == "Failed to delete place."
      ensures confirmed && response.Threw? ==> status == "Error deleting: " + response.error
      ensures confirmed && response.Ok? && old(placeName) == name ==>
        placeName == [] && description == [] && recordedPoints == [] && parentName == []
      ensures !(confirmed && response.Ok? && old(placeName) == name) ==>
        placeName == old(placeName) && description == old(description) &&
        recordedPoints == old(recordedPoints) && parentName == old(parentName)
      ensures places == old(places) && isRecording == old(isRecording)
      ensures watchId == old(watchId) && watches == old(watches)
    {
      if !confirmed {
        return None;
      }
      sent := Some(id);
      match response
      case Ok =>
        status := "Deleted '" + name + "'.";
        if placeName == name {
          placeName, description, recordedPoints, parentName := [], [], [], [];
        }
      case Rejected(_) =>
        status := "Failed to delete place.";
      case Threw(e) =>
        status := "Error deleting: " + e;
    }

    /** The list shown in the page, derived from the current fields. */
    function Visible(): (r: seq<Place>)
      reads this
      ensures |r| <= |places|
    {
      VisibleList(places, parentName)
    }

    /** The preview path of the current points. */
    function Preview(): (r: seq<Projection.Cmd>)
      reads this
      ensures |recordedPoints| >= 2 ==> |r| == |recordedPoints| + 1
      ensures |recordedPoints| < 2 ==> r == []
    {
      Projection.SvgPathShape(recordedPoints);
      Projection.SvgPath(recordedPoints)
    }
  }

  /** A stream error leaves its watch registered: after start, error and a
      second start the browser holds two watches, and stopping releases only
      the second, so the first keeps appending points. */
  method LeakedWatchAfterStreamError() returns (leaked: set<int>, points: nat)
    ensures leaked == {1} && points == 1
  {
    var page := new MapperPage();
    page.StartRecording(true, 1);
    page.OnStreamError("Timeout expired");
    assert !page.isRecording && page.watches == {1};
    page.ToggleRecording(true, 2);
    assert page.watches == {1, 2};
    page.StopRecording();
    assert page.watches == {1} && page.watchId == None && !page.isRecording;
    page.OnPosition(1, 41.378, 60.359);
    leaked, points := page.watches, |page.recordedPoints|;
  }

  /** A successful update does not keep its own message: the refresh that
      follows reruns the name sync (FetchPlaces), which reports the reloaded
      entry instead, whatever the form held. */
  lemma SaveMessageReplacedByRefresh(f: Form)
    ensures var harem := Place(7, "Harem", None, None, None, None);
      var step := PlanSave([harem], "Harem", "", "", []);
      step == Send(Put(7, UpdateBody([], "", "", None))) &&
      SaveStatus([harem], "Harem", step, Ok) == "Successfully updated boundary for 'Harem'!" &&
      SyncForm([harem.(boundaryPoints := Some([]))], "Harem", f).status == "Loaded details for Harem"
  {
    HaremSaved();
    HaremReloaded(f);
  }

  /** The update half of SaveMessageReplacedByRefresh. */
  lemma HaremSaved()
    ensures var harem := Place(7, "Harem", None, None, None, None);
      var step := PlanSave([harem], "Harem", "", "", []);
      step == Send(Put(7, UpdateBody([], "", "", None))) &&
      SaveStatus([harem], "Harem", step, Ok) == "Successfully updated boundary for 'Harem'!"
  {
    HaremPlanned();
    HaremStatus();
  }

  /** Save plans a PUT to the entry's id for the typed name "Harem". */
  lemma HaremPlanned()
    ensures PlanSave([Place(7, "Harem", None, None, None, None)], "Harem", "", "", []) ==
      Send(Put(7, UpdateBody([], "", "", None)))
  {
    HaremFound();
  }

  /** The message a 2xx answer to that PUT leaves. */
  lemma HaremStatus()
    ensures SaveStatus([Place(7, "Harem", None, None, None, None)], "Harem",
      Send(Put(7, UpdateBody([], "", "", None))), Ok) == "Successfully updated boundary for 'Harem'!"
  {
    var places := [Place(7, "Harem", None, None, None, None)];
    HaremFound();
    assert FindByName(places, Trim("Harem")) == Some(0);
    assert places[0].name == "Harem";
    var msg := "Successfully updated boundary for '" + places[0].name + "'!";
    HaremMessage();
    assert SaveStatus(places, "Harem", Send(Put(7, UpdateBody([], "", "", None))), Ok) == msg;
  }

  /** The message text for the stored name "Harem". */
  lemma HaremMessage()
    ensures "Successfully updated boundary for '" + "Harem" + "'!" == "Successfully updated boundary for 'Harem'!"
  {
  }

  /** The lookups Save makes for the typed name "Harem" and an empty parent. */
  lemma HaremFound()
    ensures var harem := Place(7, "Harem", None, None, None, None);
      Trim("Harem") == "Harem" && FindByName([harem], "Harem") == Some(0) &&
      ResolveParentId([harem], "") == None
  {
    var harem := Place(7, "Harem", None, None, None, None);
    HaremTrimmed();
    assert |Lower("")| != |Lower("Harem")|;
    assert FindByName([harem], "") == None;
  }

  /** The refresh half of SaveMessageReplacedByRefresh. */
  lemma HaremReloaded(f: Form)
    ensures SyncForm([Place(7, "Harem", Some([]), None, None, None)], "Harem", f).status == "Loaded details for Harem"
  {
    var saved := Place(7, "Harem", Some([]), None, None, None);
    assert FindByName([saved], "Harem") == Some(0);
    assert SyncForm([saved], "Harem", f).status == "Loaded details for " + "Harem" + "";
  }

  /** The concrete names used above are already trimmed. */
  lemma HaremTrimmed()
    ensures Trim("Harem") == "Harem" && Trim("") == ""
  {
    assert LeadingSpaces("Harem") == 0;
    assert TrailingSpaces("Harem") == 0;
    assert "Harem"[0..] == "Harem" && "Harem"[..5] == "Harem";
  }
}
