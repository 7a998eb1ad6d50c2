/** The admin endpoints over the places, hotels, restaurants, shops and
    global-config tables: paged listing of top-level places, creation with
    schema defaults, partial update, cascading delete and config upsert. */
module Admin {
  import opened Wrappers
  import opened Db
  import Projection

  /** The part of a row `read_places` filters on. */
  predicate IsTopLevel(r: Row) {
    Col(r, "parent_id") == Null
  }

  /** The first row `OFFSET skip` keeps: SQLite counts a negative offset as 0. */
  function Offset(skip: int): nat {
    if skip < 0 then 0 else skip
  }

  /** `query.offset(skip).limit(limit)` on SQLite: the window of `q` that
      starts at `Offset(skip)` and holds at most `limit` rows, or every
      remaining row when `limit` is negative. */

  function Window(q: seq<Row>, skip: int, limit: int): (r: seq<Row>)
    ensures forall i :: 0 <= i < |r| ==> Offset(skip) + i < |q| && r[i] == q[Offset(skip) + i]
    ensures limit >= 0 ==> |r| <= limit
    ensures limit >= 0 && Offset(skip) + limit <= |q| ==> |r| == limit
    ensures (limit < 0 || Offset(skip) + limit > |q|) && Offset(skip) <= |q| ==> |r| == |q| - Offset(skip)
    ensures Offset(skip) >= |q| ==> r == []
  {
    var start := Offset(skip);
    var rest := if start <= |q| then q[start..] else [];
    if 0 <= limit <= |rest| then rest[..limit] else rest
  }

  /** Non-positive offsets and a negative limit still return every row, in
      order, as SQLite reads them. */
  lemma WindowNegativeBounds(q: seq<Row>, skip: int, limit: int)
    requires skip <= 0 && limit < 0
    ensures Window(q, skip, limit) == q
  {
    assert q[0..] == q;
  }

  const DefaultSkip: int := 0
  const DefaultLimit: int := 100

  /** `read_places`: without `include_children` only rows whose parent is
      NULL, then the page. */
  function ReadPlaces(rows: seq<Row>, skip: int, limit: int, includeChildren: bool): (r: seq<Row>)
    ensures limit >= 0 ==> |r| <= limit
    ensures forall x :: x in r ==> x in rows
    ensures !includeChildren ==> forall x :: x in r ==> IsTopLevel(x)
    ensures includeChildren ==> r == Window(rows, skip, limit)
    ensures !includeChildren ==> r == Window(Where(rows, IsTopLevel), skip, limit)
  {
    var q := if includeChildren then rows else Where(rows, IsTopLevel);
    Window(q, skip, limit)
  }

  /** With the query defaults, the first hundred top-level places. */
  lemma ReadPlacesDefaults(rows: seq<Row>)
    ensures ReadPlaces(rows, DefaultSkip, DefaultLimit, false) == Window(Where(rows, IsTopLevel), 0, 100)
    ensures |Where(rows, IsTopLevel)| <= 100 ==> ReadPlaces(rows, DefaultSkip, DefaultLimit, false) == Where(rows, IsTopLevel)
  {
  }

  /** Every top-level place is reachable through some page. */
  lemma ReadPlacesCovers(rows: seq<Row>, i: nat)
    requires i < |Where(rows, IsTopLevel)|
    ensures ReadPlaces(rows, i, 1, false) == [Where(rows, IsTopLevel)[i]]
  {
    var q := Where(rows, IsTopLevel);
    var r := ReadPlaces(rows, i, 1, false);
    assert |r| == 1 && r[0] == q[i];
  }

  /** A validated `PlaceCreate` body; `isActive` is None when the client
      left it out, the optional columns are None when left out or null. */
  datatype PlaceCreate = PlaceCreate(
    name: string, shortDesc: Option<string>, longDesc: Option<string>,
    latitude: real, longitude: real, isActive: Option<bool>, kind: string,
    photoUrl: Option<string>, boundaryPoints: Option<seq<Projection.Coord>>,
    parentId: Option<int>)

  /** `Place(**place_in.dict())`: every schema field, with its default when
      it was left out; `description` is not a schema field. */
  function CreateColumns(p: PlaceCreate): map<string, Value> {
    map[
      "name" := Str(p.name),
      "short_desc" := StrOrNull(p.shortDesc),
      "long_desc" := StrOrNull(p.longDesc),
      "latitude" := Real(p.latitude),
      "longitude" := Real(p.longitude),
      "is_active" := Bool(p.isActive.GetOr(true)),
      "type" := Str(p.kind),
      "photo_url" := StrOrNull(p.photoUrl),
      "boundary_points" := if p.boundaryPoints.Some? then Points(p.boundaryPoints.value) else Null,
      "parent_id" := if p.parentId.Some? then Int(p.parentId.value) else Null]
  }

  /** The defaults of a created place: active, no boundary, no parent, and
      no description whatever the client sent. */
  lemma CreateDefaults(p: PlaceCreate, id: int)
    ensures var r := Row(id, CreateColumns(p));
      (p.isActive.None? ==> Col(r, "is_active") == Bool(true)) &&
      (p.boundaryPoints.None? ==> Col(r, "boundary_points") == Null) &&
      (p.parentId.None? ==> Col(r, "parent_id") == Null && IsTopLevel(r)) &&
      Col(r, "description") == Null
  {
  }

  method CreatePlace(places: Table, p: PlaceCreate) returns (row: Row)
    requires places.Valid()
    modifies places
    ensures places.Valid()
    ensures row == Row(old(places.nextId), CreateColumns(p))
    ensures places.rows == old(places.rows) + [row]
  {
    var id := places.Insert(CreateColumns(p));
    row := Row(id, CreateColumns(p));
  }

  /** An update schema: the fields it declares, those it requires, and the
      404 detail of its handler. */
  datatype Schema = Schema(fields: set<string>, required: seq<string>, notFound: string)

  const PlaceUpdate := Schema(
    {"name", "short_desc", "long_desc", "latitude", "longitude", "is_active",
     "type", "photo_url", "boundary_points", "parent_id"}, [], "Place not found")
  const HotelUpdate := Schema(
    {"name", "contact_info", "commission_rate", "photo_url", "is_active"}, ["name"], "Hotel not found")
  const RestaurantUpdate := Schema(
    {"name", "category", "price_level", "is_recommended", "photo_url", "is_active"}, ["name"], "Restaurant not found")
  const ShopUpdate := Schema(
    {"name", "is_handmade", "is_verified", "commission_rate", "admin_notes", "photo_url", "is_active"}, ["name"], "Shop not found")

  datatype Outcome = Ok(row: Row) | NotFound(detail: string) | Unprocessable(field: string)

  /** Some required field the body does not carry, if any
      (pydantic's 422, raised before the handler runs). */
  function MissingField(body: seq<Item>, required: seq<string>): (m: Option<string>)
    ensures m.Some? ==> m.value in required && Sent(body, m.value).None?
    ensures m.None? ==> forall i :: 0 <= i < |required| ==> Sent(body, required[i]).Some?
  {
    if required == [] then None
    else if Sent(body, required[0]).None? then Some(required[0])
    else MissingField(body, required[1..])
  }

  /** `update_place`, `update_hotel`, `update_restaurant`, `update_shop`:
      reject a body without a required field, 404 for an unknown id,
      otherwise `setattr` every declared field the body sent. */
  method UpdateRecord(t: Table, id: int, body: seq<Item>, schema: Schema) returns (r: Outcome)
    requires t.Valid()
    modifies t
    ensures t.Valid() && t.nextId == old(t.nextId)
    ensures MissingField(body, schema.required).Some? ==>
      r == Unprocessable(MissingField(body, schema.required).value) && t.rows == old(t.rows)
    ensures MissingField(body, schema.required).None? && FirstWhere(old(t.rows), HasId(id)).None? ==>
      r == NotFound(schema.notFound) && t.rows == old(t.rows)
    ensures MissingField(body, schema.required).None? && FirstWhere(old(t.rows), HasId(id)).Some? ==>
      var k := FirstWhere(old(t.rows), HasId(id)).value;
      r == Ok(Row(id, Assign(old(t.rows)[k].cols, Known(body, schema.fields)))) &&
      t.rows == old(t.rows)[k := r.row]
  {
    var missing := MissingField(body, schema.required);
    if missing.Some? {
      return Unprocessable(missing.value);
    }
    var updated := t.Update(id, Known(body, schema.fields));
    if updated.None? {
      r := NotFound(schema.notFound);
    } else {
      r := Ok(updated.value);
    }
  }

  /** The columns after an update: a declared field the body sent takes the
      value sent (null included); every other column is left as it was. */
  lemma {:induction false} UpdatedColumn(cols: map<string, Value>, body: seq<Item>, schema: Schema, key: string)
    ensures var after := Assign(cols, Known(body, schema.fields));
      (key in schema.fields && Sent(body, key).Some? ==> key in after && after[key] == Sent(body, key).value) &&
      (!(key in schema.fields && Sent(body, key).Some?) ==>
        (key in after <==> key in cols) && (key in cols ==> after[key] == cols[key]))
  {
    AssignCol(cols, Known(body, schema.fields), key);
  }

  /** An explicitly sent null `parent_id` makes the place top-level. */
  lemma UpdateClearsParent(cols: map<string, Value>, body: seq<Item>)
    requires Sent(body, "parent_id") == Some(Null)
    ensures IsTopLevel(Row(0, Assign(cols, Known(body, PlaceUpdate.fields))))
  {
    UpdatedColumn(cols, body, PlaceUpdate, "parent_id");
  }

  /** `update_place` never writes `description`: it is not a field of the
      update schema, so a sent value is dropped. */
  lemma UpdateKeepsDescription(cols: map<string, Value>, body: seq<Item>)
    ensures Col(Row(0, Assign(cols, Known(body, PlaceUpdate.fields))), "description") == Col(Row(0, cols), "description")
  {
    assert "description" !in PlaceUpdate.fields;
    UpdatedColumn(cols, body, PlaceUpdate, "description");
  }

  predicate ChildOf(id: int, r: Row) {
    Col(r, "parent_id") == Int(id)
  }

  /** The places table after `delete_place(id)`: first the direct children,
      then the place itself. */
  function AfterDeletePlace(rows: seq<Row>, id: int): seq<Row> {
    Without(Without(rows, (r: Row) => ChildOf(id, r)), HasId(id))
  }

  /** A row survives exactly when it is neither the place nor one of its
      direct children. */
  lemma AfterDeletePlaceSurvivors(rows: seq<Row>, id: int, x: Row)
    ensures x in AfterDeletePlace(rows, id) <==> x in rows && x.id != id && !ChildOf(id, x)
  {
  }

  /** Grandchildren are not removed: only one level cascades. */
  lemma DeleteKeepsGrandchildren(rows: seq<Row>, id: int, child: Row, grandchild: Row)
    requires child in rows && ChildOf(id, child) && child.id != id
    requires grandchild in rows && ChildOf(child.id, grandchild) && grandchild.id != id
    ensures child !in AfterDeletePlace(rows, id)
    ensures grandchild in AfterDeletePlace(rows, id)
  {
    AfterDeletePlaceSurvivors(rows, id, child);
    AfterDeletePlaceSurvivors(rows, id, grandchild);
  }

  /** `delete_place`: reports success whether or not the id exists. */
  method DeletePlace(places: Table, id: int) returns (status: string)
    requires places.Valid()
    modifies places
    ensures places.Valid() && places.nextId == old(places.nextId)
    ensures places.rows == AfterDeletePlace(old(places.rows), id)
    ensures status == "success"
  {
    places.DeleteWhere((r: Row) => ChildOf(id, r));
    places.DeleteWhere(HasId(id));
    status := "success";
  }

  /** `delete_hotel`, `delete_restaurant`, `delete_shop`: only the row with
      that id goes, and the answer is `{"ok": true}` either way. */
  method DeleteRecord(t: Table, id: int) returns (ok: bool)
    requires t.Valid()
    modifies t
    ensures t.Valid() && t.nextId == old(t.nextId)
    ensures t.rows == Without(old(t.rows), HasId(id))
    ensures ok
  {
    t.DeleteWhere(HasId(id));
    ok := true;
  }

  /** Deleting one id removes at most that row and keeps the others. */
  lemma DeleteRecordEffect(rows: seq<Row>, id: int)
    requires UniqueIds(rows)
    ensures FirstWhere(rows, HasId(id)).None? ==> forall x :: x in Without(rows, HasId(id)) <==> x in rows
    ensures forall x :: x in rows && x.id != id ==> x in Without(rows, HasId(id))
    ensures forall x :: x in Without(rows, HasId(id)) ==> x.id != id
  {
  }

  /** One `global_config` row. */
  datatype ConfigEntry = ConfigEntry(value: string, description: Option<string>)

  /** `update_config` on the config table keyed by `key`. */
  function Upsert(entries: map<string, ConfigEntry>, key: string, value: string): (r: map<string, ConfigEntry>)
    ensures key in r && r[key].value == value
    ensures key in entries ==> r[key].description == entries[key].description
    ensures key !in entries ==> r[key].description.None?
    ensures forall k :: k != key ==> (k in r <==> k in entries)
    ensures forall k :: k != key && k in entries ==> r[k] == entries[k]
  {
    var description := if key in entries then entries[key].description else None;
    entries[key := ConfigEntry(value, description)]
  }

  /** Upserting the same key twice keeps only the second value. */
  lemma UpsertTwice(entries: map<string, ConfigEntry>, key: string, v1: string, v2: string)
    ensures Upsert(Upsert(entries, key, v1), key, v2) == Upsert(entries, key, v2)
  {
  }

  class ConfigTable {
    var entries: map<string, ConfigEntry>

    constructor (entries: map<string, ConfigEntry>)
      ensures this.entries == entries
    {
      this.entries := entries;
    }

    method UpdateConfig(key: string, value: string) returns (r: ConfigEntry)
      modifies this
      ensures entries == Upsert(old(entries), key, value)
      ensures r == entries[key]
    {
      if key !in entries {
        entries := entries[key := ConfigEntry(value, None)];
      } else {
        entries := entries[key := entries[key].(value := value)];
      }
      r := entries[key];
    }
  }
}
