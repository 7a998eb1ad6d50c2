/** Start-up seeding: the admin account, and the monuments of the
    semicolon-separated CSV file (name, "lat, lng", description), which are
    inserted or updated by exact name and committed once at the end. */
module Seed {
  import opened Wrappers
  import opened Text
  import opened Db

  const AdminEmail: string := "admin@ichankala.com"

  const HasAdminEmail: Row -> bool := (r: Row) => Col(r, "email") == Str(AdminEmail)

  /** The admin account; the password hash comes from the (salted) hasher. */
  function AdminColumns(hashedPassword: string): map<string, Value> {
    map[
      "email" := Str(AdminEmail),
      "hashed_password" := Str(hashedPassword),
      "full_name" := Str("Admin User"),
      "is_active" := Bool(true),
      "is_admin" := Bool(true),
      "is_premium" := Bool(true)]
  }

  /** The users table after `seed_users`, given the key the new row would get. */
  function SeedUsersRows(rows: seq<Row>, id: int, hashedPassword: string): (r: seq<Row>)
    ensures FirstWhere(r, HasAdminEmail).Some?
    ensures FirstWhere(rows, HasAdminEmail).Some? ==> r == rows
    ensures FirstWhere(rows, HasAdminEmail).None? ==> r == rows + [Row(id, AdminColumns(hashedPassword))]
  {
    if FirstWhere(rows, HasAdminEmail).None? then
      var r := rows + [Row(id, AdminColumns(hashedPassword))];
      assert HasAdminEmail(r[|rows|]);
      r
    else rows
  }

  /** Seeding the users a second time changes nothing, whatever hash the
      second run computes. */
  lemma SeedUsersIdempotent(rows: seq<Row>, id1: int, h1: string, id2: int, h2: string)
    ensures SeedUsersRows(SeedUsersRows(rows, id1, h1), id2, h2) == SeedUsersRows(rows, id1, h1)
  {
  }

  method SeedUsers(users: Table, hashedPassword: string) returns (created: bool)
    requires users.Valid()
    modifies users
    ensures users.Valid()
    ensures created <==> FirstWhere(old(users.rows), HasAdminEmail).None?
    ensures users.rows == SeedUsersRows(old(users.rows), old(users.nextId), hashedPassword)
    ensures users.nextId == if created then old(users.nextId) + 1 else old(users.nextId)
  {
    var user := FirstWhere(users.rows, HasAdminEmail);
    created := user.None?;
    if created {
      var id := users.Insert(AdminColumns(hashedPassword));
    }
  }

  /** Seeding twice in a row adds the admin at most once. */
  method SeedUsersTwice(users: Table, h1: string, h2: string)
    requires users.Valid()
    modifies users
    ensures users.rows == SeedUsersRows(old(users.rows), old(users.nextId), h1)
  {
    var first := SeedUsers(users, h1);
    var second := SeedUsers(users, h2);
    assert !second;
  }

  /** The file names tried, relative to the working directory. */
  const Candidates: seq<string> := [
    "içan kala bilgileri.csv",
    "backend/içan kala bilgileri.csv",
    "../içan kala bilgileri.csv",
    "app/../içan kala bilgileri.csv"]

  /** The index of the first path that exists. */
  function FirstExisting(paths: seq<string>, pathExists: string -> bool): (k: Option<nat>)
    ensures k.None? <==> forall i :: 0 <= i < |paths| ==> !pathExists(paths[i])
    ensures k.Some? ==> k.value < |paths| && pathExists(paths[k.value])
    ensures k.Some? ==> forall i :: 0 <= i < k.value ==> !pathExists(paths[i])
  {
    if paths == [] then None
    else if pathExists(paths[0]) then Some(0)
    else
      var k := FirstExisting(paths[1..], pathExists);
      if k.Some? then Some(k.value + 1) else None
  }

  /** The path search loop: stop at the first candidate that exists. */
  method FindCsvPath(pathExists: string -> bool) returns (found: Option<string>)
    ensures found.None? <==> FirstExisting(Candidates, pathExists).None?
    ensures found.Some? ==> found.value == Candidates[FirstExisting(Candidates, pathExists).value]
  {
    found := None;
    var i := 0;
    while i < |Candidates|
      invariant 0 <= i <= |Candidates|
      invariant forall j :: 0 <= j < i ==> !pathExists(Candidates[j])
    {
      if pathExists(Candidates[i]) {
        found := Some(Candidates[i]);
        break;
      }
      i := i + 1;
    }
  }

  /** One record of `csv.DictReader`: a field missing at the end of a
      short line holds None. */
  type CsvRow = map<string, Option<string>>

  const NameKey: string := "Yapılar"
  const CoordinatesKey: string := "Kordinatlar"
  const InfoKey: string := "bilgileri"

  /** `row.get(key, '')`. */
  function Field(r: CsvRow, key: string): Option<string> {
    if key in r then r[key] else Some("")
  }

  /** What one CSV record turns into: the run crashes (a None field has no
      `.strip()`), the record is skipped, or a place is accepted. */
  datatype RowResult = Crash | Skip | Accept(name: string, description: string, latitude: real, longitude: real)

  /** Read and validate one record; `parse` is Python's `float()`, None
      where it raises. */
  function ReadRow(r: CsvRow, parse: string -> Option<real>): (res: RowResult)
    ensures res.Crash? <==> Field(r, NameKey).None? || Field(r, CoordinatesKey).None? || Field(r, InfoKey).None?
    ensures !res.Crash? && (Trim(Field(r, NameKey).value) == [] || Trim(Field(r, CoordinatesKey).value) == []) ==> res.Skip?
    ensures !res.Crash? && |Split(Trim(Field(r, CoordinatesKey).value), ',')| != 2 ==> res.Skip?
    ensures !res.Crash? && Trim(Field(r, NameKey).value) != [] && Trim(Field(r, CoordinatesKey).value) != [] ==>
      var parts := Split(Trim(Field(r, CoordinatesKey).value), ',');
      |parts| == 2 && parse(Trim(parts[0])).Some? && parse(Trim(parts[1])).Some? ==> res.Accept?
    ensures res.Accept? ==> res.name != [] && res.name == Trim(Field(r, NameKey).value)
    ensures res.Accept? ==> res.description == Trim(Field(r, InfoKey).value)
    ensures res.Accept? ==>
      var parts := Split(Trim(Field(r, CoordinatesKey).value), ',');
      |parts| == 2 && parse(Trim(parts[0])) == Some(res.latitude) && parse(Trim(parts[1])) == Some(res.longitude)
  {
    var name, coordinates, description := Field(r, NameKey), Field(r, CoordinatesKey), Field(r, InfoKey);
    if name.None? || coordinates.None? || description.None? then Crash
    else if Trim(name.value) == [] || Trim(coordinates.value) == [] then Skip
    else
      var parts := Split(Trim(coordinates.value), ',');
      if |parts| != 2 then Skip
      else
        var lat, lng := parse(Trim(parts[0])), parse(Trim(parts[1]));
        if lat.None? || lng.None? then Skip
        else Accept(Trim(name.value), Trim(description.value), lat.value, lng.value)
  }

  /** `description[:100] + "..."` when longer than 100 characters. */
  function ShortDesc(d: string): (s: string)
    ensures |s| <= 103
    ensures |d| <= 100 ==> s == d
    ensures |d| > 100 ==> |s| == 103 && s[..100] == d[..100] && s[100..] == "..."
  {
    if |d| > 100 then d[..100] + "..." else d
  }

  /** A new place from an accepted record. */
  function NewPlaceColumns(name: string, description: string, latitude: real, longitude: real): map<string, Value> {
    map[
      "name" := Str(name),
      "description" := Str(description),
      "latitude" := Real(latitude),
      "longitude" := Real(longitude),
      "type" := Str("historical"),
      "is_active" := Bool(true),
      "photo_url" := Str(""),
      "audio_url" := Str(""),
      "short_desc" := Str(ShortDesc(description))]
  }

  /** An existing place seen again: only its description and coordinates
      are overwritten. */
  function Refresh(p: Row, description: string, latitude: real, longitude: real): Row {
    Row(p.id, p.cols["description" := Str(description)]["latitude" := Real(latitude)]["longitude" := Real(longitude)])
  }

  function NamedExactly(name: string): Row -> bool {
    (r: Row) => Col(r, "name") == Str(name)
  }

  /** The rows the session sees (its own pending inserts included, through
      autoflush) and the key the next insert gets. */
  datatype Session = Session(rows: seq<Row>, nextId: int)

  ghost predicate SessionValid(s: Session) {
    UniqueIds(s.rows) && forall i :: 0 <= i < |s.rows| ==> s.rows[i].id < s.nextId
  }

  /** The session after one record; None when the run crashes. */
  function Apply(s: Session, res: RowResult): Option<Session> {
    match res
    case Crash => None
    case Skip => Some(s)
    case Accept(name, description, latitude, longitude) =>
      match FirstWhere(s.rows, NamedExactly(name))
      case None => Some(Session(s.rows + [Row(s.nextId, NewPlaceColumns(name, description, latitude, longitude))], s.nextId + 1))
      case Some(k) => Some(Session(s.rows[k := Refresh(s.rows[k], description, latitude, longitude)], s.nextId))
  }

  /** The session after the records in order, or None once one crashes. */
  function SeedAll(s: Session, csv: seq<CsvRow>, parse: string -> Option<real>): Option<Session>
    decreases |csv|
  {
    if csv == [] then Some(s)
    else
      match SeedAll(s, csv[..|csv| - 1], parse)
      case None => None
      case Some(t) => Apply(t, ReadRow(csv[|csv| - 1], parse))
  }

  lemma ApplyValid(s: Session, res: RowResult)
    requires SessionValid(s) && Apply(s, res).Some?
    ensures SessionValid(Apply(s, res).value)
  {
    if res.Accept? {
      var t := Apply(s, res).value;
      if FirstWhere(s.rows, NamedExactly(res.name)).Some? {
        var k := FirstWhere(s.rows, NamedExactly(res.name)).value;
        assert forall i :: 0 <= i < |t.rows| ==> t.rows[i].id == s.rows[i].id;
      } else {
        assert forall i :: 0 <= i < |s.rows| ==> t.rows[i] == s.rows[i];
      }
    }
  }

  /** One record whose trailing fields are missing aborts the whole run:
      nothing is committed, whatever the other records hold. */
  lemma {:induction false} CrashAborts(s: Session, csv: seq<CsvRow>, parse: string -> Option<real>, i: nat)
    requires i < |csv| && ReadRow(csv[i], parse).Crash?
    ensures SeedAll(s, csv, parse).None?
    decreases |csv|
  {
    var n := |csv| - 1;
    if i < n {
      assert csv[..n][i] == csv[i];
      CrashAborts(s, csv[..n], parse, i);
    }
  }

  /** A record naming a place already in the session changes only that
      place's description and coordinates. */
  lemma ExistingPlaceRefreshed(s: Session, res: RowResult)
    requires res.Accept? && FirstWhere(s.rows, NamedExactly(res.name)).Some?
    ensures var k := FirstWhere(s.rows, NamedExactly(res.name)).value;
      var t := Apply(s, res).value;
      |t.rows| == |s.rows| && t.nextId == s.nextId && t.rows[k].id == s.rows[k].id &&
      (forall i :: 0 <= i < |s.rows| && i != k ==> t.rows[i] == s.rows[i]) &&
      (forall c :: c != "description" && c != "latitude" && c != "longitude" ==> Col(t.rows[k], c) == Col(s.rows[k], c)) &&
      Col(t.rows[k], "description") == Str(res.description) &&
      Col(t.rows[k], "latitude") == Real(res.latitude) && Col(t.rows[k], "longitude") == Real(res.longitude)
  {
  }

  /** A record with a new name appends one place with the seeding defaults. */
  lemma NewPlaceAdded(s: Session, res: RowResult)
    requires res.Accept? && FirstWhere(s.rows, NamedExactly(res.name)).None?
    ensures var t := Apply(s, res).value;
      var p := t.rows[|s.rows|];
      |t.rows| == |s.rows| + 1 && t.rows[..|s.rows|] == s.rows && p.id == s.nextId &&
      Col(p, "name") == Str(res.name) && Col(p, "type") == Str("historical") &&
      Col(p, "is_active") == Bool(true) && Col(p, "photo_url") == Str("") && Col(p, "audio_url") == Str("") &&
      Col(p, "description") == Str(res.description) && Col(p, "short_desc") == Str(ShortDesc(res.description)) &&
      Col(p, "latitude") == Real(res.latitude) && Col(p, "longitude") == Real(res.longitude) &&
      Col(p, "short_desc").Str? && |Col(p, "short_desc").s| <= 103
  {
  }

  /** The loop over the records, on the session: stop at the first crash. */
  method RunSession(start: Session, csv: seq<CsvRow>, parse: string -> Option<real>) returns (result: Option<Session>)
    requires SessionValid(start)
    ensures result == SeedAll(start, csv, parse)
    ensures result.Some? ==> SessionValid(result.value)
  {
    var session := start;
    var i := 0;
    while i < |csv|
      invariant 0 <= i <= |csv|
      invariant SeedAll(start, csv[..i], parse) == Some(session)
      invariant SessionValid(session)
    {
      assert csv[..i + 1][..i] == csv[..i];
      var res := ReadRow(csv[i], parse);
      var next := Apply(session, res);
      if next.None? {
        CrashAborts(start, csv, parse, i);
        return None;
      }
      ApplyValid(session, res);
      session := next.value;
      i := i + 1;
    }
    assert csv[..|csv|] == csv;
    result := Some(session);
  }

  datatype SeedOutcome = NoFile | Crashed | Seeded

  /** `seed_places_from_csv`: find the file, fold the records into the
      session, commit at the end; a crash leaves the table as it was. */
  method SeedPlacesFromCsv(places: Table, pathExists: string -> bool, read: string -> seq<CsvRow>, parse: string -> Option<real>)
    returns (outcome: SeedOutcome)
    requires places.Valid()
    modifies places
    ensures places.Valid()
    ensures FirstExisting(Candidates, pathExists).None? ==>
      outcome == NoFile && places.rows == old(places.rows) && places.nextId == old(places.nextId)
    ensures FirstExisting(Candidates, pathExists).Some? ==>
      var csv := read(Candidates[FirstExisting(Candidates, pathExists).value]);
      var result := SeedAll(Session(old(places.rows), old(places.nextId)), csv, parse);
      (result.None? ==> outcome == Crashed && places.rows == old(places.rows) && places.nextId == old(places.nextId)) &&
      (result.Some? ==> outcome == Seeded && places.rows == result.value.rows && places.nextId == result.value.nextId)
  {
    var path := FindCsvPath(pathExists);
    if path.None? {
      return NoFile;
    }
    var result := RunSession(Session(places.rows, places.nextId), read(path.value), parse);
    if result.None? {
      return Crashed;
    }
    places.rows := result.value.rows;
    places.nextId := result.value.nextId;
    outcome := Seeded;
  }
}
