/** The tables the back end reaches through SQLAlchemy, as in-memory rows
    keyed by an integer primary key. A row holds its columns by name, the
    way `setattr(obj, k, v)` and `Model(**d)` address them; a column that
    was never assigned reads as NULL. */
module Db {
  import opened Wrappers
  import Projection

  /** A column value: NULL, an integer, a float, a boolean, a string, or a
      JSON list of `{lat, lng}` points. */
  datatype Value = Null | Int(i: int) | Real(r: real) | Bool(b: bool) | Str(s: string) | Points(ps: seq<Projection.Coord>)

  /** Python truthiness of a column value, as in `if not place.description`. */
  predicate Truthy(v: Value) {
    match v
    case Null => false
    case Int(i) => i != 0
    case Real(r) => r != 0.0
    case Bool(b) => b
    case Str(s) => s != []
    case Points(ps) => ps != []
  }

  function StrOrNull(s: Option<string>): Value {
    if s.Some? then Str(s.value) else Null
  }

  datatype Row = Row(id: int, cols: map<string, Value>)

  function Col(r: Row, name: string): Value {
    if name in r.cols then r.cols[name] else Null
  }

  /** One `key: value` entry of a request body or of a constructor call. */
  datatype Item = Item(key: string, value: Value)

  /** The columns after `setattr(obj, item.key, item.value)` for each item,
      in order. */
  function Assign(cols: map<string, Value>, items: seq<Item>): map<string, Value>
    decreases |items|
  {
    if items == [] then cols
    else
      var last := items[|items| - 1];
      Assign(cols, items[..|items| - 1])[last.key := last.value]
  }

  /** The value the last item named `key` carries, or None when no item is
      named `key`. */
  function Sent(items: seq<Item>, key: string): (v: Option<Value>)
    ensures v.None? <==> forall i :: 0 <= i < |items| ==> items[i].key != key
    ensures v.Some? ==> Item(key, v.value) in items
    decreases |items|
  {
    if items == [] then None
    else if items[|items| - 1].key == key then Some(items[|items| - 1].value)
    else Sent(items[..|items| - 1], key)
  }

  /** `setattr` writes exactly the keys that were sent, each with the last
      value sent for it; every other column keeps its value, or stays unset. */
  lemma {:induction false} AssignCol(cols: map<string, Value>, items: seq<Item>, key: string)
    ensures Sent(items, key).Some? ==> key in Assign(cols, items) && Assign(cols, items)[key] == Sent(items, key).value
    ensures Sent(items, key).None? ==> (key in Assign(cols, items) <==> key in cols)
    ensures Sent(items, key).None? && key in cols ==> Assign(cols, items)[key] == cols[key]
    decreases |items|
  {
    if items != [] {
      AssignCol(cols, items[..|items| - 1], key);
    }
  }

  /** In a dictionary with distinct keys, the value sent for a key is the
      value of its one entry. */
  lemma SentDistinct(items: seq<Item>, i: nat)
    requires i < |items|
    requires forall j, k :: 0 <= j < k < |items| ==> items[j].key != items[k].key
    ensures Sent(items, items[i].key) == Some(items[i].value)
    decreases |items|
  {
    if i < |items| - 1 {
      SentDistinct(items[..|items| - 1], i);
    }
  }

  /** The entries of `body` whose key is a field of the schema, in order: a
      pydantic model ignores unknown keys, and `dict(exclude_unset=True)`
      keeps only the fields the client sent. */
  function Known(body: seq<Item>, fields: set<string>): (r: seq<Item>)
    ensures forall i :: 0 <= i < |r| ==> r[i].key in fields
    ensures forall key :: key in fields ==> Sent(r, key) == Sent(body, key)
    ensures forall key :: key !in fields ==> Sent(r, key).None?
    decreases |body|
  {
    if body == [] then []
    else
      var k := Known(body[..|body| - 1], fields);
      var last := body[|body| - 1];
      if last.key in fields then
        assert (k + [last])[..|k|] == k;
        k + [last]
      else k
  }

  /** Row `i` is the first whose condition holds (`.filter(...).first()`). */
  ghost predicate IsFirst(rows: seq<Row>, p: Row -> bool, i: int) {
    0 <= i < |rows| && p(rows[i]) && forall j :: 0 <= j < i ==> !p(rows[j])
  }

  function FirstWhere(rows: seq<Row>, p: Row -> bool): (k: Option<nat>)
    ensures k.Some? ==> IsFirst(rows, p, k.value)
    ensures k.None? <==> forall j :: 0 <= j < |rows| ==> !p(rows[j])
  {
    if rows == [] then None
    else if p(rows[0]) then Some(0)
    else
      var k := FirstWhere(rows[1..], p);
      if k.Some? then Some(k.value + 1) else None
  }

  function HasId(id: int): Row -> bool {
    (r: Row) => r.id == id
  }

  /** `.filter(p)`: the rows satisfying `p`, in table order. */
  function Where(rows: seq<Row>, p: Row -> bool): (r: seq<Row>)
    ensures |r| <= |rows|
    ensures forall x :: x in r ==> x in rows && p(x)
    ensures forall x :: x in rows && p(x) ==> x in r
  {
    if rows == [] then []
    else if p(rows[0]) then [rows[0]] + Where(rows[1..], p)
    else Where(rows[1..], p)
  }

  /** Filtering keeps table order: the matches of a concatenation are the
      matches of its first part followed by those of its second. */
  lemma {:induction false} WhereAppend(a: seq<Row>, b: seq<Row>, p: Row -> bool)
    ensures Where(a + b, p) == Where(a, p) + Where(b, p)
  {
    if a == [] {
      assert a + b == b;
    } else {
      var ab := a + b;
      assert ab[0] == a[0] && ab[1..] == a[1..] + b;
      WhereUnfold(ab, p);
      WhereUnfold(a, p);
      WhereAppend(a[1..], b, p);
      var h := if p(a[0]) then [a[0]] else [];
      Regroup(Where(ab, p), Where(a, p), h, Where(a[1..], p), Where(b, p));
    }
  }

  /** The associativity step of the induction above, away from the filter. */
  lemma Regroup(whole: seq<Row>, left: seq<Row>, h: seq<Row>, x: seq<Row>, y: seq<Row>)
    requires whole == h + (x + y)
    requires left == h + x
    ensures whole == left + y
  {
  }

  /** One step of the filter on a non-empty table. */
  lemma WhereUnfold(s: seq<Row>, p: Row -> bool)
    requires s != []
    ensures Where(s, p) == (if p(s[0]) then [s[0]] else []) + Where(s[1..], p)
  {
  }

  /** A single row is kept exactly when it matches. */
  lemma WhereSingle(x: Row, p: Row -> bool)
    ensures Where([x], p) == if p(x) then [x] else []
  {
    assert [x][1..] == [];
  }

  /** What is left after `.filter(p).delete()`. */
  function Without(rows: seq<Row>, p: Row -> bool): (r: seq<Row>)
    ensures forall x :: x in r <==> x in rows && !p(x)
  {
    Where(rows, (x: Row) => !p(x))
  }

  ghost predicate UniqueIds(rows: seq<Row>) {
    forall i, j :: 0 <= i < j < |rows| ==> rows[i].id != rows[j].id
  }

  /** Filtering keeps primary keys unique. */
  lemma {:induction false} WhereUnique(rows: seq<Row>, p: Row -> bool)
    requires UniqueIds(rows)
    ensures UniqueIds(Where(rows, p))
  {
    if rows != [] {
      WhereUnique(rows[1..], p);
      var rest := Where(rows[1..], p);
      if p(rows[0]) {
        forall j | 0 <= j < |rest| ensures rows[0].id != rest[j].id {
          assert rest[j] in rows[1..];
        }
        assert Where(rows, p) == [rows[0]] + rest;
      }
    }
  }

  /** A primary key identifies at most one row. */
  lemma UniqueIdsFirst(rows: seq<Row>, id: int, i: nat)
    requires UniqueIds(rows) && i < |rows| && rows[i].id == id
    ensures FirstWhere(rows, HasId(id)) == Some(i)
  {
    var k := FirstWhere(rows, HasId(id));
    assert HasId(id)(rows[i]);
    assert k.value <= i;
    assert rows[k.value].id == id;
  }

  class Table {
    var rows: seq<Row>
    var nextId: int

    /** Primary keys are unique, and the next key is above all of them. */
    ghost predicate Valid()
      reads this
    {
      UniqueIds(rows) && forall i :: 0 <= i < |rows| ==> rows[i].id < nextId
    }

    constructor ()
      ensures rows == [] && nextId == 1 && Valid()
    {
      rows := [];
      nextId := 1;
    }

    /** `db.add(Model(**d))` then `commit`: a new row under the next key. */
    method Insert(cols: map<string, Value>) returns (id: int)
      requires Valid()
      modifies this
      ensures Valid()
      ensures id == old(nextId) && nextId == old(nextId) + 1
      ensures rows == old(rows) + [Row(id, cols)]
    {
      id := nextId;
      rows := rows + [Row(id, cols)];
      nextId := nextId + 1;
    }

    /** Look the row up by key; when it exists, `setattr` each item in turn
        and commit. */
    method Update(id: int, items: seq<Item>) returns (r: Option<Row>)
      requires Valid()
      modifies this
      ensures Valid() && nextId == old(nextId)
      ensures FirstWhere(old(rows), HasId(id)).None? ==> r.None? && rows == old(rows)
      ensures FirstWhere(old(rows), HasId(id)).Some? ==>
        var k := FirstWhere(old(rows), HasId(id)).value;
        r == Some(Row(id, Assign(old(rows)[k].cols, items))) && rows == old(rows)[k := r.value]
    {
      var k := FirstWhere(rows, HasId(id));
      if k.None? {
        return None;
      }
      var start := rows[k.value].cols;
      var cols := start;
      var i := 0;
      while i < |items|
        invariant 0 <= i <= |items|
        invariant cols == Assign(start, items[..i])
      {
        assert items[..i + 1][..i] == items[..i];
        cols := cols[items[i].key := items[i].value];
        i := i + 1;
      }
      assert items[..|items|] == items;
      r := Some(Row(id, cols));
      rows := rows[k.value := r.value];
    }

    /** `.filter(p).delete()` then `commit`. */
    method DeleteWhere(p: Row -> bool)
      requires Valid()
      modifies this
      ensures Valid() && nextId == old(nextId)
      ensures rows == Without(old(rows), p)
    {
      WhereUnique(rows, (x: Row) => !p(x));
      ghost var before := rows;
      rows := Without(rows, p);
      forall i | 0 <= i < |rows| ensures rows[i].id < nextId {
        assert rows[i] in before;
      }
    }
  }
}
