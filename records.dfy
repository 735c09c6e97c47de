/**
 * The record tables behind both `BaseManager` generations: a table is its rows in
 * storage order, each row a field map that carries its own primary key under
 * "id". Queries without ORDER BY are taken to return rows in this order.
 */
module Records {
  import opened Wrappers

  /** A column value. */
  datatype Value = VNull | VInt(i: int) | VStr(s: string)

  type Fields = map<string, Value>

  /** One stored object: its primary key and its attributes, "id" included. */
  datatype Row = Row(id: int, fields: Fields)

  /** The object's `id` attribute is its primary key. */
  predicate Keyed(row: Row)
  {
    "id" in row.fields && row.fields["id"] == VInt(row.id)
  }

  /** Rows are stored in increasing id order (ids are handed out in increasing order
      and never reused). */
  predicate Ascending(rows: seq<Row>)
  {
    forall i, j :: 0 <= i < j < |rows| ==> rows[i].id < rows[j].id
  }

  /** Where the row with primary key `id` is, if anywhere: `session.get(model, id)`
      and `filter(model.id == id).first()`. */
  function IndexOf(rows: seq<Row>, id: int): (r: Option<nat>)
    ensures r.Some? ==> r.value < |rows| && rows[r.value].id == id
    ensures r.None? <==> forall i :: 0 <= i < |rows| ==> rows[i].id != id
  {
    if rows == [] then None
    else if rows[|rows| - 1].id == id then Some(|rows| - 1)
    else IndexOf(rows[..|rows| - 1], id)
  }

  /** The row with primary key id. */
  function Find(rows: seq<Row>, id: int): (r: Option<Row>)
    ensures r.Some? ==> r.value in rows && r.value.id == id
    ensures r.None? <==> forall i :: 0 <= i < |rows| ==> rows[i].id != id
  {
    match IndexOf(rows, id)
    case None => None
    case Some(k) => Some(rows[k])
  }

  /** With distinct ids, the index found is the only one holding that id. */
  lemma IndexUnique(rows: seq<Row>, id: int, k: nat)
    requires Ascending(rows) && k < |rows| && rows[k].id == id
    ensures IndexOf(rows, id) == Some(k)
  {
    assert forall i :: 0 <= i < |rows| && i != k ==> rows[i].id != rows[k].id by {
      forall i | 0 <= i < |rows| && i != k ensures rows[i].id != rows[k].id {
        if i < k {
          assert rows[i].id < rows[k].id;
        } else {
          assert rows[k].id < rows[i].id;
        }
      }
    }
  }

  // ---------------------------------------------------------------- pages

  /** `offset(skip).limit(limit)` on non-negative arguments. */
  function Page<T>(s: seq<T>, skip: nat, limit: nat): (r: seq<T>)
    ensures |r| <= limit
    ensures skip >= |s| ==> r == []
    ensures skip < |s| ==> |r| == if skip + limit <= |s| then limit else |s| - skip
    ensures forall i :: 0 <= i < |r| ==> skip + i < |s| && r[i] == s[skip + i]
  {
    var lo := if skip <= |s| then skip else |s|;
    var hi := if skip + limit <= |s| then skip + limit else |s|;
    s[lo..hi]
  }

  /** The offset SQLite applies: a negative OFFSET counts as 0. */
  function Offset(skip: int): nat
  {
    if skip < 0 then 0 else skip
  }

  /** `offset(skip).limit(limit)` as SQLite answers it. SQLAlchemy passes both values
      through unchanged; SQLite reads a negative OFFSET as 0 and a negative LIMIT as no
      bound at all. */
  function SqlPage<T>(s: seq<T>, skip: int, limit: int): (r: seq<T>)
    ensures limit >= 0 ==> |r| <= limit
    ensures Offset(skip) >= |s| || limit == 0 ==> r == []
    ensures Offset(skip) < |s| && limit != 0 ==>
              |r| == if limit < 0 || Offset(skip) + limit > |s| then |s| - Offset(skip) else limit
    ensures forall i :: 0 <= i < |r| ==> Offset(skip) + i < |s| && r[i] == s[Offset(skip) + i]
    ensures skip <= 0 && limit < 0 ==> r == s
  {
    Page(s, Offset(skip), if limit < 0 then |s| else limit)
  }

  // ---------------------------------------------------------------- patches

  /** `updated_obj.model_dump(exclude_unset=True)`: the explicitly set fields, in
      order, each key once. */
  type Patch = seq<(string, Value)>

  predicate DistinctKeys(p: Patch)
  {
    forall i, j :: 0 <= i < j < |p| ==> p[i].0 != p[j].0
  }

  /** One `setattr(obj, key, value)` of the update loop; the key "id" is skipped. */
  function SetField(f: Fields, kv: (string, Value)): Fields
  {
    if kv.0 == "id" then f else f[kv.0 := kv.1]
  }

  /** The update loop applied to the whole patch. */
  function Patched(f: Fields, p: Patch): Fields
  {
    if p == [] then f else SetField(Patched(f, p[..|p| - 1]), p[|p| - 1])
  }

  /** Every set field except "id" gets the patch's value; "id" and every field the
      patch does not set keep their values and presence. */
  lemma {:induction false} PatchSpec(f: Fields, p: Patch)
    requires DistinctKeys(p)
    ensures forall i :: 0 <= i < |p| && p[i].0 != "id" ==> p[i].0 in Patched(f, p) && Patched(f, p)[p[i].0] == p[i].1
    ensures forall k :: (k == "id" || forall i :: 0 <= i < |p| ==> p[i].0 != k) ==>
              (k in Patched(f, p) <==> k in f) && (k in f ==> Patched(f, p)[k] == f[k])
  {
    if p != [] {
      var q := p[..|p| - 1];
      assert DistinctKeys(q) by {
        forall i, j | 0 <= i < j < |q| ensures q[i].0 != q[j].0 {
          assert q[i] == p[i] && q[j] == p[j];
        }
      }
      PatchSpec(f, q);
      forall i | 0 <= i < |p| && p[i].0 != "id"
        ensures p[i].0 in Patched(f, p) && Patched(f, p)[p[i].0] == p[i].1
      {
        if i < |p| - 1 {
          assert q[i] == p[i];
          assert p[i].0 != p[|p| - 1].0;
        }
      }
      forall k | k == "id" || forall i :: 0 <= i < |p| ==> p[i].0 != k
        ensures (k in Patched(f, p) <==> k in f) && (k in f ==> Patched(f, p)[k] == f[k])
      {
        if k != "id" {
          assert forall i :: 0 <= i < |q| ==> q[i].0 != k by {
            forall i | 0 <= i < |q| ensures q[i].0 != k {
              assert q[i] == p[i];
            }
          }
          assert p[|p| - 1].0 != k;
        }
      }
    }
  }

  /** The `for key, value in data.items(): if key != 'id': setattr(...)` loop. */
  method ApplyPatch(fields: Fields, patch: Patch) returns (f: Fields)
    ensures f == Patched(fields, patch)
    ensures "id" in fields ==> "id" in f && f["id"] == fields["id"]
  {
    f := fields;
    var i := 0;
    while i < |patch|
      invariant 0 <= i <= |patch|
      invariant f == Patched(fields, patch[..i])
      invariant "id" in fields ==> "id" in f && f["id"] == fields["id"]
    {
      assert patch[..i + 1][..i] == patch[..i];
      var (key, value) := patch[i];
      if key != "id" {
        f := f[key := value];
      }
      i := i + 1;
    }
    assert patch[..i] == patch;
  }

  // ---------------------------------------------------------------- the table

  class Table {
    var rows: seq<Row>
    /** The next primary key the database hands out. */
    var nextId: int

    ghost predicate Valid()
      reads this
    {
      && nextId >= 1
      && Ascending(rows)
      && forall i :: 0 <= i < |rows| ==> Keyed(rows[i]) && rows[i].id < nextId
    }

    constructor ()
      ensures Valid()
      ensures rows == [] && nextId == 1
    {
      rows := [];
      nextId := 1;
    }

    /** `session.add(obj); commit(); refresh(obj)`: the row is stored under the next
        primary key. */
    method Add(fields: Fields) returns (row: Row)
      requires Valid()
      modifies this
      ensures Valid()
      ensures row == Row(old(nextId), fields["id" := VInt(old(nextId))])
      ensures rows == old(rows) + [row] && nextId == old(nextId) + 1
    {
      row := Row(nextId, fields["id" := VInt(nextId)]);
      rows := rows + [row];
      nextId := nextId + 1;
    }

    /** `session.delete(obj); commit()` for the row at position k. */
    method DeleteAt(k: nat)
      requires Valid() && k < |rows|
      modifies this
      ensures Valid()
      ensures rows == old(rows[..k]) + old(rows[k + 1..]) && nextId == old(nextId)
    {
      var before := rows;
      rows := rows[..k] + rows[k + 1..];
      assert forall i :: 0 <= i < |rows| ==> rows[i] == if i < k then before[i] else before[i + 1];
    }

    /** `commit()` after the attributes of the row at position k were set. */
    method PutAt(k: nat, fields: Fields)
      requires Valid() && k < |rows|
      requires "id" in fields && fields["id"] == VInt(rows[k].id)
      modifies this
      ensures Valid()
      ensures rows == old(rows)[k := Row(old(rows[k].id), fields)] && nextId == old(nextId)
    {
      rows := rows[k := Row(rows[k].id, fields)];
    }
  }

  /** The rows left after removing position k, and where each of them was. */
  lemma RemoveShift(rows: seq<Row>, k: nat)
    requires Ascending(rows) && k < |rows|
    ensures var after := rows[..k] + rows[k + 1..];
            && |after| == |rows| - 1
            && (forall i :: 0 <= i < |after| ==> after[i] == if i < k then rows[i] else rows[i + 1])
            && Ascending(after)
  {
    var after := rows[..k] + rows[k + 1..];
    assert forall i :: 0 <= i < |after| ==> after[i] == if i < k then rows[i] else rows[i + 1];
  }

  /** Removing the row at k leaves exactly the other rows, in order. */
  lemma RemovedExactly(rows: seq<Row>, k: nat)
    requires Ascending(rows) && k < |rows|
    ensures forall r :: r in rows[..k] + rows[k + 1..] <==> r in rows && r.id != rows[k].id
    ensures forall id :: id != rows[k].id ==> Find(rows[..k] + rows[k + 1..], id) == Find(rows, id)
    ensures Find(rows[..k] + rows[k + 1..], rows[k].id).None?
  {
    var after := rows[..k] + rows[k + 1..];
    RemoveShift(rows, k);
    forall r ensures r in after <==> r in rows && r.id != rows[k].id {
      if r in rows && r.id != rows[k].id {
        var i :| 0 <= i < |rows| && rows[i] == r;
        if i < k {
          assert after[i] == r;
        } else {
          assert i != k && after[i - 1] == r;
        }
      }
      if r in after {
        var i :| 0 <= i < |after| && after[i] == r;
        if i < k {
          assert rows[i].id < rows[k].id;
        } else {
          assert rows[k].id < rows[i + 1].id;
        }
      }
    }
    forall id | id != rows[k].id ensures Find(after, id) == Find(rows, id) {
      FindAfterRemove(rows, k, id);
    }
  }

  lemma FindAfterRemove(rows: seq<Row>, k: nat, id: int)
    requires Ascending(rows) && k < |rows| && id != rows[k].id
    ensures Find(rows[..k] + rows[k + 1..], id) == Find(rows, id)
  {
    var after := rows[..k] + rows[k + 1..];
    RemoveShift(rows, k);
    if IndexOf(rows, id).Some? {
      var i := IndexOf(rows, id).value;
      var j := if i < k then i else i - 1;
      assert after[j] == rows[i];
      IndexUnique(after, id, j);
    } else {
      assert forall j :: 0 <= j < |after| ==> after[j].id != id;
    }
  }
}
