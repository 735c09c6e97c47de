/** app/database/managers/base_manager.py: the asynchronous generic manager. Lookups
    that find nothing raise; `get_obj_by_id` and `get_all_obj` catch their own
    `ModelNotFoundError` and re-raise it as `DatabaseError`. */
module AppBase {
  import opened Wrappers
  import opened Errors
  import opened Records

  /** `create_obj(obj)`: the object is stored under the next primary key and returned.
      A storage failure (`fault`) rolls back and raises `DatabaseError`. */
  method CreateObj(t: Table, fields: Fields, fault: bool) returns (r: Result<Row, Error>)
    requires t.Valid()
    modifies t
    ensures t.Valid()
    ensures fault ==> r == Err(DatabaseError) && t.rows == old(t.rows) && t.nextId == old(t.nextId)
    ensures !fault ==> r == Ok(Row(old(t.nextId), fields["id" := VInt(old(t.nextId))]))
    ensures !fault ==> t.rows == old(t.rows) + [r.value] && t.nextId == old(t.nextId) + 1
    ensures r.Ok? ==> Find(t.rows, r.value.id) == Some(r.value)
  {
    if fault {
      return Err(DatabaseError);
    }
    var row := t.Add(fields);
    IndexUnique(t.rows, row.id, |t.rows| - 1);
    r := Ok(row);
  }

  /** `get_obj_by_id(id)`: the row with that id. A missing id raises
      `ModelNotFoundError` inside the `try`, and the `except Exception` turns it into
      `DatabaseError`, so the client sees 500 rather than 404. */
  function GetObjById(t: Table, id: int): (r: Result<Row, Error>)
    reads t
    ensures r.Ok? ==> r.value in t.rows && r.value.id == id
    ensures r.Err? <==> forall i :: 0 <= i < |t.rows| ==> t.rows[i].id != id
    ensures r.Err? ==> r.error == DatabaseError && Status(r.error) == 500
  {
    match Find(t.rows, id)
    case None => Err(DatabaseError)
    case Some(row) => Ok(row)
  }

  /** `get_all_obj(skip, limit)`: the rows from position skip on (a negative skip
      counts as 0), at most limit of them (a negative limit is no bound). An empty
      page raises `ModelNotFoundError`, which the `except` re-raises as
      `DatabaseError`. */
  function GetAllObj(t: Table, skip: int, limit: int): (r: Result<seq<Row>, Error>)
    reads t
    ensures r.Err? <==> Offset(skip) >= |t.rows| || limit == 0
    ensures r.Err? ==> r.error == DatabaseError
    ensures r.Ok? ==>
              && 0 < |r.value|
              && (limit >= 0 ==> |r.value| <= limit)
              && |r.value| == (if limit < 0 || Offset(skip) + limit > |t.rows| then |t.rows| - Offset(skip) else limit)
              && forall i :: 0 <= i < |r.value| ==> r.value[i] == t.rows[Offset(skip) + i]
  {
    var page := SqlPage(t.rows, skip, limit);
    if page == [] then Err(DatabaseError) else Ok(page)
  }

  /** `update_obj(id, updated)`: a missing id raises `ModelNotFoundError` (no `try`
      here) and changes nothing; otherwise every explicitly set field except "id" is
      copied onto the row and the updated row is returned. A commit the database
      refuses (`fault`: a NOT NULL or unique constraint, say) raises out of the call
      uncaught and stores nothing. */
  method UpdateObj(t: Table, id: int, patch: Patch, fault: bool) returns (r: Result<Row, Error>)
    requires t.Valid()
    modifies t
    ensures t.Valid()
    ensures t.nextId == old(t.nextId)
    ensures IndexOf(old(t.rows), id).None? ==> r == Err(ModelNotFoundError) && t.rows == old(t.rows)
    ensures IndexOf(old(t.rows), id).Some? && fault ==> r == Err(StatementError) && t.rows == old(t.rows)
    ensures IndexOf(old(t.rows), id).Some? && !fault ==>
              var k := IndexOf(old(t.rows), id).value;
              && r == Ok(Row(id, Patched(old(t.rows)[k].fields, patch)))
              && t.rows == old(t.rows)[k := r.value]
    ensures r.Ok? ==> Find(t.rows, id) == Some(r.value)
  {
    match IndexOf(t.rows, id) {
      case None =>
        return Err(ModelNotFoundError);
      case Some(k) =>
        var f := ApplyPatch(t.rows[k].fields, patch);
        if fault {
          return Err(StatementError);
        }
        t.PutAt(k, f);
        IndexUnique(t.rows, id, k);
        r := Ok(Row(id, f));
    }
  }

  /** `delete_obj(id)`: a missing id raises `ModelNotFoundError` and changes nothing;
      otherwise the row is removed and returned, and every other row stays. */
  method DeleteObj(t: Table, id: int) returns (r: Result<Row, Error>)
    requires t.Valid()
    modifies t
    ensures t.Valid()
    ensures t.nextId == old(t.nextId)
    ensures IndexOf(old(t.rows), id).None? ==> r == Err(ModelNotFoundError) && t.rows == old(t.rows)
    ensures IndexOf(old(t.rows), id).Some? ==>
              var k := IndexOf(old(t.rows), id).value;
              && r == Ok(old(t.rows)[k])
              && t.rows == old(t.rows)[..k] + old(t.rows)[k + 1..]
    ensures r.Ok? ==> Find(t.rows, id).None?
    ensures forall other :: other != id ==> Find(t.rows, other) == Find(old(t.rows), other)
  {
    match IndexOf(t.rows, id) {
      case None =>
        return Err(ModelNotFoundError);
      case Some(k) =>
        r := Ok(t.rows[k]);
        RemovedExactly(t.rows, k);
        t.DeleteAt(k);
    }
  }
}

/** database/managers/base_manager.py: the synchronous generic manager, where a
    missing id gives `None`. */
module SyncBase {
  import opened Wrappers
  import opened Errors
  import opened Records

  /** `get_obj_by_id(id)`: the row with that id, or `None`. */
  function GetObjById(t: Table, id: int): (r: Option<Row>)
    reads t
    ensures r.Some? ==> r.value in t.rows && r.value.id == id
    ensures r.None? <==> forall i :: 0 <= i < |t.rows| ==> t.rows[i].id != id
  {
    Find(t.rows, id)
  }

  /** `get_all_obj(skip, limit)`: the rows from position skip on (a negative skip
      counts as 0), at most limit of them (a negative limit is no bound), possibly
      none. */
  function GetAllObj(t: Table, skip: int, limit: int): (r: seq<Row>)
    reads t
    ensures limit >= 0 ==> |r| <= limit
    ensures Offset(skip) >= |t.rows| || limit == 0 ==> r == []
    ensures Offset(skip) < |t.rows| && limit != 0 ==>
              |r| == if limit < 0 || Offset(skip) + limit > |t.rows| then |t.rows| - Offset(skip) else limit
    ensures forall i :: 0 <= i < |r| ==> r[i] == t.rows[Offset(skip) + i]
    ensures skip <= 0 && limit < 0 ==> r == t.rows
  {
    SqlPage(t.rows, skip, limit)
  }

  /** `create_obj(obj)`: the object is stored under the next primary key and
      returned. A commit the database refuses (`fault`) raises out of the call
      uncaught and stores nothing. */
  method CreateObj(t: Table, fields: Fields, fault: bool) returns (r: Result<Row, Error>)
    requires t.Valid()
    modifies t
    ensures t.Valid()
    ensures fault ==> r == Err(StatementError) && t.rows == old(t.rows) && t.nextId == old(t.nextId)
    ensures !fault ==> r == Ok(Row(old(t.nextId), fields["id" := VInt(old(t.nextId))]))
    ensures !fault ==> t.rows == old(t.rows) + [r.value] && t.nextId == old(t.nextId) + 1
    ensures r.Ok? ==> GetObjById(t, r.value.id) == Some(r.value)
  {
    if fault {
      return Err(StatementError);
    }
    var row := t.Add(fields);
    IndexUnique(t.rows, row.id, |t.rows| - 1);
    r := Ok(row);
  }

  /** `delete_obj(id)`: `None` and no change for a missing id; otherwise the row is
      removed and returned, and every other row stays. */
  method DeleteObj(t: Table, id: int) returns (r: Option<Row>)
    requires t.Valid()
    modifies t
    ensures t.Valid()
    ensures t.nextId == old(t.nextId)
    ensures IndexOf(old(t.rows), id).None? ==> r.None? && t.rows == old(t.rows)
    ensures IndexOf(old(t.rows), id).Some? ==>
              var k := IndexOf(old(t.rows), id).value;
              && r == Some(old(t.rows)[k])
              && t.rows == old(t.rows)[..k] + old(t.rows)[k + 1..]
    ensures GetObjById(t, id).None?
    ensures forall other :: other != id ==> GetObjById(t, other) == old(GetObjById(t, other))
  {
    match IndexOf(t.rows, id) {
      case None =>
        return None;
      case Some(k) =>
        r := Some(t.rows[k]);
        RemovedExactly(t.rows, k);
        t.DeleteAt(k);
    }
  }

  /** `update_obj(id, updated)`: `None` and no change for a missing id; otherwise every
      explicitly set field except "id" is copied onto the row. A commit the database
      refuses (`fault`) raises out of the call uncaught and stores nothing. */
  method UpdateObj(t: Table, id: int, patch: Patch, fault: bool) returns (r: Result<Option<Row>, Error>)
    requires t.Valid()
    modifies t
    ensures t.Valid()
    ensures t.nextId == old(t.nextId)
    ensures IndexOf(old(t.rows), id).None? ==> r == Ok(None) && t.rows == old(t.rows)
    ensures IndexOf(old(t.rows), id).Some? && fault ==> r == Err(StatementError) && t.rows == old(t.rows)
    ensures IndexOf(old(t.rows), id).Some? && !fault ==>
              var k := IndexOf(old(t.rows), id).value;
              && r == Ok(Some(Row(id, Patched(old(t.rows)[k].fields, patch))))
              && t.rows == old(t.rows)[k := r.value.value]
    ensures r.Ok? && r.value.Some? ==> GetObjById(t, id) == r.value
  {
    match IndexOf(t.rows, id) {
      case None =>
        return Ok(None);
      case Some(k) =>
        var f := ApplyPatch(t.rows[k].fields, patch);
        if fault {
          return Err(StatementError);
        }
        t.PutAt(k, f);
        IndexUnique(t.rows, id, k);
        r := Ok(Some(Row(id, f)));
    }
  }
}
