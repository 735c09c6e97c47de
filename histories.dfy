/** The histories table seen through its `author_id` column, shared by both history
    managers. The joined author, which both managers serialise alongside each
    history, is not part of the rows. */
module HistoryRows {
  import opened Records

  /** `History.author_id == author_id`. */
  predicate AuthoredBy(row: Row, author: int)
  {
    "author_id" in row.fields && row.fields["author_id"] == VInt(author)
  }

  /** `select(History).where(History.author_id == author)`, in storage order. */
  function ByAuthor(rows: seq<Row>, author: int): seq<Row>
  {
    if rows == [] then []
    else ByAuthor(rows[..|rows| - 1], author) + (if AuthoredBy(rows[|rows| - 1], author) then [rows[|rows| - 1]] else [])
  }

  /** The author's histories are exactly the rows with that `author_id`. */
  lemma {:induction false} ByAuthorMembers(rows: seq<Row>, author: int)
    ensures forall r :: r in ByAuthor(rows, author) <==> r in rows && AuthoredBy(r, author)
  {
    if rows != [] {
      ByAuthorMembers(rows[..|rows| - 1], author);
      assert rows == rows[..|rows| - 1] + [rows[|rows| - 1]];
    }
  }

  /** Filtering keeps storage order, so the ids of the author's histories still
      increase. */
  lemma {:induction false} ByAuthorAscending(rows: seq<Row>, author: int)
    ensures Ascending(rows) ==> Ascending(ByAuthor(rows, author))
  {
    if rows != [] && Ascending(rows) {
      var init := rows[..|rows| - 1];
      var last := rows[|rows| - 1];
      assert Ascending(init);
      ByAuthorAscending(init, author);
      ByAuthorMembers(init, author);
      var f := ByAuthor(init, author);
      if AuthoredBy(last, author) {
        var g := f + [last];
        forall i, j | 0 <= i < j < |g| ensures g[i].id < g[j].id {
          assert g[i] == f[i];
          if j == |f| {
            assert f[i] in init;
            var k :| 0 <= k < |init| && init[k] == f[i];
          } else {
            assert g[j] == f[j];
          }
        }
      }
    }
  }
}

/** app/database/managers/history_manager.py: the asynchronous history manager.
    Every failure, including its own `HistoryNotFoundError`, leaves the `try` as
    `DatabaseError`. */
module AppHistory {
  import opened Wrappers
  import opened Errors
  import opened Records
  import opened HistoryRows

  /** `_get_histories_by_author_id(author)`. */
  function HistoriesOf(t: Table, author: int): (r: seq<Row>)
    reads t
    ensures forall h :: h in r <==> h in t.rows && AuthoredBy(h, author)
    ensures t.Valid() ==> Ascending(r)
  {
    ByAuthorMembers(t.rows, author);
    ByAuthorAscending(t.rows, author);
    ByAuthor(t.rows, author)
  }

  /** `get_histories_by_author_id(author, skip, limit)`: the author's histories from
      position skip on (a negative skip counts as 0), at most limit of them (a
      negative limit is no bound); an author with none gets the empty list, not an
      error. */
  function HistoriesByAuthorId(t: Table, author: int, skip: int, limit: int): (r: seq<Row>)
    reads t
    ensures forall h :: h in r ==> h in t.rows && AuthoredBy(h, author)
    ensures limit >= 0 ==> |r| <= limit
    ensures var n := |HistoriesOf(t, author)|;
            && (Offset(skip) >= n || limit == 0 ==> r == [])
            && (Offset(skip) < n && limit != 0 ==>
                  |r| == if limit < 0 || Offset(skip) + limit > n then n - Offset(skip) else limit)
    ensures forall i :: 0 <= i < |r| ==>
              Offset(skip) + i < |HistoriesOf(t, author)| && r[i] == HistoriesOf(t, author)[Offset(skip) + i]
    ensures (forall h :: h in t.rows ==> !AuthoredBy(h, author)) ==> r == []
    ensures t.Valid() ==> Ascending(r)
  {
    var mine := HistoriesOf(t, author);
    var page := SqlPage(mine, skip, limit);
    assert forall h :: h in page ==> h in mine;
    assert mine == [] ==> page == [];
    assert mine != [] ==> mine[0] in t.rows;
    page
  }

  /** `get_history_by_id_with_author(id)`: the history, or `None` for an absent id. */
  function HistoryByIdWithAuthor(t: Table, id: int): (r: Option<Row>)
    reads t
    ensures r.Some? ==> r.value in t.rows && r.value.id == id
    ensures r.None? <==> forall i :: 0 <= i < |t.rows| ==> t.rows[i].id != id
  {
    Find(t.rows, id)
  }

  /** `create_history_with_response(history)`: the history is stored and read back by
      its new id. A storage failure raises `DatabaseError` and stores nothing. */
  method CreateHistoryWithResponse(t: Table, fields: Fields, fault: bool) returns (r: Result<Row, Error>)
    requires t.Valid()
    modifies t
    ensures t.Valid()
    ensures fault ==> r == Err(DatabaseError) && t.rows == old(t.rows) && t.nextId == old(t.nextId)
    ensures !fault ==> r == Ok(Row(old(t.nextId), fields["id" := VInt(old(t.nextId))]))
    ensures !fault ==> t.rows == old(t.rows) + [r.value] && t.nextId == old(t.nextId) + 1
    ensures r.Ok? ==> HistoryByIdWithAuthor(t, r.value.id) == Some(r.value)
  {
    if fault {
      return Err(DatabaseError);
    }
    var row := t.Add(fields);
    IndexUnique(t.rows, row.id, |t.rows| - 1);
    var back := HistoryByIdWithAuthor(t, row.id);
    r := Ok(back.value);
  }

  /** `delete_history_with_response(id)`: an absent id raises `HistoryNotFoundError`
      inside the `try`, which re-raises it as `DatabaseError`; nothing changes.
      Otherwise the history is removed and returned as it was. */
  method DeleteHistoryWithResponse(t: Table, id: int) returns (r: Result<Row, Error>)
    requires t.Valid()
    modifies t
    ensures t.Valid()
    ensures t.nextId == old(t.nextId)
    ensures IndexOf(old(t.rows), id).None? ==> r == Err(DatabaseError) && t.rows == old(t.rows)
    ensures IndexOf(old(t.rows), id).Some? ==>
              var k := IndexOf(old(t.rows), id).value;
              && r == Ok(old(t.rows)[k])
              && t.rows == old(t.rows)[..k] + old(t.rows)[k + 1..]
    ensures HistoryByIdWithAuthor(t, id).None?
    ensures forall other :: other != id ==> HistoryByIdWithAuthor(t, other) == old(HistoryByIdWithAuthor(t, other))
  {
    match IndexOf(t.rows, id) {
      case None =>
        return Err(DatabaseError);
      case Some(k) =>
        r := Ok(t.rows[k]);
        RemovedExactly(t.rows, k);
        t.DeleteAt(k);
    }
  }
}

/** database/managers/history_manager.py: the synchronous history manager. */
module SyncHistory {
  import opened Wrappers
  import opened Errors
  import opened Records
  import opened Users
  import opened HistoryRows

  /** `AuthorOut`: the author's id and login. */
  datatype Author = Author(id: int, login: string)

  /** `HistoryOut`: a history together with its joined author, `None` when no user
      matches its `author_id`. */
  datatype HistoryOut = HistoryOut(history: Row, author: Option<Author>)

  /** `joinedload(History.author)` for one history: the user whose id is the
      history's `author_id`. */
  function JoinedAuthor(users: seq<User>, h: Row): (a: Option<Author>)
    ensures a.Some? <==> exists u :: u in users && AuthoredBy(h, u.id)
    ensures a.Some? ==> exists u :: u in users && AuthoredBy(h, u.id) && a.value == Author(u.id, u.login)
  {
    if "author_id" in h.fields && h.fields["author_id"].VInt? then
      match FindById(users, h.fields["author_id"].i)
      case None => None
      case Some(u) => Some(Author(u.id, u.login))
    else None
  }

  /** In a well-formed users table the joined author is the history's own author. */
  lemma AuthorIsTheAuthor(users: seq<User>, h: Row, u: User)
    requires WellFormed(users) && u in users && AuthoredBy(h, u.id)
    ensures JoinedAuthor(users, h) == Some(Author(u.id, u.login))
  {
    FindOwnId(users, u);
  }

  /** `get_histories_with_authors()`: one entry per stored history, in storage order,
      each paired with its joined author. */
  function HistoriesWithAuthors(t: Table, users: seq<User>): (r: seq<HistoryOut>)
    reads t
    ensures |r| == |t.rows|
    ensures forall i :: 0 <= i < |r| ==> r[i].history == t.rows[i]
    ensures forall i :: 0 <= i < |r| ==>
              (r[i].author.Some? <==> exists u :: u in users && AuthoredBy(t.rows[i], u.id))
    ensures forall i :: 0 <= i < |r| && r[i].author.Some? ==>
              exists u :: u in users && AuthoredBy(t.rows[i], u.id) && r[i].author.value == Author(u.id, u.login)
  {
    var rows := t.rows;
    seq(|rows|, i requires 0 <= i < |rows| => HistoryOut(rows[i], JoinedAuthor(users, rows[i])))
  }

  /** `get_history_by_id_with_author(id)`: `query.get(id)`, or `None`. */
  function HistoryByIdWithAuthor(t: Table, id: int): (r: Option<Row>)
    reads t
    ensures r.Some? ==> r.value in t.rows && r.value.id == id
    ensures r.None? <==> forall i :: 0 <= i < |t.rows| ==> t.rows[i].id != id
  {
    Find(t.rows, id)
  }

  /** `create_history_with_response(history)`: the history is stored and read back by
      its new id. A commit the database refuses (`fault`) raises out of the call
      uncaught and stores nothing. */
  method CreateHistoryWithResponse(t: Table, fields: Fields, fault: bool) returns (r: Result<Row, Error>)
    requires t.Valid()
    modifies t
    ensures t.Valid()
    ensures fault ==> r == Err(StatementError) && t.rows == old(t.rows) && t.nextId == old(t.nextId)
    ensures !fault ==> r == Ok(Row(old(t.nextId), fields["id" := VInt(old(t.nextId))]))
    ensures !fault ==> t.rows == old(t.rows) + [r.value] && t.nextId == old(t.nextId) + 1
    ensures r.Ok? ==> HistoryByIdWithAuthor(t, r.value.id) == Some(r.value)
  {
    if fault {
      return Err(StatementError);
    }
    var added := t.Add(fields);
    IndexUnique(t.rows, added.id, |t.rows| - 1);
    r := Ok(HistoryByIdWithAuthor(t, added.id).value);
  }

  /** `delete_history_with_response(id)`: `None` and no change for an absent id;
      otherwise the history as it was before the deletion, which removes it. */
  method DeleteHistoryWithResponse(t: Table, id: int) returns (r: Option<Row>)
    requires t.Valid()
    modifies t
    ensures t.Valid()
    ensures t.nextId == old(t.nextId)
    ensures IndexOf(old(t.rows), id).None? ==> r.None? && t.rows == old(t.rows)
    ensures IndexOf(old(t.rows), id).Some? ==>
              var k := IndexOf(old(t.rows), id).value;
              && r == Some(old(t.rows)[k])
              && t.rows == old(t.rows)[..k] + old(t.rows)[k + 1..]
    ensures HistoryByIdWithAuthor(t, id).None?
  {
    var found := HistoryByIdWithAuthor(t, id);
    if found.None? {
      return None;
    }
    var k := IndexOf(t.rows, id).value;
    r := Some(t.rows[k]);
    RemovedExactly(t.rows, k);
    t.DeleteAt(k);
  }
}
