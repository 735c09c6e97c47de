/**
 * What both generations' request dependencies share: cookies, the owner column of
 * each owned kind of record, and `getattr(obj, column, None)`.
 */
module Access {
  import opened Wrappers
  import opened Errors
  import opened Records

  /** `request.cookies.get(name)` is truthy: present and not empty. */
  predicate HasCookie(cookie: Option<string>)
  {
    cookie.Some? && cookie.value != ""
  }

  /** The three kinds of record a user owns. */
  datatype Kind = Comment | History | Like

  /** The attribute naming the owner: comments and likes have `user_id`, histories
      `author_id`. */
  function OwnerColumn(k: Kind): string
  {
    match k
    case Comment => "user_id"
    case History => "author_id"
    case Like => "user_id"
  }

  /** `getattr(obj, column, None)`: a missing attribute and a NULL column both read as
      `None`. */
  function Owner(obj: Row, column: string): Value
  {
    if column in obj.fields then obj.fields[column] else VNull
  }

  /** `owner != user.id` is false exactly for an integer owner equal to the id; an
      owner stored as a string never equals an integer id. */
  predicate OwnedBy(obj: Row, k: Kind, userId: int)
  {
    Owner(obj, OwnerColumn(k)) == VInt(userId)
  }

  /** The app's not-found exception for each kind. */
  function NotFound(k: Kind): (e: Error)
    ensures Status(e) == 404
  {
    match k
    case Comment => CommentNotFoundError
    case History => HistoryNotFoundError
    case Like => LikeNotFoundError
  }

  /** The app's ownership exception for each kind. */
  function NotOwner(k: Kind): (e: Error)
    ensures Status(e) == 403
  {
    match k
    case Comment => OwnershipCommentError
    case History => OwnershipHistoryError
    case Like => OwnershipLikeError
  }

  /** Distinct kinds report distinct errors. */
  lemma KindErrorsDistinct(k1: Kind, k2: Kind)
    ensures NotFound(k1) == NotFound(k2) <==> k1 == k2
    ensures NotOwner(k1) == NotOwner(k2) <==> k1 == k2
    ensures NotFound(k1) != NotOwner(k2)
  {
  }

  /** At most one user owns a record. */
  lemma OwnerUnique(obj: Row, k: Kind, a: int, b: int)
    requires OwnedBy(obj, k, a) && OwnedBy(obj, k, b)
    ensures a == b
  {
  }
}

/**
 * app/api/dependencies/auth.py: the app's authentication dependencies, over the
 * asynchronous user manager, whose `get_obj_by_id` turns a missing user into
 * `DatabaseError`.
 */
module AppAuth {
  import opened Wrappers
  import opened Errors
  import opened PyText
  import opened Records
  import opened Tokens
  import opened Access
  import AppBase

  /** The token part of both dependencies: no cookie raises `PermissionError`; a
      token that does not decode, has a falsy `sub` (`decode_token` raises the app's
      `ValidationError`, which passes the `except` unchanged), or whose `sub` is no
      integer raises `ValidationError`. The `sub is None` test is never reached with
      `None`, since `decode_token` returns only truthy subjects. */
  function TokenUserId(cookie: Option<string>, decoded: Decoded): (r: Result<int, Error>)
    ensures !HasCookie(cookie) ==> r == Err(PermissionError)
    ensures HasCookie(cookie) ==> match SubjectId(decoded)
                                  case None => r == Err(ValidationError)
                                  case Some(n) => r == Ok(n)
  {
    if !HasCookie(cookie) then Err(PermissionError)
    else
      match DecodeToken(decoded)
      case JwtFailure => Err(ValidationError)
      case NoSubject => Err(ValidationError)
      case Payload(sub) =>
        match PyInt(sub)
        case None => Err(ValidationError)
        case Some(n) => Ok(n)
  }

  /** `get_current_user(request)`: the user the access token names. The lookup's
      `except UserNotFoundError` never fires, because the manager reports a missing
      user as `DatabaseError`, which passes through. */
  function GetCurrentUser(cookie: Option<string>, decoded: Decoded, users: Table): (r: Result<Row, Error>)
    reads users
    ensures r.Ok? <==> HasCookie(cookie) && SubjectId(decoded).Some? && Find(users.rows, SubjectId(decoded).value).Some?
    ensures r.Ok? ==> r.value in users.rows && r.value.id == SubjectId(decoded).value
    ensures !HasCookie(cookie) ==> r == Err(PermissionError)
    ensures HasCookie(cookie) && SubjectId(decoded).None? ==> r == Err(ValidationError)
    ensures HasCookie(cookie) && SubjectId(decoded).Some? && Find(users.rows, SubjectId(decoded).value).None? ==>
              r == Err(DatabaseError)
    ensures r != Err(UserNotFoundError)
  {
    match TokenUserId(cookie, decoded)
    case Err(e) => Err(e)
    case Ok(userId) =>
      match AppBase.GetObjById(users, userId)
      case Err(e) => Err(e)
      case Ok(user) => Ok(user)
  }

  /** `validate_refresh_token(request)`: the id the refresh token names, provided that
      user exists; the errors are those of `get_current_user`. */
  function ValidateRefreshToken(cookie: Option<string>, decoded: Decoded, users: Table): (r: Result<int, Error>)
    reads users
    ensures r.Ok? <==> HasCookie(cookie) && SubjectId(decoded).Some? && Find(users.rows, SubjectId(decoded).value).Some?
    ensures r.Ok? ==> r.value == SubjectId(decoded).value
    ensures !HasCookie(cookie) ==> r == Err(PermissionError)
    ensures HasCookie(cookie) && SubjectId(decoded).None? ==> r == Err(ValidationError)
    ensures HasCookie(cookie) && SubjectId(decoded).Some? && Find(users.rows, SubjectId(decoded).value).None? ==>
              r == Err(DatabaseError)
  {
    match TokenUserId(cookie, decoded)
    case Err(e) => Err(e)
    case Ok(userId) =>
      match AppBase.GetObjById(users, userId)
      case Err(e) => Err(e)
      case Ok(_) => Ok(userId)
  }

  /** The two dependencies accept the same cookies and fail the same way: the refresh
      check passes with id n exactly when the access check returns the user n. */
  lemma RefreshAgreesWithCurrent(cookie: Option<string>, decoded: Decoded, users: Table)
    ensures ValidateRefreshToken(cookie, decoded, users).Ok? <==> GetCurrentUser(cookie, decoded, users).Ok?
    ensures GetCurrentUser(cookie, decoded, users).Ok? ==>
              ValidateRefreshToken(cookie, decoded, users).value == GetCurrentUser(cookie, decoded, users).value.id
    ensures GetCurrentUser(cookie, decoded, users).Err? ==>
              ValidateRefreshToken(cookie, decoded, users).error == GetCurrentUser(cookie, decoded, users).error
  {
  }

  /** A token minted for a stored user (`{"sub": str(user.id)}`) gets that user back. */
  lemma MintedTokenAccepted(cookie: Option<string>, users: Table, user: Row)
    requires HasCookie(cookie)
    requires Ascending(users.rows) && user in users.rows
    ensures GetCurrentUser(cookie, Claims(Some(JStr(Render(user.id)))), users) == Ok(user)
    ensures ValidateRefreshToken(cookie, Claims(Some(JStr(Render(user.id)))), users) == Ok(user.id)
  {
    SubjectOfMinted(user.id);
    var k :| 0 <= k < |users.rows| && users.rows[k] == user;
    IndexUnique(users.rows, user.id, k);
  }
}

/**
 * app/api/dependencies/ownership.py: fetch a record by id through the asynchronous
 * manager and check that the current user owns it.
 */
module AppOwnership {
  import opened Wrappers
  import opened Errors
  import opened Records
  import opened Access
  import AppBase

  /** The shared body of the three checks. The manager raises `DatabaseError` for a
      missing id, so the `if not obj` branch and its not-found error are never
      reached (a model object is always truthy). A record without an owner raises
      `UserNotFoundError`; one owned by someone else the kind's ownership error. */
  function OwnedOrError(k: Kind, t: Table, id: int, user: Row): (r: Result<Row, Error>)
    reads t
    ensures r.Ok? <==> Find(t.rows, id).Some? && OwnedBy(Find(t.rows, id).value, k, user.id)
    ensures r.Ok? ==> r.value in t.rows && r.value.id == id
    ensures Find(t.rows, id).None? ==> r == Err(DatabaseError)
    ensures Find(t.rows, id).Some? && Owner(Find(t.rows, id).value, OwnerColumn(k)) == VNull ==>
              r == Err(UserNotFoundError)
    ensures Find(t.rows, id).Some? && Owner(Find(t.rows, id).value, OwnerColumn(k)) != VNull &&
            !OwnedBy(Find(t.rows, id).value, k, user.id) ==>
              r == Err(NotOwner(k)) && Status(r.error) == 403
    ensures r != Err(NotFound(k))
  {
    match AppBase.GetObjById(t, id)
    case Err(e) => Err(e)
    case Ok(obj) =>
      var owner := Owner(obj, OwnerColumn(k));
      if owner == VNull then Err(UserNotFoundError)
      else if owner != VInt(user.id) then Err(NotOwner(k))
      else Ok(obj)
  }

  /** `get_comment_or_error(id, user)`. */
  function GetCommentOrError(t: Table, id: int, user: Row): (r: Result<Row, Error>)
    reads t
    ensures r.Ok? <==> Find(t.rows, id).Some? && Owner(Find(t.rows, id).value, "user_id") == VInt(user.id)
    ensures r.Err? ==> r.error in {DatabaseError, UserNotFoundError, OwnershipCommentError}
  {
    OwnedOrError(Comment, t, id, user)
  }

  /** `get_history_or_error(id, user)`. */
  function GetHistoryOrError(t: Table, id: int, user: Row): (r: Result<Row, Error>)
    reads t
    ensures r.Ok? <==> Find(t.rows, id).Some? && Owner(Find(t.rows, id).value, "author_id") == VInt(user.id)
    ensures r.Err? ==> r.error in {DatabaseError, UserNotFoundError, OwnershipHistoryError}
  {
    OwnedOrError(History, t, id, user)
  }

  /** `get_like_or_error(id, user)`. */
  function GetLikeOrError(t: Table, id: int, user: Row): (r: Result<Row, Error>)
    reads t
    ensures r.Ok? <==> Find(t.rows, id).Some? && Owner(Find(t.rows, id).value, "user_id") == VInt(user.id)
    ensures r.Err? ==> r.error in {DatabaseError, UserNotFoundError, OwnershipLikeError}
  {
    OwnedOrError(Like, t, id, user)
  }

  /** Of any two users, at most one passes the check for the same record. */
  lemma OnlyTheOwnerPasses(k: Kind, t: Table, id: int, a: Row, b: Row)
    requires OwnedOrError(k, t, id, a).Ok? && OwnedOrError(k, t, id, b).Ok?
    ensures a.id == b.id
  {
    OwnerUnique(Find(t.rows, id).value, k, a.id, b.id);
  }
}

/**
 * api/routers/dependencies.py: the first generation's dependencies. They answer with
 * bare `HTTPException`s, and they `await` the synchronous managers.
 */
module RootDeps {
  import opened Wrappers
  import opened Errors
  import opened PyText
  import opened Records
  import opened Tokens
  import opened Access
  import SyncBase
  import AppAuth
  import AppOwnership

  /** `await v` where v is what a synchronous method returned: neither a model object
      nor `None` can be awaited, so Python raises `TypeError`. */
  function AwaitPlain<T, U>(v: T): Result<U, Error>
  {
    Err(TypeError)
  }

  /** The token part of `get_current_user`: no cookie, a token that does not decode,
      a falsy `sub` (`decode_token` itself raises 401) and a `sub` that is no integer
      all answer 401. As in the app, the `sub is None` test never fires. */
  function AccessUserId(cookie: Option<string>, decoded: Decoded): (r: Result<int, Error>)
    ensures (!HasCookie(cookie) || SubjectId(decoded).None?) <==> r == Err(Http(401))
    ensures r.Ok? ==> HasCookie(cookie) && r == Ok(SubjectId(decoded).value)
  {
    if !HasCookie(cookie) then Err(Http(401))
    else
      match DecodeToken(decoded)
      case JwtFailure => Err(Http(401))
      case NoSubject => Err(Http(401))
      case Payload(sub) =>
        match PyInt(sub)
        case None => Err(Http(401))
        case Some(n) => Ok(n)
  }

  /** The token part of `validate_refresh_token`: `int(decode_token(token).get("sub")
      or 0)`. `decode_token` already refuses a falsy `sub`, so the `or 0` never
      applies and this reads the same id as the access path. */
  function RefreshUserId(cookie: Option<string>, decoded: Decoded): (r: Result<int, Error>)
    ensures r == AccessUserId(cookie, decoded)
  {
    if !HasCookie(cookie) then Err(Http(401))
    else
      match DecodeToken(decoded)
      case JwtFailure => Err(Http(401))
      case NoSubject => Err(Http(401))
      case Payload(sub) =>
        match PyInt(if Truthy(sub) then sub else JInt(0))
        case None => Err(Http(401))
        case Some(n) => Ok(n)
  }

  // ------------------------------------------------------------ as written

  /** `get_current_user(request)` as written: every request that gets past the token
      reaches `await user_manager.get_obj_by_id(...)` and stops there, so the
      `user is None` test after it is never reached. */
  function GetCurrentUserAsWritten(cookie: Option<string>, decoded: Decoded, users: Table): (r: Result<Row, Error>)
    reads users
  {
    match AccessUserId(cookie, decoded)
    case Err(e) => Err(e)
    case Ok(userId) => AwaitPlain(SyncBase.GetObjById(users, userId))
  }

  /** `validate_refresh_token(request)` as written: past the token, the awaited lookup
      raises before `if not user`. */
  function ValidateRefreshTokenAsWritten(cookie: Option<string>, decoded: Decoded, users: Table): (r: Result<int, Error>)
    reads users
  {
    match RefreshUserId(cookie, decoded)
    case Err(e) => Err(e)
    case Ok(userId) => AwaitPlain(SyncBase.GetObjById(users, userId))
  }

  /** `get_comment_or_error`, `get_history_or_error` and `get_like_or_error` as
      written: the first line awaits the lookup, so none of the checks after it is
      reached. */
  function OwnedOrErrorAsWritten(k: Kind, t: Table, id: int, user: Row): (r: Result<Row, Error>)
    reads t
  {
    AwaitPlain(SyncBase.GetObjById(t, id))
  }

  /** As written, no request with a valid token for an existing user is ever
      authenticated: each one answers 500 (`TypeError`), and so does every ownership
      check, even by the owner. */
  lemma AwaitOnSyncManagerFails(cookie: Option<string>, decoded: Decoded, users: Table, k: Kind, t: Table, id: int, user: Row)
    requires HasCookie(cookie) && SubjectId(decoded).Some?
    ensures GetCurrentUserAsWritten(cookie, decoded, users) == Err(TypeError)
    ensures ValidateRefreshTokenAsWritten(cookie, decoded, users) == Err(TypeError)
    ensures OwnedOrErrorAsWritten(k, t, id, user) == Err(TypeError)
    ensures Status(TypeError) == 500
  {
  }

  /** The same requests are accepted once the lookups are not awaited: a minted token
      for a stored user, and the owner of a stored record. */
  lemma AwaitedLookupRejectsValidRequest(cookie: Option<string>, users: Table, u: Row, k: Kind, t: Table, obj: Row)
    requires HasCookie(cookie)
    requires Ascending(users.rows) && u in users.rows
    requires Ascending(t.rows) && obj in t.rows && OwnedBy(obj, k, u.id)
    ensures GetCurrentUserAsWritten(cookie, Claims(Some(JStr(Render(u.id)))), users) == Err(TypeError)
    ensures GetCurrentUser(cookie, Claims(Some(JStr(Render(u.id)))), users) == Ok(u)
    ensures ValidateRefreshTokenAsWritten(cookie, Claims(Some(JStr(Render(u.id)))), users) == Err(TypeError)
    ensures ValidateRefreshToken(cookie, Claims(Some(JStr(Render(u.id)))), users) == Ok(u.id)
    ensures OwnedOrErrorAsWritten(k, t, obj.id, u) == Err(TypeError)
    ensures OwnedOrError(k, t, obj.id, u) == Ok(obj)
  {
    SubjectOfMinted(u.id);
    var i :| 0 <= i < |users.rows| && users.rows[i] == u;
    IndexUnique(users.rows, u.id, i);
    var j :| 0 <= j < |t.rows| && t.rows[j] == obj;
    IndexUnique(t.rows, obj.id, j);
  }

  // ------------------------------------------------------------ corrected

  /** `get_current_user(request)` with the synchronous lookup called, not awaited:
      401 for a missing or bad token, 404 for an unknown user, otherwise the user. */
  function GetCurrentUser(cookie: Option<string>, decoded: Decoded, users: Table): (r: Result<Row, Error>)
    reads users
    ensures r.Ok? <==> HasCookie(cookie) && SubjectId(decoded).Some? && Find(users.rows, SubjectId(decoded).value).Some?
    ensures r.Ok? ==> r.value in users.rows && r.value.id == SubjectId(decoded).value
    ensures (!HasCookie(cookie) || SubjectId(decoded).None?) ==> r == Err(Http(401))
    ensures HasCookie(cookie) && SubjectId(decoded).Some? && Find(users.rows, SubjectId(decoded).value).None? ==>
              r == Err(Http(404))
  {
    match AccessUserId(cookie, decoded)
    case Err(e) => Err(e)
    case Ok(userId) =>
      var user := SyncBase.GetObjById(users, userId);
      if user.None? then Err(Http(404)) else Ok(user.value)
  }

  /** `validate_refresh_token(request)` with the lookup not awaited: the id the token
      names when that user exists, and 401 for every failure, the unknown user
      included. */
  function ValidateRefreshToken(cookie: Option<string>, decoded: Decoded, users: Table): (r: Result<int, Error>)
    reads users
    ensures r.Ok? <==> HasCookie(cookie) && SubjectId(decoded).Some? && Find(users.rows, SubjectId(decoded).value).Some?
    ensures r.Ok? ==> r.value == SubjectId(decoded).value
    ensures r.Err? ==> r.error == Http(401)
  {
    match RefreshUserId(cookie, decoded)
    case Err(e) => Err(e)
    case Ok(userId) =>
      var user := SyncBase.GetObjById(users, userId);
      if user.None? then Err(Http(401)) else Ok(userId)
  }

  /** The ownership checks with the lookup not awaited: 404 for a missing record and
      for one without an owner, 403 for someone else's, otherwise the record. */
  function OwnedOrError(k: Kind, t: Table, id: int, user: Row): (r: Result<Row, Error>)
    reads t
    ensures r.Ok? <==> Find(t.rows, id).Some? && OwnedBy(Find(t.rows, id).value, k, user.id)
    ensures r.Ok? ==> r.value in t.rows && r.value.id == id
    ensures Find(t.rows, id).None? ==> r == Err(Http(404))
    ensures Find(t.rows, id).Some? && Owner(Find(t.rows, id).value, OwnerColumn(k)) == VNull ==> r == Err(Http(404))
    ensures Find(t.rows, id).Some? && Owner(Find(t.rows, id).value, OwnerColumn(k)) != VNull &&
            !OwnedBy(Find(t.rows, id).value, k, user.id) ==>
              r == Err(Http(403))
  {
    var found := SyncBase.GetObjById(t, id);
    if found.None? then Err(Http(404))
    else
      var owner := Owner(found.value, OwnerColumn(k));
      if owner == VNull then Err(Http(404))
      else if owner != VInt(user.id) then Err(Http(403))
      else Ok(found.value)
  }

  /** Both generations let the same requests through and hand back the same user and
      record; they differ only in the errors they answer with. */
  lemma SameAsApp(cookie: Option<string>, decoded: Decoded, users: Table, k: Kind, t: Table, id: int, user: Row)
    ensures GetCurrentUser(cookie, decoded, users).Ok? <==> AppAuth.GetCurrentUser(cookie, decoded, users).Ok?
    ensures GetCurrentUser(cookie, decoded, users).Ok? ==>
              GetCurrentUser(cookie, decoded, users) == AppAuth.GetCurrentUser(cookie, decoded, users)
    ensures ValidateRefreshToken(cookie, decoded, users).Ok? ==>
              ValidateRefreshToken(cookie, decoded, users) == AppAuth.ValidateRefreshToken(cookie, decoded, users)
    ensures OwnedOrError(k, t, id, user).Ok? <==> AppOwnership.OwnedOrError(k, t, id, user).Ok?
    ensures OwnedOrError(k, t, id, user).Ok? ==> OwnedOrError(k, t, id, user) == AppOwnership.OwnedOrError(k, t, id, user)
  {
  }
}
