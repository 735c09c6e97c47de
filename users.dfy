/**
 * The users table, read by the chat-list routes, the message managers and the
 * authorization chains. Only the columns these read are kept.
 */
module Users {
  import opened Wrappers
  import opened Errors

  datatype User = User(id: int, login: string, about: Option<string>, avatarUrl: Option<string>)

  /** Primary keys are distinct and `login` is declared `unique=True`. */
  predicate WellFormed(users: seq<User>)
  {
    forall i, j :: 0 <= i < j < |users| ==> users[i].id != users[j].id && users[i].login != users[j].login
  }

  /** `query(User).filter(User.id == id).first()`. */
  function FindById(users: seq<User>, id: int): (r: Option<User>)
    ensures r.Some? ==> r.value in users && r.value.id == id
    ensures r.None? <==> forall u :: u in users ==> u.id != id
  {
    if users == [] then None
    else if users[0].id == id then Some(users[0])
    else FindById(users[1..], id)
  }

  /** `query(User).filter(User.login == login).first()`. */
  function FindByLogin(users: seq<User>, login: string): (r: Option<User>)
    ensures r.Some? ==> r.value in users && r.value.login == login
    ensures r.None? <==> forall u :: u in users ==> u.login != login
  {
    if users == [] then None
    else if users[0].login == login then Some(users[0])
    else FindByLogin(users[1..], login)
  }

  /** In a well-formed table a user is found by its own login. */
  lemma {:induction false} FindOwnLogin(users: seq<User>, u: User)
    requires WellFormed(users) && u in users
    ensures FindByLogin(users, u.login) == Some(u)
  {
    if users[0] != u {
      assert users[0].login != u.login by {
        var k :| 0 <= k < |users| && users[k] == u;
      }
      assert WellFormed(users[1..]) by {
        forall i, j | 0 <= i < j < |users| - 1
          ensures users[1..][i].id != users[1..][j].id && users[1..][i].login != users[1..][j].login
        {
          assert users[1..][i] == users[i + 1] && users[1..][j] == users[j + 1];
        }
      }
      FindOwnLogin(users[1..], u);
    }
  }

  /** In a well-formed table a user is found by its own id. */
  lemma {:induction false} FindOwnId(users: seq<User>, u: User)
    requires WellFormed(users) && u in users
    ensures FindById(users, u.id) == Some(u)
  {
    if users[0] != u {
      assert users[0].id != u.id by {
        var k :| 0 <= k < |users| && users[k] == u;
      }
      assert WellFormed(users[1..]) by {
        forall i, j | 0 <= i < j < |users| - 1
          ensures users[1..][i].id != users[1..][j].id && users[1..][i].login != users[1..][j].login
        {
          assert users[1..][i] == users[i + 1] && users[1..][j] == users[j + 1];
        }
      }
      FindOwnId(users[1..], u);
    }
  }

  /** The synchronous `UserManager.get_user_id_by_login`: the id, or `None` for an
      unknown login (database/managers/user_manager.py:14-20). */
  function SyncIdByLogin(users: seq<User>, login: string): (r: Option<int>)
    ensures r.None? <==> forall u :: u in users ==> u.login != login
    ensures r.Some? ==> exists u :: u in users && u.login == login && u.id == r.value
  {
    match FindByLogin(users, login)
    case None => None
    case Some(u) => Some(u.id)
  }

  /** The asynchronous `UserManager.get_user_id_by_login`: an unknown login raises
      `UserNotFoundError`, which both enclosing handlers turn into `DatabaseError`
      (app/database/managers/user_manager.py:29-51). */
  function AppIdByLogin(users: seq<User>, login: string): (r: Result<int, Error>)
    ensures r.Err? <==> forall u :: u in users ==> u.login != login
    ensures r.Err? ==> r.error == DatabaseError
    ensures r.Ok? ==> exists u :: u in users && u.login == login && u.id == r.value
  {
    match FindByLogin(users, login)
    case None => Err(DatabaseError)
    case Some(u) => Ok(u.id)
  }
}
