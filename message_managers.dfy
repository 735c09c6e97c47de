/** The messages table itself: an append-only log whose ids the database assigns. */
module MessageDb {
  import opened MessageLog

  class MessageTable {
    var log: seq<Message>

    ghost predicate Valid()
      reads this
    {
      NumberedLog(log)
    }

    constructor ()
      ensures Valid() && log == []
    {
      log := [];
    }

    /** `session.add(message); commit(); refresh(message)`: the row is appended with
        the next id and the database's timestamp `now`. */
    method Insert(sender: int, receiver: int, text: string, now: nat) returns (m: Message)
      requires Valid()
      modifies this
      ensures Valid()
      ensures log == old(log) + [m]
      ensures m == Message(|old(log)| + 1, sender, receiver, text, now)
    {
      m := Message(|log| + 1, sender, receiver, text, now);
      log := log + [m];
    }
  }
}

/** app/database/managers/message_manager.py: the asynchronous message manager. */
module AppMessageManager {
  import opened Wrappers
  import opened Errors
  import opened MessageLog
  import opened Users
  import opened MessageDb

  /** `save_message`: one message is appended with the given sender, receiver and text;
      a storage failure (`fault`) rolls back and surfaces as `DatabaseError`. */
  method SaveMessage(t: MessageTable, sender: int, receiver: int, text: string, now: nat, fault: bool)
    returns (r: Result<Message, Error>)
    requires t.Valid()
    modifies t
    ensures t.Valid()
    ensures fault ==> r == Err(DatabaseError) && t.log == old(t.log)
    ensures !fault ==> r.Ok? && t.log == old(t.log) + [r.value]
    ensures r.Ok? ==> r.value.senderId == sender && r.value.receiverId == receiver && r.value.text == text
    ensures r.Ok? ==> forall m :: m in old(t.log) ==> m.id != r.value.id
  {
    if fault {
      return Err(DatabaseError);
    }
    var m := t.Insert(sender, receiver, text, now);
    r := Ok(m);
  }

  /** `get_history(a, b)`. */
  function GetHistory(t: MessageTable, a: int, b: int): (r: seq<Message>)
    reads t
    ensures forall m :: m in r <==> m in t.log && InPair(m, a, b)
    ensures multiset(r) == multiset(Between(t.log, a, b))
    ensures forall i, j :: 0 <= i < j < |r| ==> r[i].timestamp <= r[j].timestamp
  {
    HistoryExact(t.log, a, b);
    History(t.log, a, b)
  }

  /** `get_chats(u)`. */
  function GetChats(t: MessageTable, u: int): (r: seq<Message>)
    reads t
    ensures forall m :: m in r <==> m in t.log && Involves(m, u)
    ensures multiset(r) == multiset(Involving(t.log, u))
    ensures forall i, j :: 0 <= i < j < |r| ==> r[i].timestamp >= r[j].timestamp
  {
    ChatsExact(t.log, u);
    Chats(t.log, u)
  }

  /** `get_last_message(first_login, second_login)`. An unknown login never reaches the
      `is None` test: the login lookup itself raises, and this call reports
      `DatabaseError`. */
  function GetLastMessage(t: MessageTable, users: seq<User>, first: string, second: string)
    : (r: Result<Option<Message>, Error>)
    reads t
    ensures r.Err? <==> AppIdByLogin(users, first).Err? || AppIdByLogin(users, second).Err?
    ensures r.Err? ==> r.error == DatabaseError
    ensures r.Ok? ==>
              var a := AppIdByLogin(users, first).value;
              var b := AppIdByLogin(users, second).value;
              && (r.value.None? <==> forall m :: m in t.log ==> !InPair(m, a, b))
              && (r.value.Some? ==>
                    && r.value.value in t.log && InPair(r.value.value, a, b)
                    && forall m :: m in t.log && InPair(m, a, b) ==> m.timestamp <= r.value.value.timestamp)
  {
    match AppIdByLogin(users, first)
    case Err(_) => Err(DatabaseError)
    case Ok(a) =>
      match AppIdByLogin(users, second)
      case Err(_) => Err(DatabaseError)
      case Ok(b) =>
        LatestSpec(t.log, a, b);
        Ok(Latest(t.log, a, b))
  }
}

/** database/managers/message_manager.py: the synchronous message manager the socket
    gateway uses. */
module SyncMessageManager {
  import opened Wrappers
  import opened MessageLog
  import opened Users
  import opened MessageDb

  /** `save_message`: appends one message with the given sender, receiver and text and
      returns it. */
  method SaveMessage(t: MessageTable, sender: int, receiver: int, text: string, now: nat)
    returns (m: Message)
    requires t.Valid()
    modifies t
    ensures t.Valid()
    ensures t.log == old(t.log) + [m]
    ensures m.senderId == sender && m.receiverId == receiver && m.text == text && m.timestamp == now
    ensures forall m' :: m' in old(t.log) ==> m'.id != m.id
  {
    m := t.Insert(sender, receiver, text, now);
  }

  /** `get_history(a, b)`: the messages between the two ids in either direction. */
  function GetHistory(t: MessageTable, a: int, b: int): (r: seq<Message>)
    reads t
    ensures forall m :: m in r <==> m in t.log && InPair(m, a, b)
    ensures multiset(r) == multiset(History(t.log, b, a))
    ensures forall i, j :: 0 <= i < j < |r| ==> r[i].timestamp <= r[j].timestamp
  {
    HistoryExact(t.log, a, b);
    HistorySymmetric(t.log, a, b);
    History(t.log, a, b)
  }

  /** `get_chats(u)`. */
  function GetChats(t: MessageTable, u: int): (r: seq<Message>)
    reads t
    ensures forall m :: m in r <==> m in t.log && Involves(m, u)
    ensures multiset(r) == multiset(Involving(t.log, u))
    ensures forall i, j :: 0 <= i < j < |r| ==> r[i].timestamp >= r[j].timestamp
  {
    ChatsExact(t.log, u);
    Chats(t.log, u)
  }

  /** `get_last_message(first_login, second_login)`. An unknown login gives the id
      `None`; comparing the non-nullable id columns with it matches no row, so the
      answer is `None`. */
  function GetLastMessage(t: MessageTable, users: seq<User>, first: string, second: string)
    : (r: Option<Message>)
    reads t
    ensures SyncIdByLogin(users, first).None? || SyncIdByLogin(users, second).None? ==> r.None?
    ensures r.Some? ==>
              var a := SyncIdByLogin(users, first).value;
              var b := SyncIdByLogin(users, second).value;
              && r.value in t.log && InPair(r.value, a, b)
              && forall m :: m in t.log && InPair(m, a, b) ==> m.timestamp <= r.value.timestamp
    ensures SyncIdByLogin(users, first).Some? && SyncIdByLogin(users, second).Some? && r.None? ==>
              forall m :: m in t.log ==>
                !InPair(m, SyncIdByLogin(users, first).value, SyncIdByLogin(users, second).value)
  {
    match (SyncIdByLogin(users, first), SyncIdByLogin(users, second))
    case (Some(a), Some(b)) =>
      LatestSpec(t.log, a, b);
      Latest(t.log, a, b)
    case _ => None
  }
}
