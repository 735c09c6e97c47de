/**
 * The two `GET /messages/chats` routes: each derives the distinct companions of a
 * user from the user's messages. app/api/routers/message.py attaches the latest
 * message of each conversation; api/routers/message.py returns the companions'
 * public profiles.
 */
module ChatLists {
  import opened Wrappers
  import opened Errors
  import opened MessageLog
  import opened Users
  import opened MessageDb
  import AppMessageManager
  import SyncMessageManager

  /** The other participant of u's message m: the receiver when u sent it, else the
      sender. A message u sent to itself makes u its own companion. */
  function Companion(m: Message, u: int): int
  {
    if m.senderId == u then m.receiverId else m.senderId
  }

  /** The ids of everyone u has exchanged at least one message with. */
  function CompanionSet(log: seq<Message>, u: int): set<int>
  {
    set m | m in Involving(log, u) :: Companion(m, u)
  }

  /** c is a companion of u exactly when some message is between u and c. */
  lemma CompanionIff(log: seq<Message>, u: int, c: int)
    ensures c in CompanionSet(log, u) <==> exists m :: m in log && InPair(m, u, c)
  {
    InvolvingMembers(log, u);
    if c in CompanionSet(log, u) {
      var m :| m in Involving(log, u) && Companion(m, u) == c;
      assert m in log && InPair(m, u, c);
    }
    if m :| m in log && InPair(m, u, c) {
      assert m in Involving(log, u) && Companion(m, u) == c;
    }
  }

  /** The chat list of a user who wrote to themselves contains themselves. */
  lemma SelfCompanion(log: seq<Message>, m: Message)
    requires m in log && m.senderId == m.receiverId
    ensures m.senderId in CompanionSet(log, m.senderId)
  {
    CompanionIff(log, m.senderId, m.senderId);
  }

  // ---------------------------------------------------------------- duplicates

  predicate Distinct(s: seq<int>)
  {
    forall i, j :: 0 <= i < j < |s| ==> s[i] != s[j]
  }

  /** `list(set(ids))`: each id once. The order is that of a Python set, which the
      source does not fix; this picks one. */
  function Dedup(s: seq<int>): (r: seq<int>)
    ensures Distinct(r)
    ensures forall x :: x in r <==> x in s
  {
    if s == [] then []
    else
      var rest := Dedup(s[1..]);
      if s[0] in rest then rest else [s[0]] + rest
  }

  lemma {:induction false} DistinctCard(s: seq<int>)
    requires Distinct(s)
    ensures |set x | x in s| == |s|
  {
    if s != [] {
      var t := s[1..];
      assert Distinct(t) by {
        forall i, j | 0 <= i < j < |t| ensures t[i] != t[j] {
          assert t[i] == s[i + 1] && t[j] == s[j + 1];
        }
      }
      DistinctCard(t);
      assert s[0] !in t by {
        forall k | 0 <= k < |t| ensures t[k] != s[0] {
          assert t[k] == s[k + 1];
        }
      }
      assert (set x | x in s) == (set x | x in t) + {s[0]} by {
        assert s == [s[0]] + t;
      }
    }
  }

  // ---------------------------------------------------------------- app generation

  /** One entry of the app route's answer (app/schemas/chat.py). */
  datatype ChatOut = ChatOut(
    companionLogin: string,
    companionAvatarUrl: Option<string>,
    lastMessage: string,
    lastMessageTime: nat,
    fromMe: bool)

  /** The entry built for companion `comp` from the latest message `last`; the
      `getattr` defaults apply when there is none (`str(None)`, the current time
      `now`, and `0 == user_id`). */
  function Entry(comp: User, last: Option<Message>, uid: int, now: nat): ChatOut
  {
    ChatOut(
      comp.login,
      comp.avatarUrl,
      if last.Some? then last.value.text else "None",
      if last.Some? then last.value.timestamp else now,
      (if last.Some? then last.value.senderId else 0) == uid)
  }

  /** The entry the route files for companion id c. */
  function EntryFor(log: seq<Message>, users: seq<User>, uid: int, c: int, now: nat): ChatOut
    requires FindById(users, c).Some?
  {
    Entry(FindById(users, c).value, Latest(log, uid, c), uid, now)
  }

  /** For a real companion, the entry carries the text of a latest message of the
      conversation, and `from_me` says whether the user sent that message. */
  lemma EntryForCompanion(log: seq<Message>, users: seq<User>, uid: int, c: int, now: nat)
    requires c in CompanionSet(log, uid) && FindById(users, c).Some?
    ensures Latest(log, uid, c).Some?
    ensures var m := Latest(log, uid, c).value;
            var e := EntryFor(log, users, uid, c, now);
            && m in log && InPair(m, uid, c)
            && (forall m' :: m' in log && InPair(m', uid, c) ==> m'.timestamp <= m.timestamp)
            && e.lastMessage == m.text
            && e.lastMessageTime == m.timestamp
            && (e.fromMe <==> m.senderId == uid)
            && e.companionLogin == FindById(users, c).value.login
  {
    CompanionIff(log, uid, c);
    LatestSpec(log, uid, c);
  }

  /** Distinct companions of a well-formed users table have distinct logins. */
  lemma {:induction false} LoginsDistinct(users: seq<User>, a: int, b: int)
    requires WellFormed(users) && FindById(users, a).Some? && FindById(users, b).Some?
    requires a != b
    ensures FindById(users, a).value.login != FindById(users, b).value.login
  {
    var ua, ub := FindById(users, a).value, FindById(users, b).value;
    var i :| 0 <= i < |users| && users[i] == ua;
    var j :| 0 <= j < |users| && users[j] == ub;
    assert i != j;
  }

  /** e is the entry the route files for companion id c. */
  ghost predicate EntryOf(log: seq<Message>, users: seq<User>, uid: int, now: nat, c: int, e: ChatOut)
  {
    FindById(users, c).Some? && e == EntryFor(log, users, uid, c, now)
  }

  /** `out` holds exactly one entry per companion in `cs`, each built from that
      companion's conversation. */
  ghost predicate OneEntryEach(log: seq<Message>, users: seq<User>, uid: int, now: nat, cs: set<int>, out: seq<ChatOut>)
  {
    && |out| == |cs|
    && (forall i :: 0 <= i < |out| ==> exists c :: c in cs && EntryOf(log, users, uid, now, c, out[i]))
    && (forall c :: c in cs ==> exists i :: 0 <= i < |out| && EntryOf(log, users, uid, now, c, out[i]))
  }

  /** No two entries name the same companion login. */
  ghost predicate LoginsUnique(out: seq<ChatOut>)
  {
    forall i, j :: 0 <= i < j < |out| ==> out[i].companionLogin != out[j].companionLogin
  }

  /** The entries filed so far belong, in order, to the first |out| companion ids. */
  ghost predicate Filed(log: seq<Message>, users: seq<User>, uid: int, now: nat, ids: seq<int>, out: seq<ChatOut>)
  {
    && |out| <= |ids|
    && forall k :: 0 <= k < |out| ==> EntryOf(log, users, uid, now, ids[k], out[k])
  }

  lemma FiledStep(log: seq<Message>, users: seq<User>, uid: int, now: nat, ids: seq<int>, out: seq<ChatOut>, e: ChatOut)
    requires Filed(log, users, uid, now, ids, out) && |out| < |ids|
    requires EntryOf(log, users, uid, now, ids[|out|], e)
    ensures Filed(log, users, uid, now, ids, out + [e])
  {
  }

  /** The first loop of the route collects one companion per message of the user. */
  lemma CompanionIdsCover(log: seq<Message>, uid: int, ids: seq<int>)
    requires ids == seq(|Chats(log, uid)|, k requires 0 <= k < |Chats(log, uid)| => Companion(Chats(log, uid)[k], uid))
    ensures forall c :: c in ids <==> c in CompanionSet(log, uid)
  {
    var chats := Chats(log, uid);
    ChatsExact(log, uid);
    InvolvingMembers(log, uid);
    forall c ensures c in ids <==> c in CompanionSet(log, uid) {
      if c in ids {
        var k :| 0 <= k < |ids| && ids[k] == c;
        assert chats[k] in chats;
      }
      if c in CompanionSet(log, uid) {
        var m :| m in Involving(log, uid) && Companion(m, uid) == c;
        var k :| 0 <= k < |chats| && chats[k] == m;
        assert ids[k] == c;
      }
    }
  }

  /** One entry per distinct companion id, in the order of the ids, is a chat list. */
  lemma EntriesAreChatList(log: seq<Message>, users: seq<User>, uid: int, now: nat, ids: seq<int>, out: seq<ChatOut>)
    requires WellFormed(users)
    requires Distinct(ids) && forall c :: c in ids <==> c in CompanionSet(log, uid)
    requires forall k :: 0 <= k < |ids| ==> FindById(users, ids[k]).Some?
    requires |out| == |ids| && Filed(log, users, uid, now, ids, out)
    ensures OneEntryEach(log, users, uid, now, CompanionSet(log, uid), out)
    ensures LoginsUnique(out)
  {
    DistinctCard(ids);
    assert (set x | x in ids) == CompanionSet(log, uid);
    forall c | c in CompanionSet(log, uid)
      ensures exists i :: 0 <= i < |out| && EntryOf(log, users, uid, now, c, out[i])
    {
      var k :| 0 <= k < |ids| && ids[k] == c;
      assert EntryOf(log, users, uid, now, c, out[k]);
    }
    forall i | 0 <= i < |out|
      ensures exists c :: c in CompanionSet(log, uid) && EntryOf(log, users, uid, now, c, out[i])
    {
      assert ids[i] in ids && EntryOf(log, users, uid, now, ids[i], out[i]);
    }
    forall i, j | 0 <= i < j < |out| ensures out[i].companionLogin != out[j].companionLogin {
      LoginsDistinct(users, ids[i], ids[j]);
    }
  }

  /** app `get_chats(user)`: one entry per distinct companion. A companion missing from
      the users table makes `get_obj_by_id` raise, and the route answers
      `DatabaseError`. */
  method GetChats(t: MessageTable, users: seq<User>, user: User, now: nat)
    returns (r: Result<seq<ChatOut>, Error>)
    requires WellFormed(users) && user in users
    ensures r.Err? <==> exists c :: c in CompanionSet(t.log, user.id) && FindById(users, c).None?
    ensures r.Err? ==> r.error == DatabaseError
    ensures r.Ok? ==> OneEntryEach(t.log, users, user.id, now, CompanionSet(t.log, user.id), r.value)
    ensures r.Ok? ==> LoginsUnique(r.value)
  {
    var uid := user.id;
    var chats := AppMessageManager.GetChats(t, uid);
    var companionIds: seq<int> := [];
    var i := 0;
    while i < |chats|
      invariant 0 <= i <= |chats|
      invariant companionIds == seq(i, k requires 0 <= k < i => Companion(chats[k], uid))
    {
      if chats[i].senderId == uid {
        companionIds := companionIds + [chats[i].receiverId];
      } else {
        companionIds := companionIds + [chats[i].senderId];
      }
      i := i + 1;
    }
    CompanionIdsCover(t.log, uid, companionIds);
    var ids := Dedup(companionIds);
    var companions: seq<User> := [];
    i := 0;
    while i < |ids|
      invariant 0 <= i <= |ids|
      invariant |companions| == i
      invariant forall k :: 0 <= k < i ==> FindById(users, ids[k]) == Some(companions[k])
    {
      match FindById(users, ids[i]) {
        case None =>
          assert ids[i] in companionIds;
          return Err(DatabaseError);
        case Some(u) =>
          companions := companions + [u];
      }
      i := i + 1;
    }
    FindOwnLogin(users, user);
    var out: seq<ChatOut> := [];
    i := 0;
    while i < |companions|
      invariant 0 <= i <= |companions|
      invariant |out| == i && |companions| == |ids|
      invariant forall k :: 0 <= k < |ids| ==> FindById(users, ids[k]) == Some(companions[k])
      invariant Filed(t.log, users, uid, now, ids, out)
    {
      var comp := companions[i];
      FindOwnLogin(users, comp);
      var last := AppMessageManager.GetLastMessage(t, users, user.login, comp.login);
      assert comp.id == ids[i];
      assert last == Ok(Latest(t.log, uid, comp.id));
      var e := Entry(comp, last.value, uid, now);
      FiledStep(t.log, users, uid, now, ids, out, e);
      out := out + [e];
      i := i + 1;
    }
    EntriesAreChatList(t.log, users, uid, now, ids, out);
    r := Ok(out);
  }

  // ---------------------------------------------------------------- root generation

  /** One entry of the root route's answer (schemas/user.py `UserBase`). The schema
      has no `id` field, so the `id=comp.id` the route passes is dropped. */
  datatype UserBase = UserBase(login: string, about: Option<string>, avatarUrl: Option<string>)

  function ToBase(u: User): UserBase
  {
    UserBase(u.login, u.about, u.avatarUrl)
  }

  /** The companions of u that the users table still has. */
  function KnownCompanions(log: seq<Message>, users: seq<User>, u: int): set<int>
  {
    set c | c in CompanionSet(log, u) && FindById(users, c).Some?
  }

  /** root `get_chats(user)`: the profile of every companion whose lookup finds a
      user; the others are dropped. The list's order is that of a Python set, so the
      answer is given as a set. */
  function SyncChats(log: seq<Message>, users: seq<User>, u: int): (r: set<UserBase>)
    ensures forall e :: e in r ==>
              exists c :: c in CompanionSet(log, u) && FindById(users, c).Some? && ToBase(FindById(users, c).value) == e
    ensures forall c :: c in CompanionSet(log, u) && FindById(users, c).Some? ==>
              ToBase(FindById(users, c).value) in r
  {
    Profiles(KnownCompanions(log, users, u), users)
  }

  /** The profiles of a set of companion ids that are all in the users table. */
  function Profiles(s: set<int>, users: seq<User>): set<UserBase>
    requires forall c :: c in s ==> FindById(users, c).Some?
  {
    set c | c in s :: ToBase(FindById(users, c).value)
  }

  lemma {:induction false} ProfilesCard(s: set<int>, users: seq<User>)
    requires WellFormed(users)
    requires forall c :: c in s ==> FindById(users, c).Some?
    ensures |Profiles(s, users)| == |s|
  {
    if exists x :: x in s {
      var x :| x in s;
      var s' := s - {x};
      ProfilesCard(s', users);
      var e := ToBase(FindById(users, x).value);
      assert Profiles(s, users) == Profiles(s', users) + {e};
      assert e !in Profiles(s', users) by {
        forall c | c in s' ensures ToBase(FindById(users, c).value) != e {
          LoginsDistinct(users, c, x);
        }
      }
    } else {
      assert s == {} by {
        assert forall c :: c in s <==> c in {};
      }
      assert Profiles(s, users) == {} by {
        assert forall e :: e in Profiles(s, users) <==> e in {};
      }
    }
  }

  /** There is one entry per companion the users table has (their logins differ), so
      never more entries than distinct companions. */
  lemma SyncChatsCount(log: seq<Message>, users: seq<User>, u: int)
    requires WellFormed(users)
    ensures |SyncChats(log, users, u)| == |KnownCompanions(log, users, u)|
    ensures |SyncChats(log, users, u)| <= |CompanionSet(log, u)|
  {
    ProfilesCard(KnownCompanions(log, users, u), users);
    var known, all := KnownCompanions(log, users, u), CompanionSet(log, u);
    assert all == known + (all - known) && known * (all - known) == {};
  }

  /** root `get_chats` reads its messages through the synchronous manager, which
      returns the same messages as the log's own query. */
  lemma SyncChatsFromManager(t: MessageTable, users: seq<User>, u: int)
    ensures CompanionSet(t.log, u) ==
            set m | m in SyncMessageManager.GetChats(t, u) :: Companion(m, u)
  {
    InvolvingMembers(t.log, u);
  }
}
