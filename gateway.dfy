/**
 * socket_io/sockets.py: the realtime chat gateway. A registry binds socket ids to
 * user ids, each user id has a room `user_<id>`, and four event handlers read the
 * registry, the room membership and the message store. Emits are appended to an
 * outbox instead of being delivered.
 *
 * Each handler is specified by a function from the gateway's state before the
 * event to its state after it; the class's methods are proved to make exactly that
 * change, and the lemmas state what the handlers promise.
 */
module Gateway {
  import opened Wrappers
  import opened Errors
  import opened PyText
  import opened MessageLog
  import opened MessageDb
  import opened Tokens
  import SyncMessageManager

  /** The data dictionary of a socket.io event. */
  type EventData = map<string, Json>

  /** What the gateway sends to a room. */
  datatype Payload =
    | MessageOut(id: int, senderId: int, receiverId: Json, text: string, timestamp: nat)
    | TypingOut(senderId: int, isTyping: Json)

  /** `sio.emit(event, payload, room=room)`. */
  datatype Emit = Emit(event: string, room: string, payload: Payload)

  /** Everything the handlers read and write: the `connected_users` registry, the
      server's room membership, the messages table and the emits so far. */
  datatype GatewayState = GatewayState(
    connected: map<string, int>,
    rooms: map<string, set<string>>,
    log: seq<Message>,
    outbox: seq<Emit>)

  /** What a handler leaves behind: the new state, and `Err` when it raised. */
  datatype Handled = Handled(after: GatewayState, outcome: Result<(), Error>)

  /** `data.get(key, default)`. */
  function Get(data: EventData, key: string, default: Json): Json
  {
    if key in data then data[key] else default
  }

  /** `f"user_{n}"`. */
  function RoomName(n: int): string
  {
    "user_" + Render(n)
  }

  /** Distinct users have distinct rooms. */
  lemma RoomNameInjective(a: int, b: int)
    requires RoomName(a) == RoomName(b)
    ensures a == b
  {
    assert Render(a) == RoomName(a)[5..];
    assert Render(b) == RoomName(b)[5..];
    RenderInjective(a, b);
  }

  /** A room for an event's receiver: `f"user_{receiver_id}"` names the same room as
      the receiver's own when the receiver is given as an int. */
  lemma ReceiverRoom(i: int)
    ensures "user_" + PyStr(JInt(i)) == RoomName(i)
  {
  }

  /** The receiver id the messages table stores for an event's `receiver_id`: an int
      as it is, and a bool as 1 or 0, since Python's `bool` is an `int` and the
      column is an Integer. Every other value is taken as one the insert refuses. */
  function StoredReceiver(j: Json): (r: Option<int>)
    ensures j.JInt? <==> r.Some? && !j.JBool?
    ensures j.JInt? ==> r == Some(j.i)
    ensures j.JBool? ==> r == Some(if j.b then 1 else 0)
  {
    match j
    case JInt(i) => Some(i)
    case JBool(b) => Some(if b then 1 else 0)
    case _ => None
  }

  /** `sio.enter_room(sid, room)`: creates the room when needed. */
  function Enter(rooms: map<string, set<string>>, room: string, sid: string): map<string, set<string>>
  {
    rooms[room := (if room in rooms then rooms[room] else {}) + {sid}]
  }

  /** `sio.leave_room(sid, room)`: a room left empty is dropped; leaving a room one is
      not in does nothing. */
  function Leave(rooms: map<string, set<string>>, room: string, sid: string): map<string, set<string>>
  {
    if room !in rooms then rooms
    else if rooms[room] - {sid} == {} then rooms - {room}
    else rooms[room := rooms[room] - {sid}]
  }

  // ---------------------------------------------------------------- the handlers

  /** `join(sid, data)`: with a truthy token that decodes to an integer subject, sid is
      bound to that id, overwriting any earlier binding, and enters the id's room. An
      earlier room of sid is not left. */
  function JoinSpec(s: GatewayState, sid: string, data: EventData, decoded: Decoded): GatewayState
  {
    if !Truthy(Get(data, "token", JNull)) then s
    else
      match SubjectId(decoded)
      case None => s
      case Some(uid) => s.(connected := s.connected[sid := uid], rooms := Enter(s.rooms, RoomName(uid), sid))
  }

  /** `disconnect(sid)`: the binding is popped; a sid bound to a truthy id leaves that
      id's room. */
  function DisconnectSpec(s: GatewayState, sid: string): GatewayState
  {
    if sid !in s.connected then s
    else
      var uid := s.connected[sid];
      if uid != 0 then s.(connected := s.connected - {sid}, rooms := Leave(s.rooms, RoomName(uid), sid))
      else s.(connected := s.connected - {sid})
  }

  /** `message(sid, data)`: the sender is the registry's id for sid. A missing or zero
      binding ends the handler; a `text` that is not a string makes `.strip()` raise;
      an empty stripped text or a falsy receiver ends it. A receiver that is neither an
      int nor a bool is modelled as an insert that fails (see `StoredReceiver`).
      Otherwise one message is saved and the same payload
      goes first to the receiver's room and then to the sender's. */
  function MessageSpec(s: GatewayState, sid: string, data: EventData, now: nat): Handled
  {
    if sid !in s.connected || s.connected[sid] == 0 then Handled(s, Ok(()))
    else
      var sender := s.connected[sid];
      var receiver := Get(data, "receiver_id", JNull);
      var raw := Get(data, "text", JStr(""));
      if !raw.JStr? then Handled(s, Err(AttributeError))
      else
        var text := Strip(raw.s);
        if text == [] || !Truthy(receiver) then Handled(s, Ok(()))
        else if StoredReceiver(receiver).None? then Handled(s, Err(StatementError))
        else
          var m := Message(|s.log| + 1, sender, StoredReceiver(receiver).value, text, now);
          var p := MessageOut(m.id, sender, receiver, m.text, m.timestamp);
          Handled(
            s.(log := s.log + [m],
               outbox := s.outbox + [Emit("message", "user_" + PyStr(receiver), p), Emit("message", RoomName(sender), p)]),
            Ok(()))
  }

  /** `typing(sid, data)`: one `typing` emit to the receiver's room carrying the
      registry's sender and `is_typing` (default `False`); nothing when sid is unbound
      or bound to zero, or the receiver is falsy. */
  function TypingSpec(s: GatewayState, sid: string, data: EventData): GatewayState
  {
    var receiver := Get(data, "receiver_id", JNull);
    var isTyping := Get(data, "is_typing", JBool(false));
    if sid !in s.connected || s.connected[sid] == 0 || !Truthy(receiver) then s
    else s.(outbox := s.outbox + [Emit("typing", "user_" + PyStr(receiver), TypingOut(s.connected[sid], isTyping))])
  }

  // ---------------------------------------------------------------- the invariant

  /** Every bound sid is in the room of the id it is bound to, and no room is empty. */
  ghost predicate Coherent(s: GatewayState)
  {
    && (forall sid :: sid in s.connected ==> RoomName(s.connected[sid]) in s.rooms && sid in s.rooms[RoomName(s.connected[sid])])
    && (forall room :: room in s.rooms ==> s.rooms[room] != {})
  }

  lemma JoinCoherent(s: GatewayState, sid: string, data: EventData, decoded: Decoded)
    requires Coherent(s)
    ensures Coherent(JoinSpec(s, sid, data, decoded))
  {
    var t := JoinSpec(s, sid, data, decoded);
    forall room | room in t.rooms ensures t.rooms[room] != {} {
      if room !in s.rooms {
        assert sid in t.rooms[room];
      }
    }
  }

  lemma DisconnectCoherent(s: GatewayState, sid: string)
    requires Coherent(s)
    ensures Coherent(DisconnectSpec(s, sid))
  {
    if sid in s.connected && s.connected[sid] != 0 {
      var uid := s.connected[sid];
      var t := DisconnectSpec(s, sid);
      forall other | other in t.connected
        ensures RoomName(t.connected[other]) in t.rooms && other in t.rooms[RoomName(t.connected[other])]
      {
        var room := RoomName(t.connected[other]);
        assert other != sid && other in s.rooms[room];
        if room == RoomName(uid) {
          assert other in s.rooms[room] - {sid};
        }
      }
      forall room | room in t.rooms ensures t.rooms[room] != {} {
        if exists x :: x in s.rooms[room] - {sid} {
          var x :| x in s.rooms[room] - {sid};
          if room == RoomName(uid) {
            assert x in t.rooms[room];
          }
        }
      }
    }
  }

  lemma MessageCoherent(s: GatewayState, sid: string, data: EventData, now: nat)
    requires Coherent(s)
    ensures Coherent(MessageSpec(s, sid, data, now).after)
  {
  }

  lemma TypingCoherent(s: GatewayState, sid: string, data: EventData)
    requires Coherent(s)
    ensures Coherent(TypingSpec(s, sid, data))
  {
  }

  // ---------------------------------------------------------------- the properties

  /** A join without a truthy token, with a token that does not decode, or whose
      subject is not an integer, changes nothing. */
  lemma JoinRejected(s: GatewayState, sid: string, data: EventData, decoded: Decoded)
    requires !Truthy(Get(data, "token", JNull)) || SubjectId(decoded).None?
    ensures JoinSpec(s, sid, data, decoded) == s
  {
  }

  /** A join whose token decodes to the subject `str(n)` binds sid to n, whatever sid
      was bound to before, and puts sid in room `user_<n>`; other bindings are kept. */
  lemma JoinBinds(s: GatewayState, sid: string, data: EventData, n: int)
    requires Truthy(Get(data, "token", JNull))
    ensures var t := JoinSpec(s, sid, data, Claims(Some(JStr(Render(n)))));
            && t.connected == s.connected[sid := n]
            && RoomName(n) in t.rooms && sid in t.rooms[RoomName(n)]
            && t.log == s.log && t.outbox == s.outbox
  {
    SubjectOfMinted(n);
  }

  /** The subject "0" is an integer, so a join can bind a sid to 0; such a sid is
      then treated by `message` and `typing` as not authenticated. */
  lemma JoinZero(s: GatewayState, sid: string, data: EventData, d: EventData, now: nat)
    requires Truthy(Get(data, "token", JNull))
    ensures var t := JoinSpec(s, sid, data, Claims(Some(JStr("0"))));
            && t.connected[sid] == 0
            && MessageSpec(t, sid, d, now) == Handled(t, Ok(()))
            && TypingSpec(t, sid, d) == t
  {
    ParseRender(0);
  }

  /** `disconnect` removes the binding, leaves the bound id's room, and a second
      `disconnect` changes nothing. */
  lemma DisconnectUnbinds(s: GatewayState, sid: string)
    ensures DisconnectSpec(s, sid).connected == s.connected - {sid}
    ensures sid in s.connected && s.connected[sid] != 0 ==>
              var room := RoomName(s.connected[sid]);
              room !in DisconnectSpec(s, sid).rooms || sid !in DisconnectSpec(s, sid).rooms[room]
    ensures DisconnectSpec(DisconnectSpec(s, sid), sid) == DisconnectSpec(s, sid)
    ensures DisconnectSpec(s, sid).log == s.log && DisconnectSpec(s, sid).outbox == s.outbox
  {
    if sid !in s.connected {
      assert s.connected - {sid} == s.connected;
    }
  }

  /** A sid bound to 0 is unbound by `disconnect` but stays in room `user_0`. */
  lemma DisconnectZeroStays(s: GatewayState, sid: string)
    requires sid in s.connected && s.connected[sid] == 0
    requires RoomName(0) in s.rooms && sid in s.rooms[RoomName(0)]
    ensures sid !in DisconnectSpec(s, sid).connected
    ensures sid in DisconnectSpec(s, sid).rooms[RoomName(0)]
  {
  }

  /** Without a binding to a non-zero id, `message` saves nothing and emits nothing. */
  lemma MessageUnauthenticated(s: GatewayState, sid: string, data: EventData, now: nat)
    requires sid !in s.connected || s.connected[sid] == 0
    ensures MessageSpec(s, sid, data, now).after == s
  {
  }

  /** From a bound sender, a text that is blank after `strip()` or a falsy receiver
      saves nothing and emits nothing. */
  lemma MessageInvalid(s: GatewayState, sid: string, data: EventData, now: nat, text: string)
    requires sid in s.connected && s.connected[sid] != 0
    requires Get(data, "text", JStr("")) == JStr(text)
    requires (forall k :: 0 <= k < |text| ==> IsSpace(text[k])) || !Truthy(Get(data, "receiver_id", JNull))
    ensures MessageSpec(s, sid, data, now) == Handled(s, Ok(()))
  {
    StripEmptyIff(text);
  }

  /** A valid message is saved once with the bound sender, the receiver and the
      stripped text, and the one payload goes to the receiver's room and then the
      sender's; the registry and the rooms are untouched. */
  lemma MessageDelivered(s: GatewayState, sid: string, data: EventData, now: nat, receiver: int, text: string)
    requires NumberedLog(s.log)
    requires sid in s.connected && s.connected[sid] != 0
    requires Get(data, "receiver_id", JNull) == JInt(receiver) && receiver != 0
    requires Get(data, "text", JStr("")) == JStr(text)
    requires exists k :: 0 <= k < |text| && !IsSpace(text[k])
    ensures var h := MessageSpec(s, sid, data, now);
            var sender := s.connected[sid];
            var m := Message(|s.log| + 1, sender, receiver, Strip(text), now);
            var p := MessageOut(m.id, sender, JInt(receiver), Strip(text), now);
            && h.outcome == Ok(())
            && h.after.log == s.log + [m] && NumberedLog(h.after.log)
            && h.after.outbox == s.outbox + [Emit("message", RoomName(receiver), p), Emit("message", RoomName(sender), p)]
            && h.after.connected == s.connected && h.after.rooms == s.rooms
  {
    StripEmptyIff(text);
  }

  /** A receiver given as `true` is stored as user 1, while the first emit goes to the
      room `user_True`, which is not user 1's room. */
  lemma MessageToTrue(s: GatewayState, sid: string, data: EventData, now: nat, text: string)
    requires sid in s.connected && s.connected[sid] != 0
    requires Get(data, "receiver_id", JNull) == JBool(true)
    requires Get(data, "text", JStr("")) == JStr(text)
    requires exists k :: 0 <= k < |text| && !IsSpace(text[k])
    ensures var h := MessageSpec(s, sid, data, now);
            var sender := s.connected[sid];
            var m := Message(|s.log| + 1, sender, 1, Strip(text), now);
            var p := MessageOut(m.id, sender, JBool(true), Strip(text), now);
            && h.outcome == Ok(())
            && h.after.log == s.log + [m]
            && h.after.outbox == s.outbox + [Emit("message", "user_True", p), Emit("message", RoomName(sender), p)]
    ensures "user_True" != RoomName(1)
  {
    StripEmptyIff(text);
    assert Strip(text) != [];
    assert Truthy(JBool(true));
    assert StoredReceiver(JBool(true)) == Some(1);
    assert "user_" + PyStr(JBool(true)) == "user_True";
    assert RoomName(1) == "user_1";
  }

  /** The sender of every message and typing event is the registry's binding for sid:
      a `sender_id` in the event data changes nothing. */
  lemma SenderFromRegistry(s: GatewayState, sid: string, data: EventData, forged: Json, now: nat)
    ensures MessageSpec(s, sid, data["sender_id" := forged], now) == MessageSpec(s, sid, data, now)
    ensures TypingSpec(s, sid, data["sender_id" := forged]) == TypingSpec(s, sid, data)
  {
    var d := data["sender_id" := forged];
    assert Get(d, "receiver_id", JNull) == Get(data, "receiver_id", JNull);
    assert Get(d, "text", JStr("")) == Get(data, "text", JStr(""));
    assert Get(d, "is_typing", JBool(false)) == Get(data, "is_typing", JBool(false));
  }

  /** Every emit a message event adds names the bound sender. */
  lemma MessageSenderIsBound(s: GatewayState, sid: string, data: EventData, now: nat)
    ensures var h := MessageSpec(s, sid, data, now);
            forall i :: |s.outbox| <= i < |h.after.outbox| ==>
              sid in s.connected && h.after.outbox[i].payload.senderId == s.connected[sid]
  {
  }

  /** `typing` saves nothing, changes no binding or room, and adds at most one emit: a
      `typing` event to the receiver's room with `is_typing` as sent, or `False`. */
  lemma TypingEphemeral(s: GatewayState, sid: string, data: EventData)
    ensures var t := TypingSpec(s, sid, data);
            && t.log == s.log && t.connected == s.connected && t.rooms == s.rooms
            && (t.outbox == s.outbox ||
                (sid in s.connected &&
                 t.outbox == s.outbox + [Emit("typing", "user_" + PyStr(Get(data, "receiver_id", JNull)),
                                              TypingOut(s.connected[sid], Get(data, "is_typing", JBool(false))))]))
    ensures "is_typing" !in data && TypingSpec(s, sid, data) != s ==>
              TypingSpec(s, sid, data).outbox[|s.outbox|].payload.isTyping == JBool(false)
  {
  }

  // ---------------------------------------------------------------- the gateway

  class ChatGateway {
    /** `connected_users`. */
    var connected: map<string, int>
    /** The server's room membership, room name to the sids in it. */
    var rooms: map<string, set<string>>
    /** Every emit issued, in order. */
    var outbox: seq<Emit>
    /** The messages table behind the module's synchronous `MessageManager`. */
    const store: MessageTable

    function State(): GatewayState
      reads this, store
    {
      GatewayState(connected, rooms, store.log, outbox)
    }

    ghost predicate Valid()
      reads this, store
    {
      store.Valid() && Coherent(State())
    }

    /** A fresh server: nobody is bound and no room exists. */
    constructor (db: MessageTable)
      requires db.Valid()
      ensures Valid()
      ensures store == db && connected == map[] && rooms == map[] && outbox == []
    {
      store := db;
      connected := map[];
      rooms := map[];
      outbox := [];
    }

    method Join(sid: string, data: EventData, decoded: Decoded)
      requires Valid()
      modifies this
      ensures Valid()
      ensures State() == JoinSpec(old(State()), sid, data, decoded)
    {
      JoinCoherent(State(), sid, data, decoded);
      var token := Get(data, "token", JNull);
      if !Truthy(token) {
        return;
      }
      var uid := SubjectId(decoded);
      if uid.None? {
        return;
      }
      connected := connected[sid := uid.value];
      var room := RoomName(uid.value);
      rooms := Enter(rooms, room, sid);
    }

    method Disconnect(sid: string)
      requires Valid()
      modifies this
      ensures Valid()
      ensures State() == DisconnectSpec(old(State()), sid)
    {
      DisconnectCoherent(State(), sid);
      if sid !in connected {
        return;
      }
      var uid := connected[sid];
      connected := connected - {sid};
      if uid != 0 {
        rooms := Leave(rooms, RoomName(uid), sid);
      }
    }

    method OnMessage(sid: string, data: EventData, now: nat) returns (r: Result<(), Error>)
      requires Valid()
      modifies this, store
      ensures Valid()
      ensures Handled(State(), r) == MessageSpec(old(State()), sid, data, now)
    {
      MessageCoherent(State(), sid, data, now);
      if sid !in connected || connected[sid] == 0 {
        return Ok(());
      }
      var sender := connected[sid];
      var receiver := Get(data, "receiver_id", JNull);
      var raw := Get(data, "text", JStr(""));
      if !raw.JStr? {
        return Err(AttributeError);
      }
      var text := Strip(raw.s);
      if text == [] || !Truthy(receiver) {
        return Ok(());
      }
      var stored := StoredReceiver(receiver);
      if stored.None? {
        return Err(StatementError);
      }
      ghost var before := store.log;
      var m := SyncMessageManager.SaveMessage(store, sender, stored.value, text, now);
      assert m.id == |before| + 1 by {
        assert store.log[|before|] == m;
      }
      var p := MessageOut(m.id, sender, receiver, m.text, m.timestamp);
      outbox := outbox + [Emit("message", "user_" + PyStr(receiver), p)];
      outbox := outbox + [Emit("message", RoomName(sender), p)];
      r := Ok(());
    }

    method Typing(sid: string, data: EventData)
      requires Valid()
      modifies this
      ensures Valid()
      ensures State() == TypingSpec(old(State()), sid, data)
    {
      TypingCoherent(State(), sid, data);
      var receiver := Get(data, "receiver_id", JNull);
      var isTyping := Get(data, "is_typing", JBool(false));
      if sid !in connected || connected[sid] == 0 || !Truthy(receiver) {
        return;
      }
      outbox := outbox + [Emit("typing", "user_" + PyStr(receiver), TypingOut(connected[sid], isTyping))];
    }
  }
}
