/**
 * app/database/managers/connection_manager.py: WebSocket rooms. Each room is a
 * dictionary from user id to socket; Python dictionaries keep insertion order, so a
 * room is kept as an association list in that order. Sends are appended to an
 * outbox instead of being delivered.
 */
module Connections {
  import opened Wrappers
  import opened Errors

  /** A WebSocket, identified by an abstract handle. */
  type Socket = nat

  /** One `user_id: websocket` pair of a room dictionary. */
  datatype Conn = Conn(user: string, socket: Socket)

  /** What the manager asks a socket to do. */
  datatype WsEffect = Accept(ws: Socket) | SendText(ws: Socket, text: string)

  /** A room dictionary has each user at most once. */
  predicate Keyed(d: seq<Conn>)
  {
    forall i, j :: 0 <= i < j < |d| ==> d[i].user != d[j].user
  }

  /** `d.get(user)`. */
  function Lookup(d: seq<Conn>, user: string): (r: Option<Socket>)
    ensures r.None? <==> forall i :: 0 <= i < |d| ==> d[i].user != user
    ensures r.Some? ==> exists i :: 0 <= i < |d| && d[i] == Conn(user, r.value)
  {
    if d == [] then None
    else if d[0].user == user then Some(d[0].socket)
    else
      var r := Lookup(d[1..], user);
      assert r.Some? ==> exists i :: 0 <= i < |d[1..]| && d[1..][i] == Conn(user, r.value);
      assert forall i :: 0 < i < |d| ==> d[i] == d[1..][i - 1];
      r
  }

  /** `d[user] = ws`: an existing key keeps its place and gets the new socket; a new
      key goes last. */
  function Assign(d: seq<Conn>, user: string, ws: Socket): seq<Conn>
  {
    if d == [] then [Conn(user, ws)]
    else if d[0].user == user then [Conn(user, ws)] + d[1..]
    else [d[0]] + Assign(d[1..], user, ws)
  }

  /** `d.pop(user)` for a key that is present. */
  function Remove(d: seq<Conn>, user: string): seq<Conn>
  {
    if d == [] then []
    else if d[0].user == user then d[1..]
    else [d[0]] + Remove(d[1..], user)
  }

  lemma {:induction false} KeyedTail(d: seq<Conn>)
    requires Keyed(d) && d != []
    ensures Keyed(d[1..])
    ensures Lookup(d[1..], d[0].user).None?
  {
    forall i, j | 0 <= i < j < |d| - 1 ensures d[1..][i].user != d[1..][j].user {
      assert d[1..][i] == d[i + 1] && d[1..][j] == d[j + 1];
    }
    forall i | 0 <= i < |d| - 1 ensures d[1..][i].user != d[0].user {
      assert d[1..][i] == d[i + 1];
    }
  }

  /** After `d[user] = ws` the user's socket is ws and every other user's is as before;
      the room still has each user once. */
  lemma {:induction false} AssignSpec(d: seq<Conn>, user: string, ws: Socket)
    requires Keyed(d)
    ensures Keyed(Assign(d, user, ws))
    ensures forall v :: Lookup(Assign(d, user, ws), v) == if v == user then Some(ws) else Lookup(d, v)
  {
    if d != [] && d[0].user != user {
      KeyedTail(d);
      AssignSpec(d[1..], user, ws);
      var r := Assign(d[1..], user, ws);
      assert Lookup(r, d[0].user).None?;
      forall i, j | 0 <= i < j < |r| + 1 ensures ([d[0]] + r)[i].user != ([d[0]] + r)[j].user {
        if i > 0 {
          assert ([d[0]] + r)[i] == r[i - 1] && ([d[0]] + r)[j] == r[j - 1];
        } else {
          assert ([d[0]] + r)[j] == r[j - 1];
        }
      }
      forall v ensures Lookup([d[0]] + r, v) == if v == user then Some(ws) else Lookup(d, v) {
        assert ([d[0]] + r)[1..] == r;
      }
    } else if d != [] {
      KeyedTail(d);
      var r := [Conn(user, ws)] + d[1..];
      assert r[1..] == d[1..];
      forall i, j | 0 <= i < j < |r| ensures r[i].user != r[j].user {
        assert r[j] == d[j];
        if i > 0 {
          assert r[i] == d[i];
        }
      }
    }
  }

  /** Reassigning an existing user keeps every position of the room; a new user is
      appended at the end. */
  lemma {:induction false} AssignOrder(d: seq<Conn>, user: string, ws: Socket)
    ensures Lookup(d, user).None? ==> Assign(d, user, ws) == d + [Conn(user, ws)]
    ensures Lookup(d, user).Some? ==>
              |Assign(d, user, ws)| == |d| &&
              forall i :: 0 <= i < |d| ==> Assign(d, user, ws)[i].user == d[i].user
  {
    if d != [] && d[0].user != user {
      AssignOrder(d[1..], user, ws);
      assert d == [d[0]] + d[1..];
      var r := Assign(d[1..], user, ws);
      if Lookup(d, user).Some? {
        forall i | 0 <= i < |d| ensures Assign(d, user, ws)[i].user == d[i].user {
          if i > 0 {
            assert Assign(d, user, ws)[i] == r[i - 1];
          }
        }
      }
    }
  }

  /** Popping a present user removes that user's entry only, and the others keep their
      order. */
  lemma {:induction false} RemoveSpec(d: seq<Conn>, user: string)
    requires Keyed(d)
    ensures Keyed(Remove(d, user))
    ensures forall v :: Lookup(Remove(d, user), v) == if v == user then None else Lookup(d, v)
    ensures Lookup(d, user).Some? ==> |Remove(d, user)| == |d| - 1
  {
    if d != [] {
      KeyedTail(d);
      if d[0].user != user {
        RemoveSpec(d[1..], user);
        var r := Remove(d[1..], user);
        assert Lookup(r, d[0].user).None?;
        forall i, j | 0 <= i < j < |r| + 1 ensures ([d[0]] + r)[i].user != ([d[0]] + r)[j].user {
          if i > 0 {
            assert ([d[0]] + r)[i] == r[i - 1] && ([d[0]] + r)[j] == r[j - 1];
          } else {
            assert ([d[0]] + r)[j] == r[j - 1];
          }
        }
        forall v ensures Lookup([d[0]] + r, v) == if v == user then None else Lookup(d, v) {
          assert ([d[0]] + r)[1..] == r;
        }
      }
    }
  }

  /** One `send_text(message)` per connection of the room, in the room's order. */
  function Broadcast(d: seq<Conn>, message: string): seq<WsEffect>
  {
    if d == [] then [] else Broadcast(d[..|d| - 1], message) + [SendText(d[|d| - 1].socket, message)]
  }

  /** The broadcast reaches every connection of the room once, in order, and nothing
      else. */
  lemma {:induction false} BroadcastExact(d: seq<Conn>, message: string)
    ensures |Broadcast(d, message)| == |d|
    ensures forall i :: 0 <= i < |d| ==> Broadcast(d, message)[i] == SendText(d[i].socket, message)
  {
    if d != [] {
      BroadcastExact(d[..|d| - 1], message);
    }
  }

  class ConnectionManager {
    /** `active_connections`: room id to room dictionary. */
    var rooms: map<string, seq<Conn>>
    /** Every `accept()` and `send_text()` issued, in order. */
    var outbox: seq<WsEffect>

    ghost predicate Valid()
      reads this
    {
      forall room :: room in rooms ==> Keyed(rooms[room])
    }

    /** A new manager has no rooms. */
    constructor ()
      ensures Valid()
      ensures rooms == map[] && outbox == []
    {
      rooms := map[];
      outbox := [];
    }

    /** `connect(room, user, ws)`: the socket is accepted first; then `room[user] = ws`,
        which raises `KeyError` when the room does not exist. No room is ever
        created, so on a manager nothing else has filled every connect fails after
        the accept. */
    method Connect(room: string, user: string, ws: Socket) returns (r: Result<(), Error>)
      requires Valid()
      modifies this
      ensures Valid()
      ensures outbox == old(outbox) + [Accept(ws)]
      ensures rooms.Keys == old(rooms).Keys
      ensures room !in old(rooms) ==> r == Err(KeyError) && rooms == old(rooms)
      ensures room in old(rooms) ==>
                r.Ok? && rooms == old(rooms)[room := Assign(old(rooms)[room], user, ws)]
    {
      outbox := outbox + [Accept(ws)];
      if room !in rooms {
        return Err(KeyError);
      }
      AssignSpec(rooms[room], user, ws);
      rooms := rooms[room := Assign(rooms[room], user, ws)];
      r := Ok(());
    }

    /** `disconnect(user, room)`: `rooms[room].pop(user)`, which raises `KeyError` when
        the room or the user in it is missing. */
    method Disconnect(user: string, room: string) returns (r: Result<(), Error>)
      requires Valid()
      modifies this
      ensures Valid()
      ensures outbox == old(outbox)
      ensures rooms.Keys == old(rooms).Keys
      ensures (room !in old(rooms) || Lookup(old(rooms)[room], user).None?) ==>
                r == Err(KeyError) && rooms == old(rooms)
      ensures room in old(rooms) && Lookup(old(rooms)[room], user).Some? ==>
                r.Ok? && rooms == old(rooms)[room := Remove(old(rooms)[room], user)]
    {
      if room !in rooms || Lookup(rooms[room], user).None? {
        return Err(KeyError);
      }
      RemoveSpec(rooms[room], user);
      rooms := rooms[room := Remove(rooms[room], user)];
      r := Ok(());
    }

    /** `send_to_room(room, message)`: the text goes to every connection of the room in
        the room's order; a missing room raises `KeyError` before anything is sent. */
    method SendToRoom(room: string, message: string) returns (r: Result<(), Error>)
      requires Valid()
      modifies this
      ensures Valid()
      ensures rooms == old(rooms)
      ensures room !in old(rooms) ==> r == Err(KeyError) && outbox == old(outbox)
      ensures room in old(rooms) ==>
                r.Ok? && outbox == old(outbox) + Broadcast(old(rooms)[room], message)
    {
      if room !in rooms {
        return Err(KeyError);
      }
      var d := rooms[room];
      var i := 0;
      while i < |d|
        invariant 0 <= i <= |d|
        invariant rooms == old(rooms)
        invariant outbox == old(outbox) + Broadcast(d[..i], message)
      {
        assert d[..i + 1][..i] == d[..i];
        outbox := outbox + [SendText(d[i].socket, message)];
        i := i + 1;
      }
      assert d[..i] == d;
      r := Ok(());
    }
  }
}
