/**
 * The messages table as an append-only log and the queries both message
 * managers run on it: the chat filter, history in ascending timestamp order,
 * all chats of a user in descending order, and the latest message of a pair.
 *
 * The database orders by timestamp only, so equal timestamps come back in an
 * order the source does not fix. The functions below pick one order (a stable
 * insertion sort); the lemmas state only what every order the database may
 * choose shares: the same messages, sorted by timestamp.
 */
module MessageLog {
  import opened Wrappers

  /** One row of the messages table (id, sender_id, receiver_id, text, timestamp).
      The timestamp is the database's utcnow default, kept abstract as a natural. */
  datatype Message = Message(id: int, senderId: int, receiverId: int, text: string, timestamp: nat)

  /** `_chat_filter(a, b)`: sent from a to b or from b to a. */
  predicate InPair(m: Message, a: int, b: int)
  {
    (m.senderId == a && m.receiverId == b) || (m.senderId == b && m.receiverId == a)
  }

  /** The `get_chats` filter: sent or received by u. */
  predicate Involves(m: Message, u: int)
  {
    m.senderId == u || m.receiverId == u
  }

  /** The messages of the log between a and b, in log order. */
  function Between(log: seq<Message>, a: int, b: int): seq<Message>
  {
    if log == [] then []
    else (if InPair(log[0], a, b) then [log[0]] else []) + Between(log[1..], a, b)
  }

  /** The messages of the log sent or received by u, in log order. */
  function Involving(log: seq<Message>, u: int): seq<Message>
  {
    if log == [] then []
    else (if Involves(log[0], u) then [log[0]] else []) + Involving(log[1..], u)
  }

  lemma {:induction false} BetweenMembers(log: seq<Message>, a: int, b: int)
    ensures forall m :: m in Between(log, a, b) <==> m in log && InPair(m, a, b)
    ensures multiset(Between(log, a, b)) <= multiset(log)
  {
    if log != [] {
      BetweenMembers(log[1..], a, b);
      assert log == [log[0]] + log[1..];
    }
  }

  lemma {:induction false} InvolvingMembers(log: seq<Message>, u: int)
    ensures forall m :: m in Involving(log, u) <==> m in log && Involves(m, u)
    ensures multiset(Involving(log, u)) <= multiset(log)
  {
    if log != [] {
      InvolvingMembers(log[1..], u);
      assert log == [log[0]] + log[1..];
    }
  }

  /** The chat filter does not care which of the two ids comes first, so neither does
      the filtered log. */
  lemma {:induction false} BetweenSymmetric(log: seq<Message>, a: int, b: int)
    ensures Between(log, a, b) == Between(log, b, a)
  {
    if log != [] {
      BetweenSymmetric(log[1..], a, b);
    }
  }

  // ---------------------------------------------------------------- ordering

  /** `ORDER BY timestamp ASC` (desc = false) or `DESC` (desc = true) allows a before b. */
  predicate Precedes(a: Message, b: Message, desc: bool)
  {
    if desc then a.timestamp >= b.timestamp else a.timestamp <= b.timestamp
  }

  predicate Ordered(s: seq<Message>, desc: bool)
  {
    forall i, j :: 0 <= i < j < |s| ==> Precedes(s[i], s[j], desc)
  }

  function Insert(m: Message, s: seq<Message>, desc: bool): seq<Message>
  {
    if s == [] || Precedes(m, s[0], desc) then [m] + s
    else [s[0]] + Insert(m, s[1..], desc)
  }

  /** One ordering the database may return for `ORDER BY timestamp`. */
  function Sort(s: seq<Message>, desc: bool): seq<Message>
  {
    if s == [] then [] else Insert(s[0], Sort(s[1..], desc), desc)
  }

  lemma {:induction false} InsertMultiset(m: Message, s: seq<Message>, desc: bool)
    ensures multiset(Insert(m, s, desc)) == multiset(s) + multiset{m}
  {
    if !(s == [] || Precedes(m, s[0], desc)) {
      InsertMultiset(m, s[1..], desc);
      assert s == [s[0]] + s[1..];
    }
  }

  /** An element that may precede every element of an ordered sequence may go first. */
  lemma ConsOrdered(h: Message, r: seq<Message>, desc: bool)
    requires Ordered(r, desc)
    requires forall k :: 0 <= k < |r| ==> Precedes(h, r[k], desc)
    ensures Ordered([h] + r, desc)
  {
    var w := [h] + r;
    forall i, j | 0 <= i < j < |w| ensures Precedes(w[i], w[j], desc) {
      assert w[j] == r[j - 1];
      if i > 0 {
        assert w[i] == r[i - 1];
      }
    }
  }

  lemma {:induction false} InsertOrdered(m: Message, s: seq<Message>, desc: bool)
    requires Ordered(s, desc)
    ensures multiset(Insert(m, s, desc)) == multiset(s) + multiset{m}
    ensures Ordered(Insert(m, s, desc), desc)
  {
    InsertMultiset(m, s, desc);
    if s == [] || Precedes(m, s[0], desc) {
      ConsOrdered(m, s, desc);
    } else {
      var t := s[1..];
      assert Ordered(t, desc);
      InsertOrdered(m, t, desc);
      var r := Insert(m, t, desc);
      forall k | 0 <= k < |r| ensures Precedes(s[0], r[k], desc) {
        assert r[k] in multiset(t) + multiset{m};
        if r[k] != m {
          assert r[k] in t;
          var i :| 0 <= i < |t| && t[i] == r[k];
          assert s[i + 1] == r[k];
        }
      }
      ConsOrdered(s[0], r, desc);
    }
  }

  /** Sorting gives an ordered permutation of its input. */
  lemma {:induction false} SortOrdered(s: seq<Message>, desc: bool)
    ensures multiset(Sort(s, desc)) == multiset(s)
    ensures Ordered(Sort(s, desc), desc)
    ensures |Sort(s, desc)| == |s|
  {
    if s != [] {
      SortOrdered(s[1..], desc);
      InsertOrdered(s[0], Sort(s[1..], desc), desc);
      assert s == [s[0]] + s[1..];
    }
  }

  // ---------------------------------------------------------------- the queries

  /** `get_history(a, b)`: the pair's messages in ascending timestamp order. */
  function History(log: seq<Message>, a: int, b: int): seq<Message>
  {
    Sort(Between(log, a, b), false)
  }

  /** `get_chats(u)`: every message of u in descending timestamp order. */
  function Chats(log: seq<Message>, u: int): seq<Message>
  {
    Sort(Involving(log, u), true)
  }

  /** `... ORDER BY timestamp DESC ... .first()` over the pair's messages. */
  function Latest(log: seq<Message>, a: int, b: int): Option<Message>
  {
    var h := Sort(Between(log, a, b), true);
    if h == [] then None else Some(h[0])
  }

  /** The history of a and b is exactly the messages between them, each as often as in
      the log, with non-decreasing timestamps. */
  lemma HistoryExact(log: seq<Message>, a: int, b: int)
    ensures multiset(History(log, a, b)) == multiset(Between(log, a, b))
    ensures forall m :: m in History(log, a, b) <==> m in log && InPair(m, a, b)
    ensures forall i, j :: 0 <= i < j < |History(log, a, b)| ==>
              History(log, a, b)[i].timestamp <= History(log, a, b)[j].timestamp
  {
    SortOrdered(Between(log, a, b), false);
    BetweenMembers(log, a, b);
    forall m ensures m in History(log, a, b) <==> m in Between(log, a, b) {
      assert m in History(log, a, b) <==> m in multiset(History(log, a, b));
    }
  }

  /** `get_history(a, b)` and `get_history(b, a)` hold the same messages. */
  lemma HistorySymmetric(log: seq<Message>, a: int, b: int)
    ensures multiset(History(log, a, b)) == multiset(History(log, b, a))
  {
    HistoryExact(log, a, b);
    HistoryExact(log, b, a);
    BetweenSymmetric(log, a, b);
  }

  /** The chats of u are exactly u's messages, with non-increasing timestamps. */
  lemma ChatsExact(log: seq<Message>, u: int)
    ensures multiset(Chats(log, u)) == multiset(Involving(log, u))
    ensures forall m :: m in Chats(log, u) <==> m in log && Involves(m, u)
    ensures forall i, j :: 0 <= i < j < |Chats(log, u)| ==>
              Chats(log, u)[i].timestamp >= Chats(log, u)[j].timestamp
  {
    SortOrdered(Involving(log, u), true);
    InvolvingMembers(log, u);
    forall m ensures m in Chats(log, u) <==> m in Involving(log, u) {
      assert m in Chats(log, u) <==> m in multiset(Chats(log, u));
    }
  }

  /** The latest message of a pair is one of its messages with the largest timestamp;
      there is none exactly when the pair has exchanged nothing. */
  lemma LatestSpec(log: seq<Message>, a: int, b: int)
    ensures Latest(log, a, b).None? <==> forall m :: m in log ==> !InPair(m, a, b)
    ensures Latest(log, a, b).Some? ==>
              var m := Latest(log, a, b).value;
              && m in log && InPair(m, a, b)
              && forall m' :: m' in log && InPair(m', a, b) ==> m'.timestamp <= m.timestamp
  {
    var f := Between(log, a, b);
    var h := Sort(f, true);
    SortOrdered(f, true);
    BetweenMembers(log, a, b);
    forall m ensures m in h <==> m in f {
      assert m in h <==> m in multiset(h);
    }
    if h != [] {
      forall m' | m' in log && InPair(m', a, b) ensures m'.timestamp <= h[0].timestamp {
        var k :| 0 <= k < |h| && h[k] == m';
        if k > 0 {
          assert Precedes(h[0], h[k], true);
        }
      }
    }
  }

  /** The message id the database assigns next: ids are 1, 2, ... in insertion order. */
  predicate NumberedLog(log: seq<Message>)
  {
    forall i :: 0 <= i < |log| ==> log[i].id == i + 1
  }

  /** A saved message shows up in the pair's history. */
  lemma SavedInHistory(log: seq<Message>, m: Message)
    ensures m in History(log + [m], m.senderId, m.receiverId)
  {
    HistoryExact(log + [m], m.senderId, m.receiverId);
  }

  /** Saving "x" and later "y" for a pair makes "y" the pair's latest message, provided
      its timestamp is strictly later than every earlier one. */
  lemma LatestAfterSave(log: seq<Message>, m: Message, a: int, b: int)
    requires InPair(m, a, b)
    requires forall m' :: m' in log ==> m'.timestamp < m.timestamp
    ensures Latest(log + [m], a, b) == Some(m)
  {
    LatestSpec(log + [m], a, b);
  }
}
