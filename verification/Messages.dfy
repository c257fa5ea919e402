/**
  Unread counts and the marking of a conversation as read.  A message's id is its index in the table.
 */
module Messages {
  import opened Common

  datatype Message = Message(conversation: nat, sender: nat, readAt: Option<nat>, deletedAt: Option<nat>)

  const BATCH: nat := 500

  predicate IsPending(m: Message, conversation: nat, user: nat) {
    m.conversation == conversation && m.sender != user && m.readAt.None?
  }

  /** The messages the marking query can select; deleted ones are among them. */
  function Pending(messages: seq<Message>, conversation: nat, user: nat): set<nat> {
    set i | 0 <= i < |messages| && IsPending(messages[i], conversation, user)
  }

  /** The messages the unread count counts. */
  function Unread(messages: seq<Message>, conversation: nat, user: nat): set<nat> {
    set i | 0 <= i < |messages| && IsPending(messages[i], conversation, user) && messages[i].deletedAt.None?
  }

  /** What the query may return: any of the pending messages, at most a batch of them, all of them if they fit. */
  predicate CanSelect(messages: seq<Message>, conversation: nat, user: nat, rows: set<nat>) {
    rows <= Pending(messages, conversation, user) && |rows| == Min(BATCH, |Pending(messages, conversation, user)|)
  }

  function Marked(messages: seq<Message>, rows: set<nat>, now: nat): (r: seq<Message>)
    ensures |r| == |messages|
  {
    seq(|messages|, i requires 0 <= i < |messages| => if i in rows then messages[i].(readAt := Some(now)) else messages[i])
  }

  function Members(rows: seq<nat>): set<nat> {
    set i | i in rows
  }

  class Session {
    var messages: seq<Message>

    constructor (table: seq<Message>)
      ensures messages == table
    {
      messages := table;
    }

    method UnreadCount(conversation: nat, user: nat) returns (n: nat)
      ensures n == |Unread(messages, conversation, user)|
    {
      n := 0;
      assert Unread(messages[..0], conversation, user) == {};
      for i := 0 to |messages|
        invariant n == |Unread(messages[..i], conversation, user)|
      {
        var m := messages[i];
        if IsPending(m, conversation, user) && m.deletedAt.None? {
          assert Unread(messages[..i + 1], conversation, user) == Unread(messages[..i], conversation, user) + {i};
          n := n + 1;
        } else {
          assert Unread(messages[..i + 1], conversation, user) == Unread(messages[..i], conversation, user);
        }
      }
      assert messages[..|messages|] == messages;
    }

    /** Marks the rows the query returned, in the order it returned them. */
    method MarkConversationRead(conversation: nat, user: nat, rows: seq<nat>, now: nat)
      requires CanSelect(messages, conversation, user, Members(rows))
      modifies this
      ensures messages == Marked(old(messages), Members(rows), now)
    {
      for k := 0 to |rows|
        invariant messages == Marked(old(messages), Members(rows[..k]), now)
      {
        assert rows[k] in Pending(old(messages), conversation, user);
        assert rows[..k + 1] == rows[..k] + [rows[k]];
        var m := messages[rows[k]];
        messages := messages[rows[k] := m.(readAt := Some(now))];
      }
      assert rows[..|rows|] == rows;
    }
  }

  // ---------- guarantees ----------

  /** A message just sent is one more to read for everyone else in its conversation, and changes no other count. */
  lemma SendingAddsOne(messages: seq<Message>, conversation: nat, sender: nat, reader: nat, other: nat)
    ensures var after := messages + [Message(conversation, sender, None, None)];
            && |Unread(after, conversation, reader)| == |Unread(messages, conversation, reader)| + (if reader == sender then 0 else 1)
            && (other != conversation ==> |Unread(after, other, reader)| == |Unread(messages, other, reader)|)
  {
    var after := messages + [Message(conversation, sender, None, None)];
    if reader == sender {
      assert Unread(after, conversation, reader) == Unread(messages, conversation, reader);
    } else {
      assert Unread(after, conversation, reader) == Unread(messages, conversation, reader) + {|messages|};
    }
    if other != conversation {
      assert Unread(after, other, reader) == Unread(messages, other, reader);
    }
  }

  /** A message read or deleted is never counted, and one's own is not either. */
  lemma UnreadIsExact(messages: seq<Message>, conversation: nat, reader: nat, i: nat)
    ensures i in Unread(messages, conversation, reader) <==>
            i < |messages| && messages[i].conversation == conversation && messages[i].sender != reader
            && messages[i].readAt == None && messages[i].deletedAt == None
  {
  }

  /** The messages the query returned are read from now on, and nothing else about any message changes. */
  lemma MarkedAreRead(messages: seq<Message>, rows: set<nat>, now: nat, i: nat)
    requires i < |messages|
    ensures Marked(messages, rows, now)[i].readAt == if i in rows then Some(now) else messages[i].readAt
    ensures Marked(messages, rows, now)[i] == messages[i].(readAt := Marked(messages, rows, now)[i].readAt)
  {
  }

  lemma MarkingRemoves(messages: seq<Message>, conversation: nat, user: nat, rows: set<nat>, now: nat)
    ensures Pending(Marked(messages, rows, now), conversation, user) == Pending(messages, conversation, user) - rows
    ensures Unread(Marked(messages, rows, now), conversation, user) == Unread(messages, conversation, user) - rows
  {
  }

  lemma SizeOfDifference(a: set<nat>, b: set<nat>)
    requires b <= a
    ensures |a - b| == |a| - |b|
  {
    assert a == (a - b) + b;
  }

  /** One call settles a batch of the pending messages and touches no one's own messages and no other conversation. */
  lemma MarkSettlesABatch(messages: seq<Message>, conversation: nat, user: nat, rows: set<nat>, now: nat)
    requires CanSelect(messages, conversation, user, rows)
    ensures |Pending(Marked(messages, rows, now), conversation, user)| == Max(0, |Pending(messages, conversation, user)| - BATCH)
    ensures forall i :: 0 <= i < |messages| && !IsPending(messages[i], conversation, user) ==> Marked(messages, rows, now)[i] == messages[i]
  {
    MarkingRemoves(messages, conversation, user, rows, now);
    SizeOfDifference(Pending(messages, conversation, user), rows);
  }

  ghost predicate AlwaysClears(messages: seq<Message>, conversation: nat, user: nat, now: nat) {
    forall rows :: CanSelect(messages, conversation, user, rows) ==> Unread(Marked(messages, rows, now), conversation, user) == {}
  }

  /**
    A call is certain to bring the unread count to zero exactly when it already is zero or a batch holds every pending
    message, deleted ones included: deleted messages use up the batch although no one counts them.
   */
  lemma ClearsExactly(messages: seq<Message>, conversation: nat, user: nat, now: nat)
    ensures AlwaysClears(messages, conversation, user, now)
            <==> Unread(messages, conversation, user) == {} || |Pending(messages, conversation, user)| <= BATCH
  {
    var pending, unread := Pending(messages, conversation, user), Unread(messages, conversation, user);
    forall rows | CanSelect(messages, conversation, user, rows)
      ensures Unread(Marked(messages, rows, now), conversation, user) == unread - rows
      ensures |pending| <= BATCH ==> rows == pending
    {
      MarkingRemoves(messages, conversation, user, rows, now);
      SizeOfDifference(pending, rows);
      assert |pending| <= BATCH ==> |pending - rows| == 0;
    }
    if unread != {} && |pending| > BATCH {
      var i :| i in unread;
      var rows := SubsetOfSize(pending - {i}, BATCH);
      assert CanSelect(messages, conversation, user, rows);
      assert i in unread - rows;
    }
  }

  /** One message to read, followed by deleted ones. */
  function MostlyDeleted(n: nat): seq<Message> {
    seq(n, i => Message(0, 1, None, if i == 0 then None else Some(0)))
  }

  lemma MostlyDeletedSets(n: nat)
    requires n >= 1
    ensures Unread(MostlyDeleted(n), 0, 2) == {0} && |Pending(MostlyDeleted(n), 0, 2)| == n
  {
    FirstNumbersSize(n);
    assert Pending(MostlyDeleted(n), 0, 2) == FirstNumbers(n);
  }

  /** The failure at an input: a call can leave the only message to read unread, the batch spent on deleted ones. */
  lemma DeletedFillTheBatch(n: nat, now: nat)
    requires n > BATCH
    ensures Unread(MostlyDeleted(n), 0, 2) == {0} && !AlwaysClears(MostlyDeleted(n), 0, 2, now)
  {
    MostlyDeletedSets(n);
    ClearsExactly(MostlyDeleted(n), 0, 2, now);
  }

  function FirstNumbers(n: nat): (r: set<nat>)
    ensures forall i: nat :: i in r <==> i < n
  {
    if n == 0 then {} else FirstNumbers(n - 1) + {n - 1}
  }

  lemma {:induction false} FirstNumbersSize(n: nat)
    ensures |FirstNumbers(n)| == n
  {
    if n > 0 {
      FirstNumbersSize(n - 1);
      assert FirstNumbers(n) == FirstNumbers(n - 1) + {n - 1};
    } else {
      assert FirstNumbers(n) == {};
    }
  }

  lemma SubsetOfSize(s: set<nat>, n: nat) returns (r: set<nat>)
    requires n <= |s|
    ensures r <= s && |r| == n
  {
    if n == |s| {
      r := s;
    } else {
      var i :| i in s;
      r := SubsetOfSize(s - {i}, n);
    }
  }

  /** Calls in a row, each marking what its query returned. */
  ghost predicate Calls(before: seq<Message>, conversation: nat, user: nat, calls: seq<set<nat>>, now: nat)
    decreases |calls|
  {
    calls == [] || (CanSelect(before, conversation, user, calls[0]) && Calls(Marked(before, calls[0], now), conversation, user, calls[1..], now))
  }

  function AfterCalls(before: seq<Message>, calls: seq<set<nat>>, now: nat): seq<Message>
    decreases |calls|
  {
    if calls == [] then before else AfterCalls(Marked(before, calls[0], now), calls[1..], now)
  }

  /** Without new messages, as many calls as there are batches of pending messages bring the unread count to zero. */
  lemma {:induction false} CallsSettleAll(before: seq<Message>, conversation: nat, user: nat, calls: seq<set<nat>>, now: nat)
    requires Calls(before, conversation, user, calls, now)
    ensures |Pending(AfterCalls(before, calls, now), conversation, user)| == Max(0, |Pending(before, conversation, user)| - BATCH * |calls|)
    ensures |Pending(before, conversation, user)| <= BATCH * |calls| ==> Unread(AfterCalls(before, calls, now), conversation, user) == {}
    decreases |calls|
  {
    if calls != [] {
      MarkSettlesABatch(before, conversation, user, calls[0], now);
      CallsSettleAll(Marked(before, calls[0], now), conversation, user, calls[1..], now);
    }
    var after := AfterCalls(before, calls, now);
    assert Unread(after, conversation, user) <= Pending(after, conversation, user);
  }
}
