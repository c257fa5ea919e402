/**
  What every run of the social graph keeps, although no single service checks it: matches are mutual likes,
  blocked pairs are never actively matched, a match that ended never comes back, and conversations sit on matches.
 */
module SocialGraphTheorems {
  import opened Common
  import opened SocialGraph

  predicate MutualLike(s: State, a: Id, b: Id) {
    LikedBy(s.swipes, a, b) && LikedBy(s.swipes, b, a)
  }

  predicate HasMatchRow(s: State, a: Id, b: Id) {
    GetBetween(s.matches, a, b).Some?
  }

  predicate ActivelyMatched(s: State, a: Id, b: Id) {
    GetActiveBetween(s.matches, a, b).Some?
  }

  ghost predicate MatchesNormalized(matches: seq<Match>) {
    && (forall i :: 0 <= i < |matches| ==> matches[i].user1 < matches[i].user2)
    && (forall i, j :: 0 <= i < j < |matches| ==> matches[i].user1 != matches[j].user1 || matches[i].user2 != matches[j].user2)
  }

  ghost predicate ConversationOk(s: State, c: Id)
    requires |s.participants| == 2 * s.conversations && c < s.conversations
  {
    var p, q := s.participants[2 * c], s.participants[2 * c + 1];
    p.conversation == c && q.conversation == c && p.user != q.user && HasMatchRow(s, p.user, q.user)
  }

  ghost predicate SamePair(s: State, c: Id, d: Id)
    requires |s.participants| == 2 * s.conversations && c < s.conversations && d < s.conversations
  {
    {s.participants[2 * c].user, s.participants[2 * c + 1].user} == {s.participants[2 * d].user, s.participants[2 * d + 1].user}
  }

  ghost predicate ConversationsOk(s: State) {
    && |s.participants| == 2 * s.conversations
    && (forall c: Id :: c < s.conversations ==> ConversationOk(s, c))
    && (forall c: Id, d: Id :: c < d < s.conversations ==> !SamePair(s, c, d))
  }

  ghost predicate Inv(s: State) {
    && (forall i :: 0 <= i < |s.swipes| ==> s.swipes[i].from != s.swipes[i].to)
    && MatchesNormalized(s.matches)
    && (forall a: Id, b: Id :: HasMatchRow(s, a, b) <==> MutualLike(s, a, b))
    && (forall a: Id, b: Id :: BlockedEitherWay(s.blocks, a, b) ==> !ActivelyMatched(s, a, b))
    && ConversationsOk(s)
  }

  // ---------- how the queries see one write ----------

  lemma LikedByAfter(swipes: seq<Swipe>, w: Swipe, a: Id, b: Id)
    ensures LikedBy(swipes + [w], a, b) <==> LikedBy(swipes, a, b) || (w.from == a && w.to == b && IsLike(w.action))
  {
    var after := swipes + [w];
    if LikedBy(swipes, a, b) {
      var i :| 0 <= i < |swipes| && swipes[i].from == a && swipes[i].to == b && IsLike(swipes[i].action);
      assert after[i] == swipes[i];
    }
    assert after[|swipes|] == w;
  }

  lemma FindMatchAppend(matches: seq<Match>, m: Match, u1: Id, u2: Id)
    ensures FindMatch(matches + [m], u1, u2) ==
            if FindMatch(matches, u1, u2).Some? then FindMatch(matches, u1, u2)
            else if m.user1 == u1 && m.user2 == u2 then Some(|matches|)
            else None
  {
    assert (matches + [m])[..|matches|] == matches;
  }

  lemma {:induction false} FindMatchRestatus(matches: seq<Match>, after: seq<Match>, u1: Id, u2: Id)
    requires |matches| == |after|
    requires forall i :: 0 <= i < |matches| ==> matches[i].user1 == after[i].user1 && matches[i].user2 == after[i].user2
    ensures FindMatch(matches, u1, u2) == FindMatch(after, u1, u2)
  {
    if matches != [] {
      FindMatchRestatus(matches[..|matches| - 1], after[..|after| - 1], u1, u2);
    }
  }

  /** A write that only takes matches out of ACTIVE. */
  ghost predicate OnlyEnds(before: seq<Match>, after: seq<Match>) {
    && |before| == |after|
    && forall i :: 0 <= i < |before| ==>
         && after[i].user1 == before[i].user1 && after[i].user2 == before[i].user2
         && (after[i].status == ActiveMatch ==> before[i].status == ActiveMatch)
  }

  lemma EndingKeepsPairs(before: seq<Match>, after: seq<Match>)
    requires OnlyEnds(before, after)
    ensures forall a: Id, b: Id :: GetBetween(after, a, b) == GetBetween(before, a, b)
    ensures forall a: Id, b: Id :: GetActiveBetween(after, a, b).Some? ==> GetActiveBetween(before, a, b).Some?
    ensures MatchesNormalized(before) ==> MatchesNormalized(after)
  {
    forall a: Id, b: Id
      ensures GetBetween(after, a, b) == GetBetween(before, a, b)
    {
      FindMatchRestatus(before, after, Min(a, b), Max(a, b));
    }
  }

  // ---------- each transition keeps the invariant ----------

  /** A like that completes a mutual like finds no row for the pair, so the insert cannot fail. */
  lemma MatchInsertSucceeds(s: State, from: Id, target: Id, action: SwipeAction)
    requires Inv(s) && from != target && IsLike(action) && !LikedBy(s.swipes, from, target)
    ensures var s1 := s.(swipes := s.swipes + [Swipe(from, target, action)]);
            && CreateBetween(s1, from, target).Ok?
            && !ActivelyMatched(s1, from, target)
            && (LikedBy(s1.swipes, target, from) <==> LikedBy(s.swipes, target, from))
  {
    assert !MutualLike(s, from, target);
    assert !HasMatchRow(s, from, target);
    LikedByAfter(s.swipes, Swipe(from, target, action), target, from);
  }

  /** What an accepted swipe does to the rows of one pair: a like that is returned adds the swipers' match row. */
  ghost predicate SwipeWrites(s: State, s': State, w: Swipe) {
    && s'.swipes == s.swipes + [w] && s'.blocks == s.blocks && w.from != w.to
    && (IsLike(w.action) ==> !LikedBy(s.swipes, w.from, w.to))
    && if IsLike(w.action) && LikedBy(s.swipes, w.to, w.from)
       then !BlockedEitherWay(s.blocks, w.from, w.to) && s'.matches == s.matches + [Match(Min(w.from, w.to), Max(w.from, w.to), ActiveMatch)]
       else s'.matches == s.matches
  }

  lemma PairAfterSwipe(s: State, s': State, w: Swipe, a: Id, b: Id)
    requires Inv(s) && SwipeWrites(s, s', w)
    ensures HasMatchRow(s', a, b) <==> MutualLike(s', a, b)
    ensures BlockedEitherWay(s'.blocks, a, b) ==> !ActivelyMatched(s', a, b)
    ensures HasMatchRow(s, a, b) ==> HasMatchRow(s', a, b)
  {
    LikedByAfter(s.swipes, w, a, b);
    LikedByAfter(s.swipes, w, b, a);
    assert HasMatchRow(s, a, b) <==> MutualLike(s, a, b);
    assert BlockedEitherWay(s.blocks, a, b) ==> !ActivelyMatched(s, a, b);
    if s'.matches != s.matches {
      FindMatchAppend(s.matches, s'.matches[|s.matches|], Min(a, b), Max(a, b));
    }
  }

  lemma SwipeKeepsInv(s: State, from: Id, target: Id, action: SwipeAction)
    requires Inv(s)
    ensures Inv(Step(s, SwipeEvent(from, target, action)))
  {
    var o := SwipeOn(s, from, target, action);
    if o.Committed? {
      var s' := o.state;
      var w := Swipe(from, target, action);
      if IsLike(action) {
        MatchInsertSucceeds(s, from, target, action);
      }
      assert SwipeWrites(s, s', w);
      forall a: Id, b: Id
        ensures HasMatchRow(s', a, b) <==> MutualLike(s', a, b)
        ensures BlockedEitherWay(s'.blocks, a, b) ==> !ActivelyMatched(s', a, b)
        ensures HasMatchRow(s, a, b) ==> HasMatchRow(s', a, b)
      {
        PairAfterSwipe(s, s', w, a, b);
      }
      ConversationsKept(s, s');
    }
  }

  lemma ConversationsKept(s: State, s': State)
    requires ConversationsOk(s) && s'.conversations == s.conversations && s'.participants == s.participants
    requires forall a: Id, b: Id :: HasMatchRow(s, a, b) ==> HasMatchRow(s', a, b)
    ensures ConversationsOk(s')
  {
    forall c: Id | c < s'.conversations
      ensures ConversationOk(s', c)
    {
      assert ConversationOk(s, c);
    }
    forall c: Id, d: Id | c < d < s'.conversations
      ensures !SamePair(s', c, d)
    {
      assert !SamePair(s, c, d);
    }
  }

  /** Unmatching, blocking and unblocking change statuses and blocks only. */
  lemma EndingKeepsInv(s: State, s': State)
    requires Inv(s) && OnlyEnds(s.matches, s'.matches)
    requires s' == s.(matches := s'.matches, blocks := s'.blocks)
    requires forall a: Id, b: Id :: BlockedEitherWay(s'.blocks, a, b) ==> BlockedEitherWay(s.blocks, a, b) || !ActivelyMatched(s', a, b)
    ensures Inv(s')
  {
    EndingKeepsPairs(s.matches, s'.matches);
    forall a: Id, b: Id
      ensures HasMatchRow(s', a, b) <==> MutualLike(s', a, b)
      ensures BlockedEitherWay(s'.blocks, a, b) ==> !ActivelyMatched(s', a, b)
    {
      assert HasMatchRow(s, a, b) <==> MutualLike(s, a, b);
      assert GetBetween(s'.matches, a, b) == GetBetween(s.matches, a, b);
      assert BlockedEitherWay(s.blocks, a, b) ==> !ActivelyMatched(s, a, b);
      assert GetActiveBetween(s'.matches, a, b).Some? ==> GetActiveBetween(s.matches, a, b).Some?;
    }
    forall a: Id, b: Id | HasMatchRow(s, a, b)
      ensures HasMatchRow(s', a, b)
    {
      assert GetBetween(s'.matches, a, b) == GetBetween(s.matches, a, b);
    }
    ConversationsKept(s, s');
  }

  /** Blocking takes the pair's row, the only one, out of ACTIVE. */
  lemma BlockEndsPair(s: State, blocker: Id, target: Id)
    requires Inv(s)
    ensures var s' := Step(s, BlockEvent(blocker, target));
            OnlyEnds(s.matches, s'.matches)
            && (BlockUser(s, blocker, target).Committed? ==> !ActivelyMatched(s', blocker, target) && !ActivelyMatched(s', target, blocker))
  {
    var s' := Step(s, BlockEvent(blocker, target));
    EndingKeepsPairs(s.matches, s'.matches);
    assert GetBetween(s'.matches, blocker, target) == GetBetween(s.matches, blocker, target);
  }

  lemma BlockKeepsInv(s: State, blocker: Id, target: Id)
    requires Inv(s)
    ensures Inv(Step(s, BlockEvent(blocker, target)))
  {
    var s' := Step(s, BlockEvent(blocker, target));
    BlockEndsPair(s, blocker, target);
    if s' != s {
      EndingKeepsInv(s, s');
    }
  }

  lemma ParticipantsAre(s: State, c: Id, u: Id)
    requires ConversationsOk(s)
    ensures Participant(c, u) in s.participants <==>
            c < s.conversations && (s.participants[2 * c].user == u || s.participants[2 * c + 1].user == u)
  {
    if Participant(c, u) in s.participants {
      var i :| 0 <= i < |s.participants| && s.participants[i] == Participant(c, u);
      assert ConversationOk(s, i / 2);
      assert i == 2 * (i / 2) || i == 2 * (i / 2) + 1;
    }
    if c < s.conversations {
      assert ConversationOk(s, c);
      assert s.participants[2 * c] in s.participants && s.participants[2 * c + 1] in s.participants;
    }
  }

  lemma StartKeepsInv(s: State, user: Id, target: Id)
    requires Inv(s)
    ensures Inv(Step(s, StartEvent(user, target)))
  {
    var s' := Step(s, StartEvent(user, target));
    if s' != s {
      var n := s.conversations;
      var m := GetBetween(s.matches, user, target);
      assert s.matches[m.value].user1 < s.matches[m.value].user2;
      forall a: Id, b: Id
        ensures HasMatchRow(s', a, b) <==> MutualLike(s', a, b)
        ensures BlockedEitherWay(s'.blocks, a, b) ==> !ActivelyMatched(s', a, b)
      {
        assert HasMatchRow(s, a, b) <==> MutualLike(s, a, b);
        assert BlockedEitherWay(s.blocks, a, b) ==> !ActivelyMatched(s, a, b);
      }
      assert HasMatchRow(s', user, target);
      forall c: Id | c < s'.conversations
        ensures ConversationOk(s', c)
      {
        if c < n {
          assert ConversationOk(s, c);
        }
      }
      forall c: Id, d: Id | c < d < s'.conversations
        ensures !SamePair(s', c, d)
      {
        if d < n {
          assert !SamePair(s, c, d);
        } else {
          ParticipantsAre(s, c, user);
          ParticipantsAre(s, c, target);
          assert user in {s'.participants[2 * d].user, s'.participants[2 * d + 1].user};
          assert target in {s'.participants[2 * d].user, s'.participants[2 * d + 1].user};
        }
      }
    }
  }

  lemma StepKeepsInv(s: State, e: Event)
    requires Inv(s)
    ensures Inv(Step(s, e))
  {
    match e
    case RegisterEvent(row) => EndingUsersKeepInv(s, Step(s, e));
    case AccountEvent(user, row) => EndingUsersKeepInv(s, Step(s, e));
    case SwipeEvent(from, target, action) => SwipeKeepsInv(s, from, target, action);
    case UnmatchEvent(user, m) =>
      if Step(s, e) != s {
        EndingKeepsPairs(s.matches, Step(s, e).matches);
        EndingKeepsInv(s, Step(s, e));
      }
    case BlockEvent(blocker, target) => BlockKeepsInv(s, blocker, target);
    case UnblockEvent(blocker, target) =>
      if Step(s, e) != s {
        EndingKeepsInv(s, Step(s, e));
      }
    case StartEvent(user, target) => StartKeepsInv(s, user, target);
  }

  /** Account changes touch no relation. */
  lemma EndingUsersKeepInv(s: State, s': State)
    requires Inv(s) && s' == s.(users := s'.users)
    ensures Inv(s')
  {
    forall a: Id, b: Id
      ensures HasMatchRow(s', a, b) <==> MutualLike(s', a, b)
      ensures BlockedEitherWay(s'.blocks, a, b) ==> !ActivelyMatched(s', a, b)
    {
      assert HasMatchRow(s, a, b) <==> MutualLike(s, a, b);
      assert BlockedEitherWay(s.blocks, a, b) ==> !ActivelyMatched(s, a, b);
    }
    forall a: Id, b: Id | HasMatchRow(s, a, b)
      ensures HasMatchRow(s', a, b)
    {
    }
    ConversationsKept(s, s');
  }

  lemma {:induction false} RunKeepsInv(s: State, run: seq<Event>)
    requires Inv(s)
    ensures Inv(Run(s, run))
  {
    if run != [] {
      RunKeepsInv(s, run[..|run| - 1]);
      StepKeepsInv(Run(s, run[..|run| - 1]), run[|run| - 1]);
    }
  }

  lemma InitialInv(s: State)
    requires Initial(s)
    ensures Inv(s)
  {
  }

  lemma Reachable(s: State, run: seq<Event>)
    requires Initial(s)
    ensures Inv(Run(s, run))
  {
    InitialInv(s);
    RunKeepsInv(s, run);
  }

  // ---------- matches ----------

  /** A match row of any status exists for a pair exactly when each has liked the other. */
  lemma MatchIffMutualLike(s: State, run: seq<Event>, a: Id, b: Id)
    requires Initial(s)
    ensures HasMatchRow(Run(s, run), a, b) <==> MutualLike(Run(s, run), a, b)
  {
    Reachable(s, run);
  }

  /**
    The "already matched" branch is dead, and the only insert the database ever refuses is a second PASS on the
    same user, which the service means to allow.
   */
  lemma SwipeErrors(s: State, run: seq<Event>, from: Id, target: Id, action: SwipeAction)
    requires Initial(s)
    ensures var t := Run(s, run);
            var o := SwipeOn(t, from, target, action);
            && o != RolledBack(AlreadyMatched)
            && (o == RolledBack(IntegrityError) <==>
                  target < |t.users| && CanInteract(t, from, target).None? && action == Pass && Swipe(from, target, Pass) in t.swipes)
  {
    Reachable(s, run);
    var t := Run(s, run);
    if Swipe(from, target, action) in t.swipes && IsLike(action) {
      assert LikedBy(t.swipes, from, target);
    }
    if from != target && IsLike(action) && !LikedBy(t.swipes, from, target) {
      MatchInsertSucceeds(t, from, target, action);
    }
  }

  /** One PASS is accepted and the next one fails: a run that shows the refused insert happens. */
  lemma SecondPassFails()
    ensures var run := [RegisterEvent(User(Active, false, false)), RegisterEvent(User(Active, false, false)), SwipeEvent(0, 1, Pass)];
            var t := Run(State([], [], [], [], 0, []), run);
            t.swipes == [Swipe(0, 1, Pass)] && SwipeOn(t, 0, 1, Pass) == RolledBack(IntegrityError)
  {
    var s := State([], [], [], [], 0, []);
    var u := User(Active, false, false);
    var run := [RegisterEvent(u), RegisterEvent(u), SwipeEvent(0, 1, Pass)];
    assert run[..2][..1] == [RegisterEvent(u)] && run[..2] == [RegisterEvent(u), RegisterEvent(u)];
    assert Run(s, run[..2][..1]) == Step(Run(s, []), RegisterEvent(u));
    assert Run(s, run[..2]).users == [u, u];
  }

  lemma BlockedNeverActivelyMatched(s: State, run: seq<Event>, a: Id, b: Id)
    requires Initial(s) && BlockedEitherWay(Run(s, run).blocks, a, b)
    ensures !ActivelyMatched(Run(s, run), a, b)
  {
    Reachable(s, run);
  }

  ghost predicate Ended(s: State, a: Id, b: Id) {
    HasMatchRow(s, a, b) && !ActivelyMatched(s, a, b)
  }

  /** A step ends matches or inserts one row for a pair that has none. */
  lemma StepOnMatches(s: State, e: Event)
    ensures var s' := Step(s, e);
            || OnlyEnds(s.matches, s'.matches)
            || (|s'.matches| == |s.matches| + 1 && s'.matches[..|s.matches|] == s.matches
                && FindMatch(s.matches, s'.matches[|s.matches|].user1, s'.matches[|s.matches|].user2).None?)
  {
  }

  lemma StepKeepsEnded(s: State, e: Event, a: Id, b: Id)
    ensures Ended(s, a, b) ==> Ended(Step(s, e), a, b)
    ensures HasMatchRow(s, a, b) ==> HasMatchRow(Step(s, e), a, b)
  {
    StepOnMatches(s, e);
    var after := Step(s, e).matches;
    if OnlyEnds(s.matches, after) {
      EndingKeepsPairs(s.matches, after);
      assert GetBetween(after, a, b) == GetBetween(s.matches, a, b);
    } else {
      assert after == s.matches + [after[|s.matches|]];
      FindMatchAppend(s.matches, after[|s.matches|], Min(a, b), Max(a, b));
    }
  }

  lemma {:induction false} EndedForGood(s: State, run: seq<Event>, a: Id, b: Id)
    ensures Ended(s, a, b) ==> Ended(Run(s, run), a, b)
    ensures HasMatchRow(s, a, b) ==> HasMatchRow(Run(s, run), a, b)
  {
    if run != [] {
      EndedForGood(s, run[..|run| - 1], a, b);
      StepKeepsEnded(Run(s, run[..|run| - 1]), run[|run| - 1], a, b);
    }
  }

  /** A pair whose match left ACTIVE is never actively matched again, whatever is swiped, unblocked or restored later. */
  lemma MatchesNeverComeBack(s: State, first: seq<Event>, middle: seq<Event>, rest: seq<Event>, a: Id, b: Id)
    requires ActivelyMatched(Run(s, first), a, b) && !ActivelyMatched(Run(Run(s, first), middle), a, b)
    ensures !ActivelyMatched(Run(Run(Run(s, first), middle), rest), a, b)
  {
    EndedForGood(Run(s, first), middle, a, b);
    EndedForGood(Run(Run(s, first), middle), rest, a, b);
  }

  // ---------- conversations ----------

  ghost function ParticipantsOf(s: State, c: Id): set<Id> {
    set i | 0 <= i < |s.participants| && s.participants[i].conversation == c :: s.participants[i].user
  }

  lemma TwoParticipants(s: State, c: Id) returns (a: Id, b: Id)
    requires Inv(s) && c < s.conversations
    ensures a != b && ParticipantsOf(s, c) == {a, b} && HasMatchRow(s, a, b)
    ensures a == s.participants[2 * c].user && b == s.participants[2 * c + 1].user
  {
    assert ConversationOk(s, c);
    a, b := s.participants[2 * c].user, s.participants[2 * c + 1].user;
    forall u: Id
      ensures u in ParticipantsOf(s, c) <==> u in {a, b}
    {
      ParticipantsAre(s, c, u);
      if u in ParticipantsOf(s, c) {
        var i :| 0 <= i < |s.participants| && s.participants[i].conversation == c && s.participants[i].user == u;
        assert s.participants[i] == Participant(c, u);
      }
    }
  }

  /** Every conversation has exactly two distinct participants, and they have liked each other. */
  lemma ConversationsSitOnMatches(s: State, run: seq<Event>, c: Id)
    requires Initial(s) && c < Run(s, run).conversations
    ensures var t := Run(s, run);
            |ParticipantsOf(t, c)| == 2
            && forall a, b :: a in ParticipantsOf(t, c) && b in ParticipantsOf(t, c) && a != b ==> HasMatchRow(t, a, b) && MutualLike(t, a, b)
  {
    Reachable(s, run);
    var t := Run(s, run);
    var a, b := TwoParticipants(t, c);
    assert MutualLike(t, a, b);
  }

  lemma OneConversationPerPair(s: State, run: seq<Event>, c: Id, d: Id)
    requires Initial(s) && c < Run(s, run).conversations && d < Run(s, run).conversations
    requires ParticipantsOf(Run(s, run), c) == ParticipantsOf(Run(s, run), d)
    ensures c == d
  {
    Reachable(s, run);
    var t := Run(s, run);
    var a, b := TwoParticipants(t, c);
    var a', b' := TwoParticipants(t, d);
    assert SamePair(t, c, d) && SamePair(t, d, c);
  }

  /** The block check after the match check never fires. */
  lemma StartNeverFindsBlock(s: State, run: seq<Event>, user: Id, target: Id)
    requires Initial(s)
    ensures StartConversation(Run(s, run), user, target) != RolledBack(BlockedPair)
  {
    Reachable(s, run);
  }

  /** Either side opening the conversation again gets the same one, and nothing is written. */
  lemma ReopeningIsIdempotent(s: State, run: seq<Event>, user: Id, target: Id)
    requires Initial(s) && user < |Run(s, run).users|
    requires StartConversation(Run(s, run), user, target).Committed?
    ensures var first := StartConversation(Run(s, run), user, target);
            && StartConversation(first.state, user, target) == first
            && StartConversation(first.state, target, user) == first
  {
    Reachable(s, run);
    var t := Run(s, run);
    StartKeepsInv(t, user, target);
    var first := StartConversation(t, user, target);
    var t' := first.state;
    ParticipantsAre(t', first.reply.id, user);
    ParticipantsAre(t', first.reply.id, target);
    var m := GetBetween(t.matches, user, target);
    assert t.matches[m.value].user1 < t.matches[m.value].user2;
    if first.state != t {
      assert t'.participants[2 * t.conversations].user == user && t'.participants[2 * t.conversations + 1].user == target;
    }
    SharedIsUnique(t', first.reply.id, GetDirectConversation(t'.participants, user, target).value, user, target);
    SharedIsUnique(t', first.reply.id, GetDirectConversation(t'.participants, target, user).value, user, target);
  }

  lemma SharedIsUnique(s: State, c: Id, d: Id, a: Id, b: Id)
    requires Inv(s) && a != b
    requires Participant(c, a) in s.participants && Participant(c, b) in s.participants
    requires Participant(d, a) in s.participants && Participant(d, b) in s.participants
    ensures c == d
  {
    ParticipantsAre(s, c, a);
    ParticipantsAre(s, c, b);
    ParticipantsAre(s, d, a);
    ParticipantsAre(s, d, b);
    assert SamePair(s, c, d) && SamePair(s, d, c);
  }
}
