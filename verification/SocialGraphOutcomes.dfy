/**
  What each social request does, told from outside: when it is accepted, which rows it writes, what it answers, and
  why it is refused otherwise.
 */
module SocialGraphOutcomes {
  import opened Common
  import opened SocialGraph
  import opened SocialGraphTheorems

  /** An account that others can interact with. */
  predicate Available(u: User) {
    u.status == Active && !u.isBanned && !u.deleted
  }

  /** The guard lets a swipe through between different users, of whom the target is available and neither blocks the other. */
  lemma GuardOutcome(s: State, from: Id, target: Id)
    requires target < |s.users|
    ensures var u := s.users[target];
            var gone := u.deleted || u.status == Deleted;
            var banned := u.isBanned || u.status == Banned;
            var refusal := CanInteract(s, from, target);
            && (refusal.None? <==> from != target && Available(u) && !BlockedEitherWay(s.blocks, from, target))
            && (refusal == Some(SelfSwipe) <==> from == target)
            && (refusal == Some(UserNotFound) <==> from != target && gone)
            && (refusal == Some(UserBanned) <==> from != target && !gone && banned)
            && (refusal == Some(UserUnavailable) <==> from != target && !gone && !banned && u.status in {AccountStatus.Pending, Suspended})
            && (refusal == Some(BlockedPair) <==> from != target && Available(u) && BlockedEitherWay(s.blocks, from, target))
  {
  }

  /** The swipe is new: no like of the target yet for a like, no PASS on the target yet for a PASS. */
  predicate IsNew(s: State, from: Id, target: Id, action: SwipeAction) {
    if action == Pass then Swipe(from, target, Pass) !in s.swipes else !LikedBy(s.swipes, from, target)
  }

  /** The rows and the answer of an accepted swipe. */
  ghost predicate SwipeWritten(s: State, o: Outcome, from: Id, target: Id, action: SwipeAction)
    requires o.Committed?
  {
    var t := o.state;
    && t == s.(swipes := s.swipes + [Swipe(from, target, action)], matches := t.matches)
    && o.reply.Swiped?
    && (o.reply.matchCreated <==> !HasMatchRow(s, from, target) && HasMatchRow(t, from, target))
    && (o.reply.matchCreated <==> action != Pass && LikedBy(s.swipes, target, from))
    && (!o.reply.matchCreated ==> t.matches == s.matches)
    && (o.reply.matchCreated ==>
          && ActivelyMatched(t, from, target)
          && |t.matches| == |s.matches| + 1 && t.matches[..|s.matches|] == s.matches
          && {t.matches[|s.matches|].user1, t.matches[|s.matches|].user2} == {from, target})
  }

  /**
    In every reachable state a swipe is accepted exactly when the guard lets it through and it is new.  It adds its
    row, and answers that it made a match exactly when it is a like of someone who had liked the swiper: then the pair,
    which had no match row, is actively matched.
   */
  lemma SwipeOutcome(s: State, run: seq<Event>, from: Id, target: Id, action: SwipeAction)
    requires Initial(s)
    ensures var t := Run(s, run);
            var o := Handle(t, SwipeEvent(from, target, action));
            && (o.Committed? <==>
                  && target < |t.users| && from != target && Available(t.users[target])
                  && !BlockedEitherWay(t.blocks, from, target) && IsNew(t, from, target, action))
            && (o.Committed? ==> SwipeWritten(t, o, from, target, action))
            && (target >= |t.users| ==> o == RolledBack(UserNotFound))
            && (target < |t.users| && CanInteract(t, from, target).Some? ==> o == RolledBack(CanInteract(t, from, target).value))
            && (target < |t.users| && CanInteract(t, from, target).None? && action != Pass && LikedBy(t.swipes, from, target) ==>
                  o == RolledBack(DuplicateSwipe))
  {
    Reachable(s, run);
    SwipeErrors(s, run, from, target, action);
    var t := Run(s, run);
    if target < |t.users| {
      GuardOutcome(t, from, target);
      SwipeIsWritten(t, from, target, action);
    }
  }

  lemma SwipeIsWritten(s: State, from: Id, target: Id, action: SwipeAction)
    requires Inv(s)
    ensures var o := Handle(s, SwipeEvent(from, target, action));
            && (o.Committed? ==> SwipeWritten(s, o, from, target, action))
            && (target < |s.users| && CanInteract(s, from, target).None? && IsNew(s, from, target, action) ==> o.Committed?)
            && (o.Committed? ==> IsNew(s, from, target, action))
  {
    var o := Handle(s, SwipeEvent(from, target, action));
    if target < |s.users| && CanInteract(s, from, target).None? {
      if Swipe(from, target, action) in s.swipes && IsLike(action) {
        assert LikedBy(s.swipes, from, target);
      }
      if IsLike(action) && !LikedBy(s.swipes, from, target) {
        MatchInsertSucceeds(s, from, target, action);
      }
      if o.Committed? && o.state.matches != s.matches {
        FindMatchAppend(s.matches, o.state.matches[|s.matches|], Min(from, target), Max(from, target));
      }
      assert HasMatchRow(s, from, target) <==> MutualLike(s, from, target);
    }
  }

  predicate TakesPart(m: Match, user: Id) {
    m.user1 == user || m.user2 == user
  }

  /** A participant, and no one else, ends a match: the pair is not actively matched afterwards, and nothing else changes. */
  lemma UnmatchOutcome(s: State, run: seq<Event>, user: Id, m: Id)
    requires Initial(s)
    ensures var t := Run(s, run);
            var o := Handle(t, UnmatchEvent(user, m));
            && (o.Committed? <==> m < |t.matches| && TakesPart(t.matches[m], user))
            && (o.Committed? ==>
                  && o.state == t.(matches := t.matches[m := t.matches[m].(status := Unmatched)])
                  && !ActivelyMatched(o.state, t.matches[m].user1, t.matches[m].user2))
            && (o.RolledBack? ==> o.error == if m < |t.matches| then Forbidden else MatchNotFound)
  {
    Reachable(s, run);
    var t := Run(s, run);
    var o := Handle(t, UnmatchEvent(user, m));
    if o.Committed? {
      EndingKeepsPairs(t.matches, o.state.matches);
      TheRowOfAPair(t.matches, m);
      assert GetBetween(o.state.matches, t.matches[m].user1, t.matches[m].user2) == GetBetween(t.matches, t.matches[m].user1, t.matches[m].user2);
    }
  }

  lemma TheRowOfAPair(matches: seq<Match>, m: Id)
    requires MatchesNormalized(matches) && m < |matches|
    ensures GetBetween(matches, matches[m].user1, matches[m].user2) == Some(m)
  {
    assert matches[m].user1 < matches[m].user2;
    var k := FindMatch(matches, matches[m].user1, matches[m].user2);
    assert k.Some? && (k.value < m || k.value > m || k.value == m);
  }

  /** A block, of an existing other user not blocked yet, is recorded, ends the pair's active match and touches no other pair's. */
  lemma BlockOutcome(s: State, run: seq<Event>, blocker: Id, target: Id)
    requires Initial(s)
    ensures var t := Run(s, run);
            var o := Handle(t, BlockEvent(blocker, target));
            && (o.Committed? <==> blocker != target && target < |t.users| && !Blocks(t.blocks, blocker, target))
            && (o.Committed? ==>
                  && o.state == t.(blocks := t.blocks + [Block(blocker, target)], matches := o.state.matches)
                  && Blocks(o.state.blocks, blocker, target)
                  && OnlyEnds(t.matches, o.state.matches) && !ActivelyMatched(o.state, blocker, target)
                  && forall i :: 0 <= i < |t.matches| ==>
                       o.state.matches[i] == if {t.matches[i].user1, t.matches[i].user2} == {blocker, target} && t.matches[i].status == ActiveMatch
                                             then t.matches[i].(status := BlockedMatch) else t.matches[i])
            && (o.RolledBack? ==> o.error == if blocker == target then SelfBlock else if target < |t.users| then AlreadyBlocked else UserNotFound)
  {
    Reachable(s, run);
    var t := Run(s, run);
    var o := Handle(t, BlockEvent(blocker, target));
    if o.Committed? {
      BlockEndsPair(t, blocker, target);
      forall i: Id | i < |t.matches| && {t.matches[i].user1, t.matches[i].user2} == {blocker, target}
        ensures GetBetween(t.matches, blocker, target) == Some(i)
      {
        TheRowOfAPair(t.matches, i);
        SamePairSameEnds(t.matches[i], blocker, target);
      }
      var m := GetBetween(t.matches, blocker, target);
      if m.Some? {
        EndsAreAPair(t.matches[m.value], blocker, target);
      }
    }
  }

  lemma SamePairSameEnds(m: Match, a: Id, b: Id)
    requires {m.user1, m.user2} == {a, b} && m.user1 < m.user2
    ensures m.user1 == Min(a, b) && m.user2 == Max(a, b)
  {
    assert m.user1 in {a, b} && m.user2 in {a, b} && a in {m.user1, m.user2} && b in {m.user1, m.user2};
  }

  lemma EndsAreAPair(m: Match, a: Id, b: Id)
    requires m.user1 == Min(a, b) && m.user2 == Max(a, b)
    ensures {m.user1, m.user2} == {a, b}
  {
  }

  /** Unblocking takes back exactly one's own block of that user, and no match returns. */
  lemma UnblockOutcome(s: State, blocker: Id, target: Id)
    ensures var o := Handle(s, UnblockEvent(blocker, target));
            && (o.Committed? <==> Blocks(s.blocks, blocker, target))
            && (o.Committed? ==>
                  && o.state == s.(blocks := o.state.blocks)
                  && forall a, b :: Blocks(o.state.blocks, a, b) <==> Blocks(s.blocks, a, b) && !(a == blocker && b == target))
            && (o.RolledBack? ==> o.error == BlockNotFound)
  {
  }

  /**
    In every reachable state a conversation is given exactly to an existing user's active match: the one the pair has,
    or else a new one, in which just the two take part.
   */
  lemma StartOutcome(s: State, run: seq<Event>, user: Id, target: Id)
    requires Initial(s)
    ensures var t := Run(s, run);
            var o := Handle(t, StartEvent(user, target));
            && (o.Committed? <==> target < |t.users| && ActivelyMatched(t, user, target))
            && (o.Committed? ==>
                  && o.reply.Conversation? && o.reply.id < o.state.conversations
                  && ParticipantsOf(o.state, o.reply.id) == {user, target}
                  && (if o.state == t then o.reply.id < t.conversations else o.reply.id == t.conversations && o.state.conversations == t.conversations + 1)
                  && o.state == t.(conversations := o.state.conversations, participants := o.state.participants)
                  && (o.state == t <==> exists c: Id :: c < t.conversations && ParticipantsOf(t, c) == {user, target}))
            && (o.RolledBack? ==> o.error == if target < |t.users| then NotMatched else UserNotFound)
  {
    Reachable(s, run);
    StartNeverFindsBlock(s, run, user, target);
    var t := Run(s, run);
    if target < |t.users| && ActivelyMatched(t, user, target) {
      Given(t, user, target);
    }
  }

  lemma Given(s: State, user: Id, target: Id)
    requires Inv(s) && target < |s.users| && ActivelyMatched(s, user, target) && !BlockedEitherWay(s.blocks, user, target)
    ensures var o := StartConversation(s, user, target);
            && o.Committed? && o.reply.Conversation? && o.reply.id < o.state.conversations
            && ParticipantsOf(o.state, o.reply.id) == {user, target}
            && (if o.state == s then o.reply.id < s.conversations else o.reply.id == s.conversations)
            && (o.state == s <==> exists c: Id :: c < s.conversations && ParticipantsOf(s, c) == {user, target})
  {
    var o := StartConversation(s, user, target);
    var t := o.state;
    StartKeepsInv(s, user, target);
    var m := GetBetween(s.matches, user, target).value;
    assert s.matches[m].user1 < s.matches[m].user2;
    if t != s {
      assert t.participants[2 * s.conversations].user == user && t.participants[2 * s.conversations + 1].user == target;
    }
    ParticipantsAre(t, o.reply.id, user);
    ParticipantsAre(t, o.reply.id, target);
    var a, b := TwoParticipants(t, o.reply.id);
    forall c: Id | c < s.conversations && ParticipantsOf(s, c) == {user, target} ensures t == s {
      SharedByBoth(s, c, user);
      SharedByBoth(s, c, target);
    }
  }

  lemma SharedByBoth(s: State, c: Id, u: Id)
    requires u in ParticipantsOf(s, c)
    ensures Participant(c, u) in s.participants
  {
    var i :| 0 <= i < |s.participants| && s.participants[i].conversation == c && s.participants[i].user == u;
    assert s.participants[i] == Participant(c, u);
  }
}
