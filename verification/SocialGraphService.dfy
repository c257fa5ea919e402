/**
  The swipe, match, block and message services as they write rows, each method proved to make the
  transition that module SocialGraph specifies.  Routes drop the writes of a service call that raised.
 */
module SocialGraphService {
  import opened Common
  import opened SocialGraph

  class Session {
    var users: seq<User>
    var swipes: seq<Swipe>
    var matches: seq<Match>
    var blocks: seq<Block>
    var conversations: nat
    var participants: seq<Participant>

    function Snapshot(): State
      reads this
    {
      State(users, swipes, matches, blocks, conversations, participants)
    }

    constructor (s: State)
      ensures Snapshot() == s
    {
      users, swipes, matches, blocks, conversations, participants :=
        s.users, s.swipes, s.matches, s.blocks, s.conversations, s.participants;
    }

    method Rollback(saved: State)
      modifies this
      ensures Snapshot() == saved
    {
      users, swipes, matches, blocks, conversations, participants :=
        saved.users, saved.swipes, saved.matches, saved.blocks, saved.conversations, saved.participants;
    }

    method InsertMatch(a: Id, b: Id) returns (r: Result<Id, Error>)
      modifies this`matches
      ensures match CreateBetween(old(Snapshot()), a, b)
              case Ok(s') => r == Ok(|old(matches)|) && Snapshot() == s'
              case Err(e) => r == Err(e) && Snapshot() == old(Snapshot())
    {
      var u1, u2 := Min(a, b), Max(a, b);
      if FindMatch(matches, u1, u2).Some? || u1 >= u2 { return Err(IntegrityError); }
      matches := matches + [Match(u1, u2, ActiveMatch)];
      return Ok(|matches| - 1);
    }

    /** The guards of a swipe, in the order the service checks them. */
    method AssertCanInteract(from: Id, target: Id) returns (failure: Option<Error>)
      requires target < |users|
      ensures failure == CanInteract(Snapshot(), from, target)
    {
      if from == target { return Some(SelfSwipe); }
      var row := users[target];
      if row.deleted || row.status == Deleted { return Some(UserNotFound); }
      if row.isBanned || row.status == Banned { return Some(UserBanned); }
      if row.status != Active { return Some(UserUnavailable); }
      var blocked := Blocks(blocks, from, target);
      if blocked { return Some(BlockedPair); }
      blocked := Blocks(blocks, target, from);
      if blocked { return Some(BlockedPair); }
      return None;
    }

    method Swipe(from: Id, target: Id, action: SwipeAction) returns (r: Result<bool, Error>)
      modifies this
      ensures match SwipeOn(old(Snapshot()), from, target, action)
              case Committed(s', reply) => r.Ok? && reply == Swiped(r.value) && Snapshot() == s'
              case RolledBack(e) => r == Err(e)
    {
      if target >= |users| { return Err(UserNotFound); }
      var failure := AssertCanInteract(from, target);
      if failure.Some? { return Err(failure.value); }
      if action in {Like, SuperLike} {
        if LikedBy(swipes, from, target) { return Err(DuplicateSwipe); }
      }
      var row := SocialGraph.Swipe(from, target, action);
      if row in swipes { return Err(IntegrityError); }
      swipes := swipes + [row];

      var matchCreated := false;
      if action in {Like, SuperLike} {
        if LikedBy(swipes, target, from) {
          if GetActiveBetween(matches, from, target).Some? { return Err(AlreadyMatched); }
          var inserted := InsertMatch(from, target);
          if inserted.Err? { return Err(inserted.error); }
          matchCreated := true;
        }
      }
      return Ok(matchCreated);
    }

    /** The swipe route: commit, or drop what the service wrote before it raised. */
    method PostSwipe(from: Id, target: Id, action: SwipeAction) returns (r: Result<bool, Error>)
      modifies this
      ensures Snapshot() == Step(old(Snapshot()), SwipeEvent(from, target, action))
      ensures match SwipeOn(old(Snapshot()), from, target, action)
              case Committed(_, reply) => r.Ok? && reply == Swiped(r.value)
              case RolledBack(e) => r == Err(e)
    {
      var saved := Snapshot();
      r := Swipe(from, target, action);
      if r.Err? {
        Rollback(saved);
      }
    }

    method EndMatch(user: Id, m: Id) returns (r: Result<Id, Error>)
      modifies this`matches
      ensures Snapshot() == Step(old(Snapshot()), UnmatchEvent(user, m))
      ensures r == match Unmatch(old(Snapshot()), user, m)
                   case Committed(_, _) => Ok(m)
                   case RolledBack(e) => Err(e)
    {
      if m >= |matches| { return Err(MatchNotFound); }
      if matches[m].user1 != user && matches[m].user2 != user { return Err(Forbidden); }
      matches := matches[m := matches[m].(status := Unmatched)];
      return Ok(m);
    }

    method BlockAndUnmatch(blocker: Id, target: Id)
      modifies this`matches
      ensures var m := GetActiveBetween(old(matches), blocker, target);
              matches == if m.Some? then old(matches)[m.value := old(matches)[m.value].(status := BlockedMatch)] else old(matches)
    {
      var m := GetActiveBetween(matches, blocker, target);
      if m.Some? {
        matches := matches[m.value := matches[m.value].(status := BlockedMatch)];
      }
    }

    method Block(blocker: Id, target: Id) returns (r: Result<Id, Error>)
      modifies this
      ensures Snapshot() == Step(old(Snapshot()), BlockEvent(blocker, target))
      ensures r == match BlockUser(old(Snapshot()), blocker, target)
                   case Committed(_, _) => Ok(target)
                   case RolledBack(e) => Err(e)
    {
      if blocker == target { return Err(SelfBlock); }
      if target >= |users| { return Err(UserNotFound); }
      if Blocks(blocks, blocker, target) { return Err(AlreadyBlocked); }
      blocks := blocks + [SocialGraph.Block(blocker, target)];
      BlockAndUnmatch(blocker, target);
      return Ok(target);
    }

    method RemoveBlock(blocker: Id, target: Id) returns (r: Result<Id, Error>)
      modifies this`blocks
      ensures Snapshot() == Step(old(Snapshot()), UnblockEvent(blocker, target))
      ensures r == match Unblock(old(Snapshot()), blocker, target)
                   case Committed(_, _) => Ok(target)
                   case RolledBack(e) => Err(e)
    {
      if !Blocks(blocks, blocker, target) { return Err(BlockNotFound); }
      blocks := Without(blocks, SocialGraph.Block(blocker, target));
      return Ok(target);
    }

    method OpenConversation(user: Id, target: Id) returns (r: Result<Id, Error>)
      modifies this`conversations, this`participants
      ensures match StartConversation(old(Snapshot()), user, target)
              case Committed(s', reply) => r.Ok? && reply == Conversation(r.value) && Snapshot() == s'
              case RolledBack(e) => r == Err(e) && Snapshot() == old(Snapshot())
    {
      if target >= |users| { return Err(UserNotFound); }
      if GetActiveBetween(matches, user, target).None? { return Err(NotMatched); }
      if BlockedEitherWay(blocks, user, target) { return Err(BlockedPair); }
      var existing := GetDirectConversation(participants, user, target);
      if existing.Some? { return Ok(existing.value); }
      var id := conversations;
      conversations := conversations + 1;
      participants := participants + [Participant(id, user), Participant(id, target)];
      return Ok(id);
    }
  }
}
