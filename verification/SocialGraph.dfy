/**
  Swipes, matches, blocks and conversations: the tables and the transitions of the four services.

  Users, matches and conversations are sequences whose index is the id; users are never deleted from
  the table, only marked.  Participants are the rows of `conversation_participants`, in insertion order.
 */
module SocialGraph {
  import opened Common

  type Id = nat

  datatype AccountStatus = Pending | Active | Suspended | Banned | Deleted
  datatype User = User(status: AccountStatus, isBanned: bool, deleted: bool)

  datatype SwipeAction = Like | Pass | SuperLike
  datatype Swipe = Swipe(from: Id, to: Id, action: SwipeAction)

  datatype MatchStatus = ActiveMatch | Unmatched | BlockedMatch | ExpiredMatch
  datatype Match = Match(user1: Id, user2: Id, status: MatchStatus)

  datatype Block = Block(blocker: Id, blocked: Id)
  datatype Participant = Participant(conversation: Id, user: Id)

  datatype State = State(
    users: seq<User>,
    swipes: seq<Swipe>,
    matches: seq<Match>,
    blocks: seq<Block>,
    conversations: nat,
    participants: seq<Participant>)

  datatype Error =
    | UserNotFound | SelfSwipe | UserBanned | UserUnavailable | BlockedPair | DuplicateSwipe | AlreadyMatched
    | IntegrityError | MatchNotFound | Forbidden | SelfBlock | AlreadyBlocked | BlockNotFound | NotMatched

  datatype Reply = Swiped(matchCreated: bool) | Done | Conversation(id: Id)

  datatype Outcome = Committed(state: State, reply: Reply) | RolledBack(error: Error)

  ghost predicate Initial(s: State) {
    s == State([], [], [], [], 0, [])
  }

  // ---------- queries ----------

  predicate IsLike(a: SwipeAction) {
    a == Like || a == SuperLike
  }

  /** Both `liked_by` and `mutual_like_exists` ask this of the table. */
  predicate LikedBy(swipes: seq<Swipe>, from: Id, to: Id) {
    exists i :: 0 <= i < |swipes| && swipes[i].from == from && swipes[i].to == to && IsLike(swipes[i].action)
  }

  predicate Blocks(blocks: seq<Block>, a: Id, b: Id) {
    Block(a, b) in blocks
  }

  predicate BlockedEitherWay(blocks: seq<Block>, a: Id, b: Id) {
    Blocks(blocks, a, b) || Blocks(blocks, b, a)
  }

  /** The id of the match row stored for the ordered pair. */
  function FindMatch(matches: seq<Match>, u1: Id, u2: Id): (r: Option<Id>)
    ensures r.Some? ==> r.value < |matches| && matches[r.value].user1 == u1 && matches[r.value].user2 == u2
    ensures r.None? ==> forall i :: 0 <= i < |matches| ==> matches[i].user1 != u1 || matches[i].user2 != u2
  {
    if matches == [] then None
    else
      var last := |matches| - 1;
      var earlier := FindMatch(matches[..last], u1, u2);
      if earlier.Some? then earlier
      else if matches[last].user1 == u1 && matches[last].user2 == u2 then Some(last)
      else None
  }

  function GetBetween(matches: seq<Match>, a: Id, b: Id): (r: Option<Id>)
    ensures r.Some? ==> r.value < |matches|
  {
    FindMatch(matches, Min(a, b), Max(a, b))
  }

  function GetActiveBetween(matches: seq<Match>, a: Id, b: Id): (r: Option<Id>)
    ensures r.Some? ==> r.value < |matches|
  {
    var m := GetBetween(matches, a, b);
    if m.Some? && matches[m.value].status == ActiveMatch then m else None
  }

  /** A conversation in which both users take part. */
  function GetDirectConversation(participants: seq<Participant>, a: Id, b: Id): (r: Option<Id>)
    ensures r.Some? ==> Participant(r.value, a) in participants && Participant(r.value, b) in participants
    ensures r.None? ==> forall c: Id :: !(Participant(c, a) in participants && Participant(c, b) in participants)
  {
    FirstShared(participants, a, b, |participants|)
  }

  function FirstShared(participants: seq<Participant>, a: Id, b: Id, n: nat): (r: Option<Id>)
    requires n <= |participants|
    ensures r.Some? ==> Participant(r.value, a) in participants && Participant(r.value, b) in participants
    ensures r.None? ==> forall i :: 0 <= i < n && participants[i].user == b ==> Participant(participants[i].conversation, a) !in participants
  {
    if n == 0 then None
    else
      var earlier := FirstShared(participants, a, b, n - 1);
      if earlier.Some? then earlier
      else
        var row := participants[n - 1];
        if row.user == b && Participant(row.conversation, a) in participants
        then assert row == Participant(row.conversation, b); Some(row.conversation)
        else None
  }

  /** The guard of every swipe: the error it raises, or None when the swipe may go on. */
  function CanInteract(s: State, from: Id, target: Id): Option<Error>
    requires target < |s.users|
  {
    var t := s.users[target];
    if from == target then Some(SelfSwipe)
    else if t.deleted || t.status == Deleted then Some(UserNotFound)
    else if t.isBanned || t.status == Banned then Some(UserBanned)
    else if t.status != Active then Some(UserUnavailable)
    else if Blocks(s.blocks, from, target) then Some(BlockedPair)
    else if Blocks(s.blocks, target, from) then Some(BlockedPair)
    else None
  }

  // ---------- transitions ----------

  /** Insert a match row for the pair; the table refuses a second row and a pair out of order. */
  function CreateBetween(s: State, a: Id, b: Id): Result<State, Error> {
    var u1, u2 := Min(a, b), Max(a, b);
    if FindMatch(s.matches, u1, u2).Some? || !(u1 < u2) then Err(IntegrityError)
    else Ok(s.(matches := s.matches + [Match(u1, u2, ActiveMatch)]))
  }

  function SwipeOn(s: State, from: Id, target: Id, action: SwipeAction): Outcome {
    if target >= |s.users| then RolledBack(UserNotFound)
    else if CanInteract(s, from, target).Some? then RolledBack(CanInteract(s, from, target).value)
    else if IsLike(action) && LikedBy(s.swipes, from, target) then RolledBack(DuplicateSwipe)
    else if Swipe(from, target, action) in s.swipes then RolledBack(IntegrityError)
    else
      var s1 := s.(swipes := s.swipes + [Swipe(from, target, action)]);
      if IsLike(action) && LikedBy(s1.swipes, target, from) then
        if GetActiveBetween(s1.matches, from, target).Some? then RolledBack(AlreadyMatched)
        else
          match CreateBetween(s1, from, target)
          case Ok(s2) => Committed(s2, Swiped(true))
          case Err(e) => RolledBack(e)
      else Committed(s1, Swiped(false))
  }

  function Unmatch(s: State, user: Id, m: Id): Outcome {
    if m >= |s.matches| then RolledBack(MatchNotFound)
    else if s.matches[m].user1 != user && s.matches[m].user2 != user then RolledBack(Forbidden)
    else Committed(s.(matches := s.matches[m := s.matches[m].(status := Unmatched)]), Done)
  }

  function BlockUser(s: State, blocker: Id, target: Id): Outcome {
    if blocker == target then RolledBack(SelfBlock)
    else if target >= |s.users| then RolledBack(UserNotFound)
    else if Blocks(s.blocks, blocker, target) then RolledBack(AlreadyBlocked)
    else
      var m := GetActiveBetween(s.matches, blocker, target);
      var matches := if m.Some? then s.matches[m.value := s.matches[m.value].(status := BlockedMatch)] else s.matches;
      Committed(s.(blocks := s.blocks + [Block(blocker, target)], matches := matches), Done)
  }

  /** The rows other than `b`. */
  function Without(blocks: seq<Block>, b: Block): (r: seq<Block>)
    ensures forall x :: x in r <==> x in blocks && x != b
  {
    if blocks == [] then []
    else
      var last := |blocks| - 1;
      assert blocks == blocks[..last] + [blocks[last]];
      Without(blocks[..last], b) + (if blocks[last] == b then [] else [blocks[last]])
  }

  function Unblock(s: State, blocker: Id, target: Id): Outcome {
    if !Blocks(s.blocks, blocker, target) then RolledBack(BlockNotFound)
    else Committed(s.(blocks := Without(s.blocks, Block(blocker, target))), Done)
  }

  function CreateConversation(s: State, a: Id, b: Id): State {
    s.(conversations := s.conversations + 1,
       participants := s.participants + [Participant(s.conversations, a), Participant(s.conversations, b)])
  }

  function StartConversation(s: State, user: Id, target: Id): Outcome {
    if target >= |s.users| then RolledBack(UserNotFound)
    else if GetActiveBetween(s.matches, user, target).None? then RolledBack(NotMatched)
    else if BlockedEitherWay(s.blocks, user, target) then RolledBack(BlockedPair)
    else
      var c := GetDirectConversation(s.participants, user, target);
      if c.Some? then Committed(s, Conversation(c.value))
      else Committed(CreateConversation(s, user, target), Conversation(s.conversations))
  }

  // ---------- runs ----------

  datatype Event =
    | RegisterEvent(row: User)
    | AccountEvent(user: Id, row: User)
    | SwipeEvent(from: Id, target: Id, action: SwipeAction)
    | UnmatchEvent(user: Id, matchId: Id)
    | BlockEvent(blocker: Id, target: Id)
    | UnblockEvent(blocker: Id, target: Id)
    | StartEvent(user: Id, target: Id)

  /** Registration appends a user; suspension, ban, deletion and restoration rewrite its account columns. */
  function Handle(s: State, e: Event): Outcome {
    match e
    case RegisterEvent(row) => Committed(s.(users := s.users + [row]), Done)
    case AccountEvent(user, row) =>
      if user < |s.users| then Committed(s.(users := s.users[user := row]), Done) else RolledBack(UserNotFound)
    case SwipeEvent(from, target, action) => SwipeOn(s, from, target, action)
    case UnmatchEvent(user, m) => Unmatch(s, user, m)
    case BlockEvent(blocker, target) => BlockUser(s, blocker, target)
    case UnblockEvent(blocker, target) => Unblock(s, blocker, target)
    case StartEvent(user, target) => StartConversation(s, user, target)
  }

  function Step(s: State, e: Event): State {
    var o := Handle(s, e);
    if o.Committed? then o.state else s
  }

  function Run(s: State, run: seq<Event>): State {
    if run == [] then s else Step(Run(s, run[..|run| - 1]), run[|run| - 1])
  }
}
