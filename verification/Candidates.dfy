/** The candidate query of the recommendation feed, and why it is exactly the set of users one can still swipe on. */
module Candidates {
  import opened SocialGraph
  import opened SocialGraphTheorems

  /** The conditions of the discovery query on one joined profile and user row. */
  predicate Discoverable(users: seq<User>, viewer: Id, u: Id) {
    u < |users| && u != viewer && users[u].status == Active && !users[u].isBanned && !users[u].deleted
  }

  predicate Swiped(swipes: seq<Swipe>, viewer: Id, u: Id) {
    exists i :: 0 <= i < |swipes| && swipes[i].from == viewer && swipes[i].to == u
  }

  /** Someone the viewer may interact with and has not swiped on. */
  predicate Eligible(s: State, viewer: Id, u: Id) {
    u < |s.users| && CanInteract(s, viewer, u).None? && !Swiped(s.swipes, viewer, u)
  }

  /** The users with a profile who are eligible for the viewer, in the order of the profile rows. */
  function EligibleRows(s: State, profiles: seq<Id>, viewer: Id): (r: seq<Id>)
    ensures forall u :: u in r <==> u in profiles && Eligible(s, viewer, u)
  {
    if profiles == [] then []
    else
      var last := |profiles| - 1;
      assert profiles == profiles[..last] + [profiles[last]];
      EligibleRows(s, profiles[..last], viewer) + (if Eligible(s, viewer, profiles[last]) then [profiles[last]] else [])
  }

  /** The other side of the viewer's active matches. */
  predicate ActivePartner(matches: seq<Match>, viewer: Id, u: Id) {
    exists i :: 0 <= i < |matches| && matches[i].status == ActiveMatch && u != viewer
                && ((matches[i].user1 == viewer && matches[i].user2 == u) || (matches[i].user2 == viewer && matches[i].user1 == u))
  }

  /** The ids of the profile rows that pass a test, in table order. */
  function Select(profiles: seq<Id>, users: seq<User>, viewer: Id, excluded: set<Id>): (r: seq<Id>)
    ensures forall u :: u in r <==> u in profiles && Discoverable(users, viewer, u) && u !in excluded
  {
    if profiles == [] then []
    else
      var last := |profiles| - 1;
      assert profiles == profiles[..last] + [profiles[last]];
      Select(profiles[..last], users, viewer, excluded)
      + (if Discoverable(users, viewer, profiles[last]) && profiles[last] !in excluded then [profiles[last]] else [])
  }

  method BlockedSet(s: State, viewer: Id) returns (blocked: set<Id>)
    ensures forall u :: u in blocked <==> BlockedEitherWay(s.blocks, viewer, u)
  {
    blocked := {};
    for i := 0 to |s.blocks|
      invariant forall u :: u in blocked <==> BlockedEitherWay(s.blocks[..i], viewer, u)
    {
      var row := s.blocks[i];
      assert s.blocks[..i + 1] == s.blocks[..i] + [row];
      if row.blocker == viewer { blocked := blocked + {row.blocked}; }
      if row.blocked == viewer { blocked := blocked + {row.blocker}; }
    }
    assert s.blocks[..|s.blocks|] == s.blocks;
  }

  method SwipedSet(s: State, viewer: Id) returns (swiped: set<Id>)
    ensures forall u :: u in swiped <==> Swiped(s.swipes, viewer, u)
  {
    swiped := {};
    for i := 0 to |s.swipes|
      invariant forall u :: u in swiped <==> exists k :: 0 <= k < i && s.swipes[k].from == viewer && s.swipes[k].to == u
    {
      if s.swipes[i].from == viewer { swiped := swiped + {s.swipes[i].to}; }
    }
  }

  /** Both ends of each active match of the viewer, less the viewer. */
  method MatchedSet(s: State, viewer: Id) returns (matched: set<Id>)
    ensures forall u :: u in matched <==> ActivePartner(s.matches, viewer, u)
  {
    matched := {};
    for i := 0 to |s.matches|
      invariant forall u :: u in matched && u != viewer <==>
                  exists k :: 0 <= k < i && s.matches[k].status == ActiveMatch && u != viewer
                    && ((s.matches[k].user1 == viewer && s.matches[k].user2 == u) || (s.matches[k].user2 == viewer && s.matches[k].user1 == u))
    {
      var m := s.matches[i];
      if m.status == ActiveMatch && (m.user1 == viewer || m.user2 == viewer) {
        matched := matched + {m.user1, m.user2};
      }
    }
    matched := matched - {viewer};
  }

  lemma PartnerWasSwiped(s: State, viewer: Id, u: Id)
    requires Inv(s) && ActivePartner(s.matches, viewer, u)
    ensures Swiped(s.swipes, viewer, u)
  {
    var i :| 0 <= i < |s.matches| && s.matches[i].status == ActiveMatch && u != viewer
             && ((s.matches[i].user1 == viewer && s.matches[i].user2 == u) || (s.matches[i].user2 == viewer && s.matches[i].user1 == u));
    assert s.matches[i].user1 < s.matches[i].user2;
    assert HasMatchRow(s, viewer, u) <==> MutualLike(s, viewer, u);
  }

  /** The fresh candidate list: one query over what three other queries exclude. */
  method CandidatesFor(s: State, profiles: seq<Id>, viewer: Id) returns (candidates: seq<Id>)
    ensures forall u :: u in candidates <==> u in profiles && Eligible(s, viewer, u) && !ActivePartner(s.matches, viewer, u)
    ensures Inv(s) ==> candidates == EligibleRows(s, profiles, viewer)
  {
    var blocked := BlockedSet(s, viewer);
    var swiped := SwipedSet(s, viewer);
    var matched := MatchedSet(s, viewer);
    var excluded := blocked + swiped + matched;
    candidates := Select(profiles, s.users, viewer, excluded);
    if Inv(s) {
      SelectIsEligible(s, profiles, viewer, excluded);
    }
  }

  /** Where the eligible users stand among the profile rows. */
  function EligibleAt(s: State, profiles: seq<Id>, viewer: Id): seq<nat> {
    if profiles == [] then []
    else
      var last := |profiles| - 1;
      EligibleAt(s, profiles[..last], viewer) + (if Eligible(s, viewer, profiles[last]) then [last] else [])
  }

  ghost predicate Rising(rows: seq<nat>, bound: nat) {
    && (forall k :: 0 <= k < |rows| ==> rows[k] < bound)
    && (forall k, l :: 0 <= k < l < |rows| ==> rows[k] < rows[l])
  }

  lemma RisingNext(rows: seq<nat>, n: nat)
    requires Rising(rows, n)
    ensures Rising(rows, n + 1) && Rising(rows + [n], n + 1)
  {
  }

  lemma {:induction false} EligibleAtRises(s: State, profiles: seq<Id>, viewer: Id)
    ensures Rising(EligibleAt(s, profiles, viewer), |profiles|)
  {
    if profiles != [] {
      var last := |profiles| - 1;
      EligibleAtRises(s, profiles[..last], viewer);
      RisingNext(EligibleAt(s, profiles[..last], viewer), last);
    }
  }

  lemma {:induction false} EligibleAtExactly(s: State, profiles: seq<Id>, viewer: Id, i: nat)
    ensures i in EligibleAt(s, profiles, viewer) <==> i < |profiles| && Eligible(s, viewer, profiles[i])
  {
    if profiles != [] {
      EligibleAtExactly(s, profiles[..|profiles| - 1], viewer, i);
    }
  }

  lemma {:induction false} EligibleAtIsRows(s: State, profiles: seq<Id>, viewer: Id)
    ensures var rows, r := EligibleAt(s, profiles, viewer), EligibleRows(s, profiles, viewer);
            |rows| == |r| && forall k :: 0 <= k < |r| ==> rows[k] < |profiles| && r[k] == profiles[rows[k]]
  {
    if profiles != [] {
      EligibleAtIsRows(s, profiles[..|profiles| - 1], viewer);
    }
  }

  /** The candidates stand in the order of the profile rows, each eligible row exactly once. */
  lemma InProfileOrder(s: State, profiles: seq<Id>, viewer: Id) returns (rows: seq<nat>)
    ensures Rising(rows, |profiles|) && forall i: nat :: i in rows <==> i < |profiles| && Eligible(s, viewer, profiles[i])
    ensures var r := EligibleRows(s, profiles, viewer);
            |rows| == |r| && forall k :: 0 <= k < |r| ==> rows[k] < |profiles| && r[k] == profiles[rows[k]]
  {
    rows := EligibleAt(s, profiles, viewer);
    EligibleAtRises(s, profiles, viewer);
    EligibleAtIsRows(s, profiles, viewer);
    forall i: nat ensures i in rows <==> i < |profiles| && Eligible(s, viewer, profiles[i]) {
      EligibleAtExactly(s, profiles, viewer, i);
    }
  }

  lemma {:induction false} SelectIsEligible(s: State, profiles: seq<Id>, viewer: Id, excluded: set<Id>)
    requires Inv(s)
    requires forall u :: u in excluded <==> BlockedEitherWay(s.blocks, viewer, u) || Swiped(s.swipes, viewer, u) || ActivePartner(s.matches, viewer, u)
    ensures Select(profiles, s.users, viewer, excluded) == EligibleRows(s, profiles, viewer)
  {
    if profiles != [] {
      var u := profiles[|profiles| - 1];
      SelectIsEligible(s, profiles[..|profiles| - 1], viewer, excluded);
      if ActivePartner(s.matches, viewer, u) {
        PartnerWasSwiped(s, viewer, u);
      }
      assert Discoverable(s.users, viewer, u) && u !in excluded <==> Eligible(s, viewer, u);
    }
  }

  /**
    In every reachable state the three exclusions, taken or not taken with the active matches, leave exactly
    the users with a profile whom the swipe guard lets through and the viewer has not swiped on.
   */
  lemma CandidatesExact(s: State, run: seq<Event>, profiles: seq<Id>, viewer: Id, blocked: set<Id>, swiped: set<Id>, matched: set<Id>)
    requires Initial(s)
    requires forall u :: u in blocked <==> BlockedEitherWay(Run(s, run).blocks, viewer, u)
    requires forall u :: u in swiped <==> Swiped(Run(s, run).swipes, viewer, u)
    requires forall u :: u in matched <==> ActivePartner(Run(s, run).matches, viewer, u)
    ensures var t := Run(s, run);
            && Select(profiles, t.users, viewer, blocked + swiped + matched) == EligibleRows(t, profiles, viewer)
            && Select(profiles, t.users, viewer, blocked + swiped) == EligibleRows(t, profiles, viewer)
  {
    Reachable(s, run);
    var t := Run(s, run);
    SelectIsEligible(t, profiles, viewer, blocked + swiped + matched);
    forall u | u in matched
      ensures u in swiped
    {
      PartnerWasSwiped(t, viewer, u);
    }
    assert blocked + swiped + matched == blocked + swiped;
  }

  /** Whatever the viewer does with a fresh candidate succeeds, and makes them a candidate no more. */
  lemma CandidatesCanBeSwiped(s: State, run: seq<Event>, viewer: Id, u: Id, action: SwipeAction)
    requires Initial(s) && Eligible(Run(s, run), viewer, u)
    ensures var o := SwipeOn(Run(s, run), viewer, u, action);
            o.Committed? && !Eligible(o.state, viewer, u)
  {
    var t := Run(s, run);
    Reachable(s, run);
    assert Swipe(viewer, u, action) !in t.swipes;
    assert !LikedBy(t.swipes, viewer, u);
    if IsLike(action) {
      MatchInsertSucceeds(t, viewer, u, action);
    }
    var after := SwipeOn(t, viewer, u, action).state.swipes;
    assert after[|t.swipes|] == Swipe(viewer, u, action);
  }
}
