/**
  The notification campaign worker: audience fan-out in batches with a commit per batch, and reruns after a crash.
  A crash is modelled by how many commits the process survives to make; what was not committed is gone.
 */
module Campaigns {
  import opened Common
  import Billing
  import BillingInvariant

  type Id = nat

  const BATCH: nat := 1000

  datatype Status = Queued | Sending | Done | FailedStatus | CancelledStatus
  datatype Campaign = Campaign(status: Status, targetCount: nat, deliveredCount: nat)

  /** What is committed: the campaign row and the users notified for it, in order. */
  datatype State = State(campaign: Campaign, notified: seq<Id>)

  datatype Reply = AlreadyDone | Finished(delivered: nat) | Crashed

  /** One run of the job: the audience its query returned, and the commits it survives to make. */
  datatype Attempt = Attempt(audience: seq<Id>, survives: nat)

  function Sent(a: Attempt): nat {
    Min(BATCH * a.survives, |a.audience|)
  }

  /** All the batches and the final commit go through. */
  predicate Completes(a: Attempt) {
    |a.audience| <= BATCH * (a.survives - 1) && a.survives >= 1
  }

  /** The committed effect of a job run. */
  function After(s: State, a: Attempt): State {
    if s.campaign.status == Done || a.survives == 0 then s
    else
      var delivered := if a.audience == [] then s.campaign.deliveredCount else Sent(a);
      State(Campaign(if Completes(a) then Done else Sending, |a.audience|, delivered), s.notified + a.audience[..Sent(a)])
  }

  function Run(s: State, attempts: seq<Attempt>): State {
    if attempts == [] then s else After(Run(s, attempts[..|attempts| - 1]), attempts[|attempts| - 1])
  }

  class Worker {
    var committed: State

    constructor (s: State)
      ensures committed == s
    {
      committed := s;
    }

    /** The batch loop.  Each iteration writes one batch and commits; `survives` counts the commits left. */
    method Process(audience: seq<Id>, survives: nat) returns (r: Reply)
      modifies this
      ensures committed == After(old(committed), Attempt(audience, survives))
      ensures r == if old(committed).campaign.status == Done then AlreadyDone
                   else if Completes(Attempt(audience, survives)) then Finished(|audience|) else Crashed
    {
      if committed.campaign.status == Done { return AlreadyDone; }
      var row := committed.campaign.(targetCount := |audience|, status := Sending);
      var delivered := 0;
      var commits := 0;
      var i := 0;
      assert audience[..0] == [] && old(committed).notified + [] == old(committed).notified;
      while i < |audience|
        invariant commits <= survives
        invariant i == BATCH * commits && delivered == Min(i, |audience|) && i < |audience| + BATCH
        invariant row == old(committed).campaign.(
                           targetCount := |audience|, status := Sending,
                           deliveredCount := if commits == 0 then old(committed).campaign.deliveredCount else delivered)
        invariant committed == if commits == 0 then old(committed)
                               else State(row, old(committed).notified + audience[..delivered])
        decreases |audience| + BATCH - i
      {
        var batch := audience[i..Min(i + BATCH, |audience|)];
        delivered := delivered + |batch|;
        row := row.(deliveredCount := delivered);
        if commits == survives { return Crashed; }
        assert audience[..i] + batch == audience[..delivered];
        committed := State(row, committed.notified + batch);
        commits := commits + 1;
        i := i + BATCH;
      }
      assert audience == [] ==> audience[..0] == audience;
      row := row.(status := Done);
      if commits == survives { return Crashed; }
      committed := State(row, committed.notified);
      assert audience[..|audience|] == audience;
      return Finished(delivered);
    }
  }

  // ---------- guarantees ----------

  function Count(ids: seq<Id>, u: Id): nat {
    multiset(ids)[u]
  }

  ghost predicate NoDuplicates(ids: seq<Id>) {
    forall i, j :: 0 <= i < j < |ids| ==> ids[i] != ids[j]
  }

  lemma {:induction false} CountAtMostOne(ids: seq<Id>, u: Id)
    requires NoDuplicates(ids)
    ensures Count(ids, u) <= 1
  {
    if ids != [] {
      var last := |ids| - 1;
      assert ids == ids[..last] + [ids[last]];
      CountAtMostOne(ids[..last], u);
      if ids[last] == u {
        assert u !in ids[..last];
      }
    }
  }

  lemma CountPrefix(ids: seq<Id>, n: nat, u: Id)
    requires n <= |ids|
    ensures Count(ids[..n], u) <= Count(ids, u)
  {
    assert ids == ids[..n] + ids[n..];
  }

  /** A campaign that never crashes notifies each target exactly once and counts them all. */
  lemma CrashFree(s: State, a: Attempt)
    requires s.campaign.status != Done && s.campaign.deliveredCount == 0 && s.notified == [] && Completes(a)
    ensures var t := After(s, a);
            t.notified == a.audience && t.campaign == Campaign(Done, |a.audience|, |a.audience|)
  {
    assert a.audience[..|a.audience|] == a.audience;
  }

  /** After k surviving commits exactly the first k batches are out, and the count on the row says so. */
  lemma BatchesPartition(s: State, audience: seq<Id>, k: nat)
    requires s.campaign.status != Done && 1 <= k && BATCH * (k - 1) < |audience|
    ensures var t := After(s, Attempt(audience, k));
            && t.campaign.deliveredCount == Min(BATCH * k, |audience|)
            && t.campaign.status == Sending
            && t.notified == After(s, Attempt(audience, k - 1)).notified + audience[BATCH * (k - 1)..Min(BATCH * k, |audience|)]
  {
    var before, after := Sent(Attempt(audience, k - 1)), Sent(Attempt(audience, k));
    assert audience[..after] == audience[..before] + audience[before..after];
    assert k == 1 ==> audience[..before] == [];
  }

  lemma CountsAgreeAfter(s: State, a: Attempt)
    requires s.campaign.status != Done && Completes(a)
    ensures var c := After(s, a).campaign;
            c.status == Done && (c.deliveredCount == c.targetCount <==> a.audience != [] || s.campaign.deliveredCount == 0)
  {
  }

  ghost predicate Fresh(s: State) {
    s.campaign.status != Done && s.campaign.deliveredCount == 0 && s.notified == []
  }

  /** Until it is done, a fresh campaign's count is zero exactly as long as no attempt has committed a batch. */
  lemma {:induction false} CountUntilDone(s: State, attempts: seq<Attempt>)
    requires Fresh(s) && Run(s, attempts).campaign.status != Done
    ensures Run(s, attempts).campaign.deliveredCount == 0 <==> forall i :: 0 <= i < |attempts| ==> Sent(attempts[i]) == 0
  {
    if attempts != [] {
      CountUntilDone(s, attempts[..|attempts| - 1]);
    }
  }

  /** The attempt that completes a run that is done. */
  lemma {:induction false} CompletedBySome(s: State, attempts: seq<Attempt>) returns (k: nat)
    requires s.campaign.status != Done && Run(s, attempts).campaign.status == Done
    ensures k < |attempts| && Completes(attempts[k]) && Run(s, attempts[..k]).campaign.status != Done
    ensures Run(s, attempts) == After(Run(s, attempts[..k]), attempts[k])
  {
    k := |attempts| - 1;
    if Run(s, attempts[..k]).campaign.status == Done {
      var last := k;
      k := CompletedBySome(s, attempts[..last]);
      assert attempts[..last][..k] == attempts[..k];
    }
  }

  /**
    Over any crashes and reruns: a fresh campaign that is done was completed by some attempt `k`, and its counts agree
    exactly when that attempt had an audience or no earlier attempt had committed a batch.
   */
  lemma CountsAgreeWhenDone(s: State, attempts: seq<Attempt>) returns (k: nat)
    requires Fresh(s) && Run(s, attempts).campaign.status == Done
    ensures k < |attempts| && Completes(attempts[k]) && Run(s, attempts[..k]).campaign.status != Done
    ensures var c := Run(s, attempts).campaign;
            c.deliveredCount == c.targetCount <==> attempts[k].audience != [] || forall i :: 0 <= i < k ==> Sent(attempts[i]) == 0
  {
    k := CompletedBySome(s, attempts);
    CountUntilDone(s, attempts[..k]);
    CountsAgreeAfter(Run(s, attempts[..k]), attempts[k]);
    assert forall i :: 0 <= i < k ==> attempts[..k][i] == attempts[i];
  }

  /** The failure at an input: a crash before the last commit, then a rerun that finds the one target gone. */
  lemma EmptyRerunKeepsCount(u: Id)
    ensures var attempts := [Attempt([u], 1), Attempt([], 1)];
            var c := Run(State(Campaign(Queued, 0, 0), []), attempts).campaign;
            c.status == Done && c.targetCount == 0 && c.deliveredCount == 1
  {
    var s := State(Campaign(Queued, 0, 0), []);
    var attempts := [Attempt([u], 1), Attempt([], 1)];
    assert attempts[..1] == [Attempt([u], 1)] && attempts[..1][..0] == [];
    assert Run(s, attempts[..1]) == After(s, Attempt([u], 1));
  }

  /** How many of the attempts that did any work had this user in their audience. */
  function Reached(s: State, attempts: seq<Attempt>, u: Id): nat {
    if attempts == [] then 0
    else
      var last := |attempts| - 1;
      Reached(s, attempts[..last], u)
      + (if Run(s, attempts[..last]).campaign.status != Done && u in attempts[last].audience then 1 else 0)
  }

  /** Over any crashes and reruns a user gets at most one notification per attempt that had them in its audience. */
  lemma {:induction false} AtMostOncePerAttempt(s: State, attempts: seq<Attempt>, u: Id)
    requires forall i :: 0 <= i < |attempts| ==> NoDuplicates(attempts[i].audience)
    ensures Count(Run(s, attempts).notified, u) <= Count(s.notified, u) + Reached(s, attempts, u)
  {
    if attempts != [] {
      var last := |attempts| - 1;
      AtMostOncePerAttempt(s, attempts[..last], u);
      CountAtMostOne(attempts[last].audience, u);
      CountPrefix(attempts[last].audience, Sent(attempts[last]), u);
    }
  }

  /** Everyone in the audience of the attempt that completes is notified. */
  lemma CompletingAttemptReachesAll(s: State, attempts: seq<Attempt>, a: Attempt, u: Id)
    requires Run(s, attempts).campaign.status != Done && Completes(a) && u in a.audience
    ensures u in Run(s, attempts + [a]).notified && Run(s, attempts + [a]).campaign.status == Done
  {
    assert (attempts + [a])[..|attempts|] == attempts;
    assert a.audience[..|a.audience|] == a.audience;
  }

  /** Once done, reruns change nothing. */
  lemma {:induction false} DoneForGood(s: State, attempts: seq<Attempt>)
    requires s.campaign.status == Done
    ensures Run(s, attempts) == s
  {
    if attempts != [] {
      DoneForGood(s, attempts[..|attempts| - 1]);
    }
  }

  // ---------- the premium audience ----------

  /** One id per ACTIVE, unexpired subscription row whose user is not deleted. */
  function PremiumAudience(subs: seq<Billing.Subscription>, deleted: set<Id>, now: Billing.Time): seq<Id> {
    if subs == [] then []
    else
      var row := subs[|subs| - 1];
      PremiumAudience(subs[..|subs| - 1], deleted, now)
      + (if row.status == Billing.Active && row.expiresAt.Some? && row.expiresAt.value > now && row.user !in deleted
         then [row.user] else [])
  }

  lemma {:induction false} AudienceRows(subs: seq<Billing.Subscription>, deleted: set<Id>, now: Billing.Time, u: Id)
    ensures u in PremiumAudience(subs, deleted, now) <==>
            u !in deleted && exists i :: 0 <= i < |subs| && subs[i].user == u && subs[i].status == Billing.Active
                                         && subs[i].expiresAt.Some? && subs[i].expiresAt.value > now
  {
    if subs != [] {
      AudienceRows(subs[..|subs| - 1], deleted, now, u);
      assert subs == subs[..|subs| - 1] + [subs[|subs| - 1]];
    }
  }

  lemma {:induction false} OneRowOneId(subs: seq<Billing.Subscription>, deleted: set<Id>, now: Billing.Time)
    requires forall i, j :: 0 <= i < j < |subs| && subs[i].status == Billing.Active && subs[j].status == Billing.Active ==> subs[i].user != subs[j].user
    ensures NoDuplicates(PremiumAudience(subs, deleted, now))
  {
    if subs != [] {
      var last := |subs| - 1;
      OneRowOneId(subs[..last], deleted, now);
      AudienceRows(subs[..last], deleted, now, subs[last].user);
    }
  }

  /** The premium audience has no duplicates, because a user has at most one ACTIVE row, and it is the premium users. */
  lemma PremiumAudienceExact(s: Billing.State, run: seq<Billing.Timed>, deleted: set<Id>, now: Billing.Time, u: Id)
    requires Billing.Initial(s) && Billing.Ordered(run) && forall i :: 0 <= i < |run| ==> run[i].at <= now
    ensures var subs := Billing.Run(s, run).subs;
            var audience := PremiumAudience(subs, deleted, now);
            NoDuplicates(audience) && (u in audience <==> u !in deleted && Billing.IsPremium(subs, u, now))
  {
    BillingInvariant.RunKeepsInv(s, run, now);
    var subs := Billing.Run(s, run).subs;
    OneRowOneId(subs, deleted, now);
    AudienceRows(subs, deleted, now, u);
    BillingInvariant.PremiumIsUntil(subs, now, u, now);
    var row := Billing.GetActive(subs, u);
    if row.None? {
      forall i | 0 <= i < |subs| && subs[i].user == u
        ensures subs[i].status != Billing.Active
      {
        assert !Billing.ActiveRow(subs, i, u);
      }
    }
  }
}
