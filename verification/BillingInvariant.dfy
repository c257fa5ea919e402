/**
  What every run of billing events keeps: the subscription rows stand for one number per user,
  and the activation log says exactly which payments were ever paid.
 */
module BillingInvariant {
  import opened Common
  import opened Billing

  // ---------- one number per user ----------

  /** The latest expiry among all the user's rows, expired ones included; 0 when there is none. */
  function Until(subs: seq<Subscription>, user: Id): (r: Time)
    ensures forall i :: 0 <= i < |subs| && subs[i].user == user && subs[i].expiresAt.Some? ==> subs[i].expiresAt.value <= r
    ensures r == 0 || exists i :: 0 <= i < |subs| && subs[i].user == user && subs[i].expiresAt == Some(r)
  {
    if subs == [] then 0
    else
      var last := |subs| - 1;
      var earlier := Until(subs[..last], user);
      assert forall i :: 0 <= i < last ==> subs[..last][i] == subs[i];
      if subs[last].user == user && subs[last].expiresAt.Some? then Max(earlier, subs[last].expiresAt.value) else earlier
  }

  /** `Until` reads only whose row it is and when it expires. */
  lemma {:induction false} UntilCongruent(a: seq<Subscription>, b: seq<Subscription>, user: Id)
    requires |a| == |b|
    requires forall i :: 0 <= i < |a| ==> a[i].user == b[i].user && a[i].expiresAt == b[i].expiresAt
    ensures Until(a, user) == Until(b, user)
  {
    if a != [] {
      UntilCongruent(a[..|a| - 1], b[..|b| - 1], user);
    }
  }

  ghost predicate RowOk(row: Subscription, clock: Time) {
    && row.expiresAt.Some?
    && row.startsAt < row.expiresAt.value
    && (row.status == Active || (row.status == Expired && row.expiresAt.value < clock))
  }

  ghost predicate SubsOk(subs: seq<Subscription>, clock: Time) {
    && (forall i :: 0 <= i < |subs| ==> RowOk(subs[i], clock))
    && (forall i, j :: 0 <= i < j < |subs| && subs[i].status == Active && subs[j].status == Active ==> subs[i].user != subs[j].user)
    && (forall i :: 0 <= i < |subs| && subs[i].status == Active ==> subs[i].expiresAt == Some(Until(subs, subs[i].user)))
  }

  /** At any instant from the last commit on, the query over rows is a comparison with one number. */
  lemma PremiumIsUntil(subs: seq<Subscription>, clock: Time, user: Id, now: Time)
    requires SubsOk(subs, clock) && clock <= now
    ensures IsPremium(subs, user, now) <==> Until(subs, user) > now
  {
    var row := GetActive(subs, user);
    if row.None? && Until(subs, user) > 0 {
      var i :| 0 <= i < |subs| && subs[i].user == user && subs[i].expiresAt == Some(Until(subs, user));
      assert RowOk(subs[i], clock) && !ActiveRow(subs, i, user);
    }
  }

  // ---------- which payments were activated ----------

  function TimesActivated(log: seq<Activation>, p: Id): nat {
    if log == [] then 0
    else TimesActivated(log[..|log| - 1], p) + (if log[|log| - 1].payment == p then 1 else 0)
  }

  function Units(a: Activation, user: Id): nat {
    if a.effect.Extended? && a.effect.user == user then a.effect.units else 0
  }

  /** The time a user was sold: what the log says each activation was worth when it ran. */
  function PaidUnits(log: seq<Activation>, user: Id): nat {
    if log == [] then 0 else PaidUnits(log[..|log| - 1], user) + Units(log[|log| - 1], user)
  }

  ghost predicate EffectOk(s: State, a: Activation) {
    && a.payment < |s.payments|
    && var p := s.payments[a.payment];
       match p.kind
       case SubscriptionPayment => a.effect.Extended? && a.effect.user == p.user && a.effect.units > 0
       case JobVerificationPayment => a.effect.Reviewed? && Some(a.effect.verification) == p.verification
       case OtherPayment => a.effect == NoEffect
  }

  ghost predicate PaymentOk(s: State, i: Id)
    requires i < |s.payments|
  {
    var p := s.payments[i];
    && p.status != Cancelled
    && (Paid(p) <==> p.paidAt.Some?)
    && (p.kind == SubscriptionPayment ==> p.plan.Some? && p.plan.value < |s.plans|)
    && (p.kind == JobVerificationPayment ==>
          p.verification.Some? && p.verification.value < |s.verifications| && s.verifications[p.verification.value].payment == Some(i))
    && TimesActivated(s.activations, i) == (if Paid(p) then 1 else 0)
  }

  ghost predicate VerificationOk(s: State, row: JobVerification) {
    && row.payment.Some? && row.payment.value < |s.payments|
    && (row.status == UnderReview ==> Paid(s.payments[row.payment.value]))
  }

  ghost predicate ActivationOk(s: State, clock: Time, a: Activation) {
    && EffectOk(s, a)
    && a.at <= clock
    && s.payments[a.payment].paidAt == Some(a.at)
  }

  ghost predicate ProviderIdsUnique(payments: seq<Payment>) {
    forall i, j :: 0 <= i < j < |payments| && payments[i].providerPaymentId.Some? ==>
      payments[i].providerPaymentId != payments[j].providerPaymentId
  }

  ghost predicate PlansOk(plans: seq<Plan>) {
    forall i :: 0 <= i < |plans| ==> plans[i].durationDays > 0
  }

  ghost predicate Inv(s: State, clock: Time) {
    && SubsOk(s.subs, clock)
    && PlansOk(s.plans)
    && (forall i: nat :: i < |s.payments| ==> PaymentOk(s, i))
    && (forall i :: 0 <= i < |s.verifications| ==> VerificationOk(s, s.verifications[i]))
    && (forall k :: 0 <= k < |s.activations| ==> ActivationOk(s, clock, s.activations[k]))
    && ProviderIdsUnique(s.payments)
  }

  /** A payment id that is not in the table is not in the log. */
  lemma {:induction false} NotActivatedYet(log: seq<Activation>, p: Id)
    requires forall k :: 0 <= k < |log| ==> log[k].payment != p
    ensures TimesActivated(log, p) == 0
  {
    if log != [] {
      NotActivatedYet(log[..|log| - 1], p);
    }
  }

  // ---------- each transition keeps the invariant ----------

  /** Overwrite row `at`, or append when `at` is one past the end. */
  function Put(subs: seq<Subscription>, at: nat, row: Subscription): seq<Subscription>
    requires at <= |subs|
  {
    if at < |subs| then subs[at := row] else subs + [row]
  }

  lemma {:induction false} UntilSkips(a: seq<Subscription>, b: seq<Subscription>, e: nat, user: Id)
    requires |a| == |b| && e < |a|
    requires a[e].user != user && b[e].user != user
    requires forall i :: 0 <= i < |a| && i != e ==> a[i] == b[i]
    ensures Until(a, user) == Until(b, user)
  {
    var last := |a| - 1;
    if e == last {
      assert a[..last] == b[..last];
    } else {
      UntilSkips(a[..last], b[..last], e, user);
    }
  }

  lemma UntilAfterPut(subs: seq<Subscription>, at: nat, row: Subscription, user: Id)
    requires at <= |subs| && (at < |subs| ==> subs[at].user == row.user)
    requires row.expiresAt.Some? && Until(subs, row.user) <= row.expiresAt.value
    ensures Until(Put(subs, at, row), user) == if user == row.user then row.expiresAt.value else Until(subs, user)
  {
    var after := Put(subs, at, row);
    if at == |subs| {
      assert after[..at] == subs;
    } else if user != row.user {
      UntilSkips(subs, after, at, user);
    } else {
      assert after[at] == row;
      assert forall i :: 0 <= i < |after| && i != at ==> after[i] == subs[i];
    }
  }

  lemma PutKeepsSubs(subs: seq<Subscription>, at: nat, row: Subscription, clock: Time, now: Time)
    requires SubsOk(subs, clock) && clock <= now
    requires at <= |subs| && (at < |subs| ==> subs[at].user == row.user)
    requires row.status == Active && RowOk(row, now) && Until(subs, row.user) <= row.expiresAt.value
    requires forall i :: 0 <= i < |subs| && i != at && subs[i].status == Active ==> subs[i].user != row.user
    ensures SubsOk(Put(subs, at, row), now)
  {
    var after := Put(subs, at, row);
    assert forall i :: 0 <= i < |subs| && i != at ==> after[i] == subs[i];
    forall i | 0 <= i < |after| && after[i].status == Active
      ensures after[i].expiresAt == Some(Until(after, after[i].user))
    {
      UntilAfterPut(subs, at, row, after[i].user);
    }
  }

  lemma NoActiveNoTime(subs: seq<Subscription>, clock: Time, user: Id)
    requires SubsOk(subs, clock) && GetActive(subs, user).None?
    ensures Until(subs, user) <= clock
  {
    PremiumIsUntil(subs, clock, user, clock);
  }

  /** Both branches of an activation put one ACTIVE row of the buyer that ends later than all the buyer's rows. */
  lemma ActivateIsPut(s: State, now: Time, p: Id, clock: Time) returns (at: nat, row: Subscription)
    requires SubsOk(s.subs, clock) && PlansOk(s.plans) && clock <= now
    requires p < |s.payments| && s.payments[p].plan.Some? && s.payments[p].plan.value < |s.plans|
    ensures at <= |s.subs| && (at < |s.subs| ==> s.subs[at].user == row.user)
    ensures row.user == s.payments[p].user && row.status == Active && RowOk(row, now)
    ensures row.expiresAt == Some(Max(Until(s.subs, row.user), now) + PlanUnits(s.plans[s.payments[p].plan.value]))
    ensures forall i :: 0 <= i < |s.subs| && i != at && s.subs[i].status == Active ==> s.subs[i].user != row.user
    ensures Activate(s, now, p).Ok? && Activate(s, now, p).value.subs == Put(s.subs, at, row)
  {
    var buyer := s.payments[p].user;
    var existing := GetActive(s.subs, buyer);
    at := existing.GetOr(|s.subs|);
    row := Activate(s, now, p).value.subs[at];
    if existing.Some? {
      assert s.subs[at].expiresAt == Some(Until(s.subs, buyer));
    } else {
      NoActiveNoTime(s.subs, clock, buyer);
    }
    forall i | 0 <= i < |s.subs| && i != at && s.subs[i].status == Active
      ensures s.subs[i].user != row.user
    {
      assert existing.None? ==> !ActiveRow(s.subs, i, buyer);
    }
  }

  /** The number a payment moves: from the later of the old number and now, forward by the plan's length. */
  lemma ActivateMovesUntil(s: State, now: Time, p: Id, clock: Time, user: Id)
    requires SubsOk(s.subs, clock) && PlansOk(s.plans) && clock <= now
    requires p < |s.payments| && s.payments[p].plan.Some? && s.payments[p].plan.value < |s.plans|
    ensures Activate(s, now, p).Ok? && SubsOk(Activate(s, now, p).value.subs, now)
    ensures Until(Activate(s, now, p).value.subs, user) ==
            if user == s.payments[p].user
            then Max(Until(s.subs, user), now) + PlanUnits(s.plans[s.payments[p].plan.value])
            else Until(s.subs, user)
  {
    var at, row := ActivateIsPut(s, now, p, clock);
    PutKeepsSubs(s.subs, at, row, clock, now);
    UntilAfterPut(s.subs, at, row, user);
  }

  lemma SweepSubs(subs: seq<Subscription>, swept: seq<Subscription>, clock: Time, now: Time, user: Id)
    requires |swept| == |subs| && forall i :: 0 <= i < |subs| ==> swept[i] == SweptRow(subs[i], now)
    requires SubsOk(subs, clock) && clock <= now
    ensures Until(swept, user) == Until(subs, user)
  {
    UntilCongruent(swept, subs, user);
  }

  lemma SweepKeepsSubs(s: State, clock: Time, now: Time)
    requires SubsOk(s.subs, clock) && clock <= now
    ensures SubsOk(ExpireSubscriptions(s, now).subs, now)
  {
    var swept := ExpireSubscriptions(s, now).subs;
    forall i | 0 <= i < |swept| && swept[i].status == Active
      ensures swept[i].expiresAt == Some(Until(swept, swept[i].user))
    {
      SweepSubs(s.subs, swept, clock, now, swept[i].user);
    }
  }

  /** What a success writes outside the subscriptions: the payment, one log record, perhaps its verification. */
  ghost predicate SuccessWrites(s: State, s': State, now: Time, p: Id, a: Activation)
    requires p < |s.payments|
  {
    && s'.provider == s.provider && s'.plans == s.plans
    && s'.payments == s.payments[p := s.payments[p].(status := Success, paidAt := Some(now))]
    && s'.activations == s.activations + [a] && a.payment == p && a.at == now && EffectOk(s, a)
    && |s'.verifications| == |s.verifications|
    && forall i :: 0 <= i < |s.verifications| ==>
         s'.verifications[i] == s.verifications[i]
         || (s'.verifications[i].payment == s.verifications[i].payment && s.verifications[i].payment == Some(p))
  }

  lemma SuccessWritesKeepInv(s: State, s': State, clock: Time, now: Time, p: Id, a: Activation)
    requires Inv(s, clock) && clock <= now && p < |s.payments| && !Paid(s.payments[p])
    requires SuccessWrites(s, s', now, p, a) && SubsOk(s'.subs, now)
    ensures Inv(s', now)
  {
    assert s'.activations[..|s.activations|] == s.activations;
    forall i: nat | i < |s'.payments|
      ensures PaymentOk(s', i)
    {
      assert PaymentOk(s, i) && PaymentOk(s, p);
    }
    forall i | 0 <= i < |s'.verifications|
      ensures VerificationOk(s', s'.verifications[i])
    {
      assert VerificationOk(s, s.verifications[i]);
    }
    forall k | 0 <= k < |s'.activations|
      ensures ActivationOk(s', now, s'.activations[k])
    {
      if k < |s.activations| {
        assert ActivationOk(s, clock, s.activations[k]) && PaymentOk(s, p);
      }
    }
  }

  lemma SuccessKeepsInv(s: State, clock: Time, now: Time, p: Id)
    requires Inv(s, clock) && clock <= now && p < |s.payments| && !Paid(s.payments[p])
    ensures MarkSuccess(s, now, p).Ok? && Inv(MarkSuccess(s, now, p).value, now)
    ensures var s' := MarkSuccess(s, now, p).value;
            s'.activations != [] && SuccessWrites(s, s', now, p, s'.activations[|s'.activations| - 1])
  {
    assert PaymentOk(s, p);
    PlanAndReviewKeepInv(s, clock, now, s);
    var s1 := s.(payments := s.payments[p := s.payments[p].(status := Success, paidAt := Some(now))]);
    if s.payments[p].kind == SubscriptionPayment {
      ActivateMovesUntil(s1, now, p, clock, 0);
    }
    var s' := MarkSuccess(s, now, p).value;
    SuccessWritesKeepInv(s, s', clock, now, p, s'.activations[|s.activations|]);
  }

  /** Overwriting a payment's status without crossing the paid line. */
  lemma StatusKeepsInv(s: State, clock: Time, now: Time, p: Id, status: PaymentStatus)
    requires Inv(s, clock) && clock <= now && p < |s.payments| && status != Cancelled
    requires (status == Success || status == Refunded) <==> Paid(s.payments[p])
    ensures Inv(s.(payments := s.payments[p := s.payments[p].(status := status)]), now)
  {
    var s' := s.(payments := s.payments[p := s.payments[p].(status := status)]);
    forall i: nat | i < |s'.payments|
      ensures PaymentOk(s', i)
    {
      assert PaymentOk(s, i);
    }
  }

  lemma AddKeepsInv(s: State, clock: Time, now: Time, payment: Payment, v: Option<JobVerification>)
    requires Inv(s, clock) && clock <= now
    requires payment.status == Pending && payment.paidAt.None?
    requires payment.kind == SubscriptionPayment ==> payment.plan.Some? && payment.plan.value < |s.plans|
    requires payment.kind == JobVerificationPayment <==> v.Some?
    requires v.Some? ==> payment.verification == Some(|s.verifications|) && v.value.payment == Some(|s.payments|) && v.value.status == PendingPayment
    ensures var added := if v.Some? then s.(verifications := s.verifications + [v.value]) else s;
            var o := AddPayment(added, payment);
            o.Committed? ==> Inv(o.state, now)
  {
    var added := if v.Some? then s.(verifications := s.verifications + [v.value]) else s;
    var o := AddPayment(added, payment);
    if o.Committed? {
      var s' := o.state;
      forall i: nat | i < |s'.payments|
        ensures PaymentOk(s', i)
      {
        if i < |s.payments| {
          assert PaymentOk(s, i);
        } else {
          forall k | 0 <= k < |s.activations|
            ensures s.activations[k].payment != i
          {
            assert ActivationOk(s, clock, s.activations[k]);
          }
          NotActivatedYet(s.activations, i);
        }
      }
      forall k | 0 <= k < |s'.activations|
        ensures ActivationOk(s', now, s'.activations[k])
      {
        assert ActivationOk(s, clock, s.activations[k]);
      }
    }
  }

  /** Writes that touch only the plans, or only the verifications' review fields. */
  lemma PlanAndReviewKeepInv(s: State, clock: Time, now: Time, s': State)
    requires Inv(s, clock) && clock <= now
    requires s' == s.(plans := s'.plans, verifications := s'.verifications)
    requires PlansOk(s'.plans) && |s.plans| <= |s'.plans| && |s.verifications| == |s'.verifications|
    requires forall i :: 0 <= i < |s.verifications| ==>
               s'.verifications[i].payment == s.verifications[i].payment
               && (s'.verifications[i].status == UnderReview ==> s.verifications[i].status == UnderReview)
    ensures Inv(s', now)
  {
    forall i: nat | i < |s'.payments|
      ensures PaymentOk(s', i)
    {
      assert PaymentOk(s, i);
    }
    forall i | 0 <= i < |s'.verifications|
      ensures VerificationOk(s', s'.verifications[i])
    {
      assert VerificationOk(s, s.verifications[i]);
    }
    forall k | 0 <= k < |s'.activations|
      ensures ActivationOk(s', now, s'.activations[k])
    {
      assert ActivationOk(s, clock, s.activations[k]);
    }
  }

  lemma WebhookKeepsInv(s: State, clock: Time, now: Time, provider: string, ev: WebhookEvent)
    requires Inv(s, clock) && clock <= now
    ensures Webhook(s, now, provider, ev).Committed? ==> Inv(Webhook(s, now, provider, ev).state, now)
    ensures Webhook(s, now, provider, ev).Committed? <==> provider == s.provider
  {
    PlanAndReviewKeepInv(s, clock, now, s);
    var found := Resolve(s.payments, provider, ev);
    if found.Some? && !Paid(s.payments[found.value]) {
      SuccessKeepsInv(s, clock, now, found.value);
      StatusKeepsInv(s, clock, now, found.value, Failed);
    }
  }

  /** Every committed step keeps the invariant and moves its clock forward. */
  lemma StepKeepsInv(s: State, clock: Time, now: Time, e: Event)
    requires Inv(s, clock) && clock <= now
    ensures Inv(Step(s, now, e), now)
  {
    PlanAndReviewKeepInv(s, clock, now, s);
    match e
    case PlanEvent(plan, row) =>
      PlanAndReviewKeepInv(s, clock, now, Step(s, now, e));
    case CheckoutEvent(user, plan, id) =>
      if plan < |s.plans| {
        AddKeepsInv(s, clock, now, Pend(s, user, SubscriptionPayment, id, Some(plan), None), None);
      }
    case OtherCheckoutEvent(user, id) =>
      AddKeepsInv(s, clock, now, Pend(s, user, OtherPayment, id, None, None), None);
    case SubmitEvent(user, id) =>
      AddKeepsInv(s, clock, now, Pend(s, user, JobVerificationPayment, id, None, Some(|s.verifications|)),
                  Some(JobVerification(user, PendingPayment, Some(|s.payments|), None, None)));
    case WebhookReceived(provider, body) =>
      WebhookKeepsInv(s, clock, now, provider, body);
    case RefundEvent(p, accepted) =>
      if p < |s.payments| && s.payments[p].status == Success {
        StatusKeepsInv(s, clock, now, p, Refunded);
      }
    case ReviewEvent(allowed, v, approve, days) =>
      PlanAndReviewKeepInv(s, clock, now, Step(s, now, e));
    case SubscriptionSweep =>
      SweepKeepsInv(s, clock, now);
    case VerificationSweep =>
      PlanAndReviewKeepInv(s, clock, now, Step(s, now, e));
  }

  lemma SweepKeepsInv(s: State, clock: Time, now: Time)
    requires Inv(s, clock) && clock <= now
    ensures Inv(ExpireSubscriptions(s, now), now)
  {
    SweepKeepsSubs(s, clock, now);
    var s' := ExpireSubscriptions(s, now);
    PlanAndReviewKeepInv(s, clock, now, s);
    forall i: nat | i < |s'.payments|
      ensures PaymentOk(s', i)
    {
      assert PaymentOk(s, i);
    }
    forall k | 0 <= k < |s'.activations|
      ensures ActivationOk(s', now, s'.activations[k])
    {
      assert ActivationOk(s, now, s.activations[k]);
    }
  }

  lemma {:induction false} RunKeepsInv(s: State, run: seq<Timed>, clock: Time)
    requires Initial(s) && Ordered(run)
    requires forall i :: 0 <= i < |run| ==> run[i].at <= clock
    ensures Inv(Run(s, run), clock)
  {
    if run != [] {
      var last := |run| - 1;
      RunKeepsInv(s, run[..last], run[last].at);
      StepKeepsInv(Run(s, run[..last]), run[last].at, run[last].at, run[last].event);
      PlanAndReviewKeepInv(Run(s, run), run[last].at, clock, Run(s, run));
    }
  }
}
