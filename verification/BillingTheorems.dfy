/**
  The guarantees billing gives over whole runs: premium status is one number per user, expiry sweeps
  are invisible, paid time is neither lost nor invented, and a webhook takes effect exactly once.
 */
module BillingTheorems {
  import opened Common
  import opened Billing
  import opened BillingInvariant

  // ---------- the rows refine one number computed from the activation log ----------

  /** What the log alone says: each activation moves the number from the later of it and the clock. */
  function Credit(log: seq<Activation>, user: Id): Time {
    if log == [] then 0
    else
      var earlier := Credit(log[..|log| - 1], user);
      var a := log[|log| - 1];
      if a.effect.Extended? && a.effect.user == user then Max(earlier, a.at) + a.effect.units else earlier
  }

  ghost predicate Refines(s: State) {
    forall user: Id :: Until(s.subs, user) == Credit(s.activations, user)
  }

  lemma SuccessRefines(s: State, clock: Time, now: Time, p: Id)
    requires Inv(s, clock) && clock <= now && Refines(s)
    requires p < |s.payments| && !Paid(s.payments[p])
    ensures MarkSuccess(s, now, p).Ok? && Refines(MarkSuccess(s, now, p).value)
  {
    SuccessKeepsInv(s, clock, now, p);
    assert PaymentOk(s, p);
    var s' := MarkSuccess(s, now, p).value;
    assert s'.activations[..|s.activations|] == s.activations;
    forall user: Id
      ensures Until(s'.subs, user) == Credit(s'.activations, user)
    {
      if s.payments[p].kind == SubscriptionPayment {
        var s1 := s.(payments := s.payments[p := s.payments[p].(status := Success, paidAt := Some(now))]);
        ActivateMovesUntil(s1, now, p, clock, user);
      }
    }
  }

  lemma StepRefines(s: State, clock: Time, now: Time, e: Event)
    requires Inv(s, clock) && clock <= now && Refines(s)
    ensures Refines(Step(s, now, e))
  {
    match e
    case WebhookReceived(provider, body) =>
      var found := Resolve(s.payments, provider, body);
      if found.Some? && !Paid(s.payments[found.value]) {
        SuccessRefines(s, clock, now, found.value);
      }
    case SubscriptionSweep =>
      var s' := Step(s, now, e);
      forall user: Id
        ensures Until(s'.subs, user) == Credit(s'.activations, user)
      {
        SweepSubs(s.subs, s'.subs, clock, now, user);
      }
    case _ =>
  }

  lemma {:induction false} RunRefines(s: State, run: seq<Timed>)
    requires Initial(s) && Ordered(run)
    ensures Refines(Run(s, run))
  {
    if run != [] {
      var last := |run| - 1;
      RunRefines(s, run[..last]);
      RunKeepsInv(s, run[..last], run[last].at);
      StepRefines(Run(s, run[..last]), run[last].at, run[last].at, run[last].event);
    }
  }

  /**
    After any run: a user has at most one ACTIVE row, every row starts no later than it expires, and
    `is_premium` is the comparison of the clock with the number the activation log determines.
   */
  lemma RowsAreOneNumber(s: State, run: seq<Timed>, user: Id, now: Time)
    requires Initial(s) && Ordered(run) && forall i :: 0 <= i < |run| ==> run[i].at <= now
    ensures var t := Run(s, run);
            && (forall i, j :: 0 <= i < |t.subs| && 0 <= j < |t.subs| && ActiveRow(t.subs, i, user) && ActiveRow(t.subs, j, user) ==> i == j)
            && (forall i :: 0 <= i < |t.subs| ==> t.subs[i].expiresAt.Some? && t.subs[i].startsAt <= t.subs[i].expiresAt.value)
            && (IsPremium(t.subs, user, now) <==> Credit(t.activations, user) > now)
  {
    RunKeepsInv(s, run, now);
    RunRefines(s, run);
    var t := Run(s, run);
    PremiumIsUntil(t.subs, now, user, now);
    forall i | 0 <= i < |t.subs|
      ensures t.subs[i].expiresAt.Some? && t.subs[i].startsAt <= t.subs[i].expiresAt.value
    {
      assert RowOk(t.subs[i], now);
    }
  }

  // ---------- sweeps are invisible ----------

  function EraseSweeps(run: seq<Timed>): seq<Timed> {
    if run == [] then []
    else
      var last := |run| - 1;
      EraseSweeps(run[..last]) + (if run[last].event == SubscriptionSweep then [] else [run[last]])
  }

  ghost predicate EqualButSubs(s: State, t: State) {
    t == s.(subs := t.subs)
  }

  lemma SuccessIgnoresSubs(s: State, t: State, now: Time, p: Id)
    requires EqualButSubs(s, t) && p < |s.payments|
    ensures var x, y := MarkSuccess(s, now, p), MarkSuccess(t, now, p);
            x.Ok? == y.Ok? && (x.Ok? ==> EqualButSubs(x.value, y.value))
  {
  }

  lemma StepIgnoresSubs(s: State, t: State, now: Time, e: Event)
    requires EqualButSubs(s, t)
    ensures EqualButSubs(Step(s, now, e), Step(t, now, e))
    ensures e == SubscriptionSweep ==> EqualButSubs(Step(s, now, e), t)
  {
    match e
    case WebhookReceived(provider, body) =>
      var found := Resolve(s.payments, provider, body);
      if found.Some? {
        SuccessIgnoresSubs(s, t, now, found.value);
      }
    case _ =>
  }

  lemma {:induction false} EraseSweepsBounds(run: seq<Timed>, bound: Time)
    requires forall i :: 0 <= i < |run| ==> run[i].at <= bound
    ensures forall i :: 0 <= i < |EraseSweeps(run)| ==> EraseSweeps(run)[i].at <= bound
    ensures Ordered(run) ==> Ordered(EraseSweeps(run))
  {
    if run != [] {
      var last := |run| - 1;
      EraseSweepsBounds(run[..last], if Ordered(run) then run[last].at else bound);
    }
  }

  lemma {:induction false} SweepsTouchOnlySubs(s: State, run: seq<Timed>)
    ensures EqualButSubs(Run(s, run), Run(s, EraseSweeps(run)))
  {
    if run != [] {
      var last := |run| - 1;
      SweepsTouchOnlySubs(s, run[..last]);
      StepIgnoresSubs(Run(s, run[..last]), Run(s, EraseSweeps(run[..last])), run[last].at, run[last].event);
      var kept := EraseSweeps(run);
      if run[last].event != SubscriptionSweep {
        assert kept[..|kept| - 1] == EraseSweeps(run[..last]);
      } else {
        assert kept == EraseSweeps(run[..last]);
      }
    }
  }

  /**
    Two runs that differ only in where the expiry sweeps fall agree on every table but the rows' bookkeeping:
    same payments, verifications and log, the same expiry for every user, the same premium status ever after.
   */
  lemma SweepsInvisible(s: State, run: seq<Timed>, other: seq<Timed>, user: Id, now: Time)
    requires Initial(s) && Ordered(run) && Ordered(other)
    requires EraseSweeps(run) == EraseSweeps(other)
    requires forall i :: 0 <= i < |run| ==> run[i].at <= now
    requires forall i :: 0 <= i < |other| ==> other[i].at <= now
    ensures EqualButSubs(Run(s, run), Run(s, other))
    ensures Until(Run(s, run).subs, user) == Until(Run(s, other).subs, user)
    ensures IsPremium(Run(s, run).subs, user, now) == IsPremium(Run(s, other).subs, user, now)
  {
    SweepsTouchOnlySubs(s, run);
    SweepsTouchOnlySubs(s, other);
    RunRefines(s, run);
    RunRefines(s, other);
    RunKeepsInv(s, run, now);
    RunKeepsInv(s, other, now);
    PremiumIsUntil(Run(s, run).subs, now, user, now);
    PremiumIsUntil(Run(s, other).subs, now, user, now);
  }

  // ---------- conservation of paid time ----------

  /** How many events of an ordered run happen before instant `t`. */
  function CountBefore(run: seq<Timed>, t: nat): (n: nat)
    ensures n <= |run|
    ensures Ordered(run) ==> forall i :: 0 <= i < n ==> run[i].at < t
    ensures Ordered(run) ==> forall i :: n <= i < |run| ==> run[i].at >= t
  {
    if run == [] then 0
    else
      var last := |run| - 1;
      var n := CountBefore(run[..last], t);
      assert Ordered(run) ==> Ordered(run[..last]);
      assert forall i :: 0 <= i < last ==> run[..last][i] == run[i];
      if run[last].at < t then |run| else n
  }

  /** The tables after every event that happens before instant `t`. */
  function Before(s: State, run: seq<Timed>, t: nat): State {
    Run(s, run[..CountBefore(run, t)])
  }

  /** Premium status during the time unit `t`, once the events of that unit have committed. */
  predicate PremiumDuring(s: State, run: seq<Timed>, user: Id, t: Time) {
    IsPremium(Before(s, run, t + 1).subs, user, t)
  }

  /** The number of time units before `end` during which the user is premium. */
  function PremiumUnits(s: State, run: seq<Timed>, user: Id, end: nat): nat {
    if end == 0 then 0
    else PremiumUnits(s, run, user, end - 1) + (if PremiumDuring(s, run, user, end - 1) then 1 else 0)
  }

  /** Time still ahead at `t` for a user paid up to `until`. */
  function Ahead(until: nat, t: nat): nat {
    Max(until - t, 0)
  }

  /** The payment's plan, as the tables have it, is what the activation sold. */
  ghost predicate SoldThePlan(s: State, a: Activation) {
    && a.payment < |s.payments| && !Paid(s.payments[a.payment])
    && (s.payments[a.payment].kind == SubscriptionPayment ==>
          s.payments[a.payment].plan.Some? && s.payments[a.payment].plan.value < |s.plans|
          && a.effect == Extended(s.payments[a.payment].user, s.plans[s.payments[a.payment].plan.value].durationDays * DAY))
  }

  lemma StepSells(s: State, clock: Time, now: Time, e: Event)
    requires Inv(s, clock) && clock <= now
    ensures var log := Step(s, now, e).activations;
            log == s.activations
            || (e.WebhookReceived? && |log| == |s.activations| + 1 && log[..|s.activations|] == s.activations
                && log[|s.activations|].at == now && SoldThePlan(s, log[|s.activations|]))
  {
    if e.WebhookReceived? {
      var found := Resolve(s.payments, e.provider, e.body);
      if found.Some? && !Paid(s.payments[found.value]) {
        assert PaymentOk(s, found.value);
        SuccessKeepsInv(s, clock, now, found.value);
      }
    }
  }

  /** Time still ahead at `t`, less the time sold. */
  function Surplus(log: seq<Activation>, user: Id, t: nat): int {
    Ahead(Credit(log, user), t) - PaidUnits(log, user)
  }

  lemma ActivationBalances(log: seq<Activation>, a: Activation, user: Id)
    ensures Surplus(log + [a], user, a.at) == Surplus(log, user, a.at)
  {
    assert (log + [a])[..|log|] == log;
  }

  /** A step at `now` adds to the time ahead exactly what it adds to the time sold. */
  lemma StepBalances(s: State, clock: Time, now: Time, e: Event, user: Id)
    requires Inv(s, clock) && clock <= now
    ensures Surplus(Step(s, now, e).activations, user, now) == Surplus(s.activations, user, now)
  {
    StepSells(s, clock, now, e);
    var log, after := s.activations, Step(s, now, e).activations;
    if after != log {
      assert after == log + [after[|log|]];
      ActivationBalances(log, after[|log|], user);
    }
  }

  lemma EventBalances(s: State, run: seq<Timed>, user: Id, k: nat)
    requires Initial(s) && Ordered(run) && k < |run|
    ensures Surplus(Run(s, run[..k + 1]).activations, user, run[k].at) == Surplus(Run(s, run[..k]).activations, user, run[k].at)
  {
    assert run[..k + 1][..k] == run[..k];
    RunKeepsInv(s, run[..k], run[k].at);
    StepBalances(Run(s, run[..k]), run[k].at, run[k].at, run[k].event, user);
  }

  /** All the events of one instant together balance too. */
  lemma {:induction false} BurstBalances(s: State, run: seq<Timed>, user: Id, t: nat, from: nat, k: nat)
    requires Initial(s) && Ordered(run) && from <= k <= |run|
    requires forall i :: from <= i < k ==> run[i].at == t
    ensures Surplus(Run(s, run[..k]).activations, user, t) == Surplus(Run(s, run[..from]).activations, user, t)
  {
    if from < k {
      BurstBalances(s, run, user, t, from, k - 1);
      EventBalances(s, run, user, k - 1);
    }
  }

  lemma {:induction false} CountBeforeGrows(run: seq<Timed>, t: nat)
    ensures CountBefore(run, t) <= CountBefore(run, t + 1)
  {
    if run != [] {
      CountBeforeGrows(run[..|run| - 1], t);
    }
  }

  lemma {:induction false} NothingBeforeZero(run: seq<Timed>)
    ensures CountBefore(run, 0) == 0
  {
    if run != [] {
      NothingBeforeZero(run[..|run| - 1]);
    }
  }

  lemma UnitBalances(s: State, run: seq<Timed>, user: Id, t: nat)
    requires Initial(s) && Ordered(run)
    ensures Surplus(Before(s, run, t + 1).activations, user, t) == Surplus(Before(s, run, t).activations, user, t)
  {
    CountBeforeGrows(run, t);
    BurstBalances(s, run, user, t, CountBefore(run, t), CountBefore(run, t + 1));
  }

  lemma PremiumDuringCredit(s: State, run: seq<Timed>, user: Id, t: nat)
    requires Initial(s) && Ordered(run)
    ensures PremiumDuring(s, run, user, t) <==> Credit(Before(s, run, t + 1).activations, user) > t
  {
    var until := run[..CountBefore(run, t + 1)];
    RunKeepsInv(s, until, t);
    RunRefines(s, until);
    PremiumIsUntil(Run(s, until).subs, t, user, t);
  }

  lemma UnitPasses(until: nat, t: nat)
    ensures Ahead(until, t + 1) == Ahead(until, t) - (if until > t then 1 else 0)
  {
  }

  /** At every instant: time enjoyed so far plus time still ahead is the time sold so far. */
  lemma {:induction false} PaidTimeConserved(s: State, run: seq<Timed>, user: Id, end: nat)
    requires Initial(s) && Ordered(run)
    ensures var log := Before(s, run, end).activations;
            PremiumUnits(s, run, user, end) + Ahead(Credit(log, user), end) == PaidUnits(log, user)
  {
    if end == 0 {
      NothingBeforeZero(run);
      assert run[..0] == [];
    } else {
      var t := end - 1;
      PaidTimeConserved(s, run, user, t);
      UnitBalances(s, run, user, t);
      PremiumDuringCredit(s, run, user, t);
      UnitPasses(Credit(Before(s, run, end).activations, user), t);
    }
  }

  /** Once the last paid period is over, the premium time units of the whole timeline are exactly those sold. */
  lemma PaidTimeEnjoyed(s: State, run: seq<Timed>, user: Id, end: nat)
    requires Initial(s) && Ordered(run)
    requires forall i :: 0 <= i < |run| ==> run[i].at < end
    requires Until(Run(s, run).subs, user) <= end
    ensures PremiumUnits(s, run, user, end) == PaidUnits(Run(s, run).activations, user)
  {
    PaidTimeConserved(s, run, user, end);
    assert run[..CountBefore(run, end)] == run;
    RunRefines(s, run);
  }

  // ---------- the time sold, payment by payment ----------

  /** What the log credits to one payment. */
  function SoldBy(log: seq<Activation>, p: Id): nat {
    if log == [] then 0
    else
      var a := log[|log| - 1];
      SoldBy(log[..|log| - 1], p) + (if a.payment == p && a.effect.Extended? then a.effect.units else 0)
  }

  predicate IsSale(p: Payment, user: Id) {
    p.user == user && p.kind == SubscriptionPayment && Paid(p)
  }

  /** The sum of what the log credits to the user's successful subscription payments among the first `n`. */
  function SoldTo(s: State, user: Id, n: nat): nat
    requires n <= |s.payments|
  {
    if n == 0 then 0
    else SoldTo(s, user, n - 1) + (if IsSale(s.payments[n - 1], user) then SoldBy(s.activations, n - 1) else 0)
  }

  lemma {:induction false} SoldToOneMore(s: State, user: Id, n: nat, log: seq<Activation>, a: Activation)
    requires n <= |s.payments| && a.payment < |s.payments| && s.activations == log + [a] && EffectOk(s, a) && Paid(s.payments[a.payment])
    ensures SoldTo(s, user, n) == SoldTo(s.(activations := log), user, n) + (if a.payment < n then Units(a, user) else 0)
  {
    assert s.activations[..|s.activations| - 1] == log;
    if n > 0 {
      SoldToOneMore(s, user, n - 1, log, a);
    }
  }

  lemma {:induction false} SoldToOfNothing(s: State, user: Id, n: nat)
    requires n <= |s.payments| && s.activations == []
    ensures SoldTo(s, user, n) == 0
  {
    if n > 0 {
      SoldToOfNothing(s, user, n - 1);
    }
  }

  lemma {:induction false} PaidUnitsBySale(s: State, user: Id)
    requires forall k :: 0 <= k < |s.activations| ==> EffectOk(s, s.activations[k]) && Paid(s.payments[s.activations[k].payment])
    ensures PaidUnits(s.activations, user) == SoldTo(s, user, |s.payments|)
    decreases |s.activations|
  {
    if s.activations == [] {
      SoldToOfNothing(s, user, |s.payments|);
    } else {
      var last := |s.activations| - 1;
      var earlier := s.(activations := s.activations[..last]);
      forall k | 0 <= k < |earlier.activations|
        ensures EffectOk(earlier, earlier.activations[k])
      {
        assert EffectOk(s, s.activations[k]);
      }
      PaidUnitsBySale(earlier, user);
      SoldToOneMore(s, user, |s.payments|, s.activations[..last], s.activations[last]);
    }
  }

  /**
    Conservation, payment by payment: over a timeline that outlasts the user's last paid period, the time units of
    premium are the sum, over exactly the user's subscription payments that succeeded, of what each bought.
   */
  lemma PremiumTimeIsWhatWasSold(s: State, run: seq<Timed>, user: Id, end: nat)
    requires Initial(s) && Ordered(run)
    requires forall i :: 0 <= i < |run| ==> run[i].at < end
    requires Until(Run(s, run).subs, user) <= end
    ensures var t := Run(s, run);
            PremiumUnits(s, run, user, end) == SoldTo(t, user, |t.payments|)
  {
    PaidTimeEnjoyed(s, run, user, end);
    RunKeepsInv(s, run, end);
    var t := Run(s, run);
    forall k | 0 <= k < |t.activations|
      ensures EffectOk(t, t.activations[k]) && Paid(t.payments[t.activations[k].payment])
    {
      assert ActivationOk(t, end, t.activations[k]);
      assert PaymentOk(t, t.activations[k].payment);
    }
    PaidUnitsBySale(t, user);
  }

  /** Every logged sale was made by one webhook, for the duration the plan had when that webhook was handled. */
  lemma {:induction false} SoldAtTheTime(s: State, run: seq<Timed>, k: nat) returns (i: nat)
    requires Initial(s) && Ordered(run) && k < |Run(s, run).activations|
    ensures i < |run| && run[i].event.WebhookReceived? && run[i].at == Run(s, run).activations[k].at
    ensures SoldThePlan(Run(s, run[..i]), Run(s, run).activations[k])
  {
    var last := |run| - 1;
    assert run != [] && Run(s, []).activations == [];
    var before := Run(s, run[..last]);
    RunKeepsInv(s, run[..last], run[last].at);
    StepSells(before, run[last].at, run[last].at, run[last].event);
    if k < |before.activations| {
      i := SoldAtTheTime(s, run[..last], k);
      assert run[..last][..i] == run[..i];
      assert Run(s, run).activations[..|before.activations|] == before.activations;
    } else {
      i := last;
    }
  }

  // ---------- webhooks ----------

  /** Success ran downstream exactly once if and only if the status says so, and that is when `paid_at` is set. */
  lemma ActivatedExactlyOnce(s: State, run: seq<Timed>, p: Id)
    requires Initial(s) && Ordered(run) && p < |Run(s, run).payments|
    ensures var t := Run(s, run);
            && TimesActivated(t.activations, p) <= 1
            && (TimesActivated(t.activations, p) == 1 <==> Paid(t.payments[p]))
            && (Paid(t.payments[p]) <==> t.payments[p].paidAt.Some?)
  {
    RunKeepsInv(s, run, if run == [] then 0 else run[|run| - 1].at);
    assert PaymentOk(Run(s, run), p);
  }

  /** A verification is under review only once the payment made for it has succeeded. */
  lemma UnderReviewIsPaid(s: State, run: seq<Timed>, v: Id)
    requires Initial(s) && Ordered(run) && v < |Run(s, run).verifications|
    requires Run(s, run).verifications[v].status == UnderReview
    ensures var t := Run(s, run);
            var p := t.verifications[v].payment;
            p.Some? && p.value < |t.payments| && Paid(t.payments[p.value]) && TimesActivated(t.activations, p.value) == 1
  {
    var t := Run(s, run);
    RunKeepsInv(s, run, if run == [] then 0 else run[|run| - 1].at);
    assert VerificationOk(t, t.verifications[v]);
    assert PaymentOk(t, t.verifications[v].payment.value);
  }

  /** For the configured provider no webhook is ever answered with an error: the metadata branches are dead. */
  lemma WebhookNeverRaises(s: State, run: seq<Timed>, now: Time, provider: string, body: WebhookEvent)
    requires Initial(s) && Ordered(run) && forall i :: 0 <= i < |run| ==> run[i].at <= now
    ensures Webhook(Run(s, run), now, provider, body).RolledBack? <==> provider != s.provider
  {
    RunKeepsInv(s, run, now);
    WebhookKeepsInv(Run(s, run), now, now, provider, body);
    ProviderIsFixed(s, run);
  }

  lemma {:induction false} ProviderIsFixed(s: State, run: seq<Timed>)
    ensures Run(s, run).provider == s.provider
  {
    if run != [] {
      ProviderIsFixed(s, run[..|run| - 1]);
    }
  }

  /** A paid payment stays as it is, except that it may be refunded. */
  ghost predicate PaidForGood(s: State, t: State, p: Id)
    requires p < |s.payments|
  {
    && p < |t.payments|
    && t.payments[p] == s.payments[p].(status := t.payments[p].status)
    && (t.payments[p].status == s.payments[p].status || (s.payments[p].status == Success && t.payments[p].status == Refunded))
  }

  lemma SuccessOnPayments(s: State, now: Time, p: Id)
    requires p < |s.payments| && MarkSuccess(s, now, p).Ok?
    ensures MarkSuccess(s, now, p).value.payments == s.payments[p := s.payments[p].(status := Success, paidAt := Some(now))]
  {
  }

  /** A webhook leaves paid payments alone, and of an unpaid one it writes only the status and when it was paid. */
  lemma WebhookOnPayments(s: State, now: Time, provider: string, body: WebhookEvent, p: Id)
    requires p < |s.payments|
    ensures var after := Step(s, now, WebhookReceived(provider, body)).payments;
            |after| == |s.payments|
            && (after[p] == s.payments[p]
                || (!Paid(s.payments[p]) && after[p] == s.payments[p].(status := after[p].status, paidAt := after[p].paidAt)))
  {
    var found := Resolve(s.payments, provider, body);
    if found.Some? && MarkSuccess(s, now, found.value).Ok? {
      SuccessOnPayments(s, now, found.value);
    }
  }

  lemma StepPaidForGood(s: State, now: Time, e: Event, p: Id)
    requires p < |s.payments| && Paid(s.payments[p])
    ensures PaidForGood(s, Step(s, now, e), p)
  {
    if e.WebhookReceived? {
      WebhookOnPayments(s, now, e.provider, e.body, p);
    }
  }

  /** SUCCESS and REFUNDED absorb: no later event undoes them or changes when the payment was paid. */
  lemma {:induction false} PaidAbsorbs(s: State, run: seq<Timed>, p: Id)
    requires p < |s.payments| && Paid(s.payments[p])
    ensures PaidForGood(s, Run(s, run), p)
  {
    if run != [] {
      var last := |run| - 1;
      PaidAbsorbs(s, run[..last], p);
      StepPaidForGood(Run(s, run[..last]), run[last].at, run[last].event, p);
    }
  }

  predicate IsDuplicate(s: State, now: Time, e: Event) {
    var o := Handle(s, now, e);
    o.Committed? && o.reply == Duplicate
  }

  /** The run without the webhooks that were answered "duplicate". */
  function DropDuplicates(s: State, run: seq<Timed>): seq<Timed> {
    if run == [] then []
    else
      var last := |run| - 1;
      DropDuplicates(s, run[..last])
      + (if IsDuplicate(Run(s, run[..last]), run[last].at, run[last].event) then [] else [run[last]])
  }

  lemma DuplicateChangesNothing(s: State, now: Time, e: Event)
    requires IsDuplicate(s, now, e)
    ensures Step(s, now, e) == s
  {
  }

  lemma RunAppend(s: State, run: seq<Timed>, e: Timed)
    ensures Run(s, run + [e]) == Step(Run(s, run), e.at, e.event)
  {
    assert (run + [e])[..|run|] == run;
  }

  lemma {:induction false} DuplicatesAreInert(s: State, run: seq<Timed>)
    ensures Run(s, DropDuplicates(s, run)) == Run(s, run)
  {
    if run != [] {
      var init, last := run[..|run| - 1], run[|run| - 1];
      DuplicatesAreInert(s, init);
      if IsDuplicate(Run(s, init), last.at, last.event) {
        DuplicateChangesNothing(Run(s, init), last.at, last.event);
        assert DropDuplicates(s, run) == DropDuplicates(s, init);
      } else {
        RunAppend(s, DropDuplicates(s, init), last);
      }
    }
  }

  /**
    Whatever a webhook calls the payment, by provider id or by internal id, once the payment is paid
    every webhook for it in any continuation is answered "duplicate".
   */
  lemma LaterWebhooksAreDuplicates(s: State, run: seq<Timed>, now: Time, p: Id, body: WebhookEvent)
    requires p < |s.payments| && Paid(s.payments[p])
    requires Resolve(Run(s, run).payments, s.provider, body) == Some(p)
    ensures IsDuplicate(Run(s, run), now, WebhookReceived(s.provider, body))
  {
    PaidAbsorbs(s, run, p);
    ProviderIsFixed(s, run);
  }

  /** A webhook that names the payment by its provider id keeps naming it in every continuation. */
  lemma ProviderIdNamesForGood(s: State, run: seq<Timed>, clock: Time, p: Id, text: string)
    requires Inv(s, clock) && Ordered(run) && forall i :: 0 <= i < |run| ==> clock <= run[i].at
    requires GetByProviderId(s.payments, s.provider, text) == Some(p)
    ensures GetByProviderId(Run(s, run).payments, s.provider, text) == Some(p)
  {
    InvAlong(s, run, clock);
    IdsFixed(s, run, p);
    UniqueIdIsFound(Run(s, run).payments, p, s.provider, text);
  }

  lemma UniqueIdIsFound(payments: seq<Payment>, p: Id, provider: string, text: string)
    requires ProviderIdsUnique(payments) && p < |payments|
    requires payments[p].provider == provider && payments[p].providerPaymentId == Some(text)
    ensures GetByProviderId(payments, provider, text) == Some(p)
  {
  }

  lemma {:induction false} InvAlong(s: State, run: seq<Timed>, clock: Time)
    requires Inv(s, clock) && Ordered(run) && forall i :: 0 <= i < |run| ==> clock <= run[i].at
    ensures Inv(Run(s, run), if run == [] then clock else run[|run| - 1].at)
  {
    if run != [] {
      var last := |run| - 1;
      InvAlong(s, run[..last], clock);
      StepKeepsInv(Run(s, run[..last]), if last == 0 then clock else run[last - 1].at, run[last].at, run[last].event);
    }
  }

  lemma StepKeepsIds(s: State, now: Time, e: Event, p: Id)
    requires p < |s.payments|
    ensures var after := Step(s, now, e).payments;
            p < |after| && after[p].provider == s.payments[p].provider && after[p].providerPaymentId == s.payments[p].providerPaymentId
  {
    if e.WebhookReceived? {
      WebhookOnPayments(s, now, e.provider, e.body, p);
    }
  }

  lemma {:induction false} IdsFixed(s: State, run: seq<Timed>, p: Id)
    requires p < |s.payments|
    ensures p < |Run(s, run).payments|
    ensures Run(s, run).payments[p].provider == s.payments[p].provider
    ensures Run(s, run).payments[p].providerPaymentId == s.payments[p].providerPaymentId
  {
    if run != [] {
      var last := |run| - 1;
      IdsFixed(s, run[..last], p);
      StepKeepsIds(Run(s, run[..last]), run[last].at, run[last].event, p);
    }
  }

  /** All the events are webhooks for the configured provider that resolve to `p`. */
  ghost predicate WebhooksFor(s: State, run: seq<Timed>, p: Id) {
    forall i :: 0 <= i < |run| ==>
      && run[i].event.WebhookReceived? && run[i].event.provider == s.provider
      && Resolve(Run(s, run[..i]).payments, s.provider, run[i].event.body) == Some(p)
  }

  predicate SameLetter(c: char, capital: char) {
    c == capital || ('A' <= capital <= 'Z' && c as int == capital as int + 32)
  }

  /** A text that reads as a word in capitals, whatever the case of its letters. */
  predicate Reads(text: string, word: string) {
    |text| == |word| && forall i :: 0 <= i < |word| ==> SameLetter(text[i], word[i])
  }

  /** A webhook without a status reports success. */
  predicate SaysSuccess(status: Option<string>) {
    status.None? || Reads(status.value, "SUCCESS") || Reads(status.value, "COMPLETED") || Reads(status.value, "PAID")
  }

  predicate SaysFailure(status: Option<string>) {
    status.Some? && (Reads(status.value, "FAILED") || Reads(status.value, "FAILURE") || Reads(status.value, "CANCELLED"))
  }

  lemma UpperReads(text: string, word: string)
    requires forall i :: 0 <= i < |word| ==> 'A' <= word[i] <= 'Z'
    ensures Upper(text) == word <==> Reads(text, word)
  {
    if Reads(text, word) {
      assert forall i :: 0 <= i < |word| ==> Upper(text)[i] == word[i];
    }
    if Upper(text) == word {
      forall i | 0 <= i < |word| ensures SameLetter(text[i], word[i]) {
        assert Upper(text)[i] == word[i];
      }
    }
  }

  lemma WordsDecide(status: Option<string>)
    ensures Classify(status) == Succeeded <==> SaysSuccess(status)
    ensures Classify(status) == FailedVerdict <==> SaysFailure(status)
  {
    if status.Some? {
      UpperReads(status.value, "SUCCESS");
      UpperReads(status.value, "COMPLETED");
      UpperReads(status.value, "PAID");
      UpperReads(status.value, "FAILED");
      UpperReads(status.value, "FAILURE");
      UpperReads(status.value, "CANCELLED");
      assert "SUCCESS"[0] != "FAILED"[0] && "SUCCESS"[0] != "CANCELLED"[0] && "FAILURE"[0] != "SUCCESS"[0];
      assert "COMPLETED"[1] != "CANCELLED"[1] && "COMPLETED"[0] != "FAILED"[0] && "COMPLETED"[0] != "FAILURE"[0];
      assert |"PAID"| == 4;
    } else {
      UpperReads("SUCCESS", "SUCCESS");
    }
  }

  predicate ReportsSuccess(e: Event) {
    e.WebhookReceived? && SaysSuccess(e.body.status)
  }

  predicate SomeSuccess(run: seq<Timed>) {
    exists i :: 0 <= i < |run| && ReportsSuccess(run[i].event)
  }

  lemma WebhooksForPrefix(s: State, run: seq<Timed>, p: Id)
    requires run != [] && WebhooksFor(s, run, p)
    ensures WebhooksFor(s, run[..|run| - 1], p)
  {
    var before := run[..|run| - 1];
    assert forall i :: 0 <= i < |before| ==> before[..i] == run[..i] && before[i] == run[i];
  }

  lemma DeliveryDecides(s: State, clock: Time, now: Time, p: Id, e: Event)
    requires Inv(s, clock) && clock <= now
    requires e.WebhookReceived? && e.provider == s.provider && Resolve(s.payments, s.provider, e.body) == Some(p)
    ensures p < |Step(s, now, e).payments|
    ensures Paid(Step(s, now, e).payments[p]) <==> Paid(s.payments[p]) || ReportsSuccess(e)
  {
    WordsDecide(e.body.status);
    if !Paid(s.payments[p]) {
      SuccessKeepsInv(s, clock, now, p);
    }
  }

  /**
    Reordering and duplication do not matter: after any deliveries for an unpaid payment, FAILED before or after
    SUCCESS, it is paid exactly when at least one of them reported success.
   */
  lemma {:induction false} SuccessWinsInAnyOrder(s: State, run: seq<Timed>, clock: Time, p: Id)
    requires Inv(s, clock) && Ordered(run) && forall i :: 0 <= i < |run| ==> clock <= run[i].at
    requires p < |s.payments| && !Paid(s.payments[p]) && WebhooksFor(s, run, p)
    ensures p < |Run(s, run).payments| && (Paid(Run(s, run).payments[p]) <==> SomeSuccess(run))
  {
    IdsFixed(s, run, p);
    if run != [] {
      var last := |run| - 1;
      var before := run[..last];
      WebhooksForPrefix(s, run, p);
      SuccessWinsInAnyOrder(s, before, clock, p);
      InvAlong(s, before, clock);
      ProviderIsFixed(s, before);
      DeliveryDecides(Run(s, before), if last == 0 then clock else run[last - 1].at, run[last].at, p, run[last].event);
      SomeSuccessLast(run);
    }
  }

  lemma SomeSuccessLast(run: seq<Timed>)
    requires run != []
    ensures SomeSuccess(run) <==> SomeSuccess(run[..|run| - 1]) || ReportsSuccess(run[|run| - 1].event)
  {
    var before := run[..|run| - 1];
    forall i | 0 <= i < |before|
      ensures before[i] == run[i] && (ReportsSuccess(before[i].event) ==> SomeSuccess(run))
    {
      assert ReportsSuccess(before[i].event) ==> ReportsSuccess(run[i].event);
    }
    if SomeSuccess(run) && !ReportsSuccess(run[|run| - 1].event) {
      var i :| 0 <= i < |run| && ReportsSuccess(run[i].event);
      assert ReportsSuccess(before[i].event);
    }
  }
}
