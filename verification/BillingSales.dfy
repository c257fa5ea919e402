/** What each payment bought: premium time is the plans' durations, read at the webhooks that paid for them. */
module BillingSales {
  import opened Billing
  import opened BillingInvariant
  import opened BillingTheorems

  /** Event `i` of the run is the one that paid the payment. */
  ghost predicate PaidBy(s: State, run: seq<Timed>, p: Id, i: nat) {
    && i < |run|
    && var before, after := Run(s, run[..i]).payments, Run(s, run[..i + 1]).payments;
       p < |before| && p < |after| && !Paid(before[p]) && Paid(after[p])
  }

  lemma RunNext(s: State, run: seq<Timed>, i: nat)
    requires i < |run|
    ensures Run(s, run[..i + 1]) == Step(Run(s, run[..i]), run[i].at, run[i].event)
  {
    assert run[..i + 1][..i] == run[..i];
  }

  /** What every step keeps holds from where it first holds. */
  lemma {:induction false} Lasting(holds: seq<bool>, i: nat, n: nat)
    requires i <= n < |holds| && holds[i]
    requires forall k: nat :: k < |holds| - 1 && holds[k] ==> holds[k + 1]
    ensures holds[n]
  {
    if i < n {
      Lasting(holds, i, n - 1);
    }
  }

  predicate IsPaid(s: State, p: Id) {
    p < |s.payments| && Paid(s.payments[p])
  }

  lemma StepStaysPaid(before: State, after: State, now: Time, e: Event, p: Id)
    requires after == Step(before, now, e) && IsPaid(before, p)
    ensures IsPaid(after, p)
  {
    StepPaidForGood(before, now, e, p);
  }

  lemma StaysPaid(s: State, run: seq<Timed>, p: Id, i: nat, n: nat)
    requires i <= n <= |run| && IsPaid(Run(s, run[..i]), p)
    ensures IsPaid(Run(s, run[..n]), p)
  {
    var paid := seq(|run| + 1, k requires 0 <= k <= |run| => IsPaid(Run(s, run[..k]), p));
    forall k: nat | k < |run| && paid[k] ensures paid[k + 1] {
      RunNext(s, run, k);
      StepStaysPaid(Run(s, run[..k]), Run(s, run[..k + 1]), run[k].at, run[k].event, p);
    }
    Lasting(paid, i, n);
  }

  /** A payment is paid by one event at most. */
  lemma PaidByOne(s: State, run: seq<Timed>, p: Id, i: nat, j: nat)
    requires PaidBy(s, run, p, i) && PaidBy(s, run, p, j)
    ensures i == j
  {
    if i < j {
      StaysPaid(s, run, p, i + 1, j);
    } else if j < i {
      StaysPaid(s, run, p, j + 1, i);
    }
  }

  lemma NewPaymentsAreUnpaid(s: State, now: Time, e: Event, p: Id)
    requires |s.payments| <= p < |Step(s, now, e).payments|
    ensures !Paid(Step(s, now, e).payments[p])
  {
    if e.WebhookReceived? && s.payments != [] {
      WebhookOnPayments(s, now, e.provider, e.body, 0);
    }
  }

  /** A paid payment was paid by some event. */
  lemma {:induction false} PaidBySome(s: State, run: seq<Timed>, p: Id, n: nat) returns (i: nat)
    requires Initial(s) && n <= |run| && p < |Run(s, run[..n]).payments| && Paid(Run(s, run[..n]).payments[p])
    ensures i < n && PaidBy(s, run, p, i)
  {
    assert run[..0] == [];
    i := n - 1;
    var before := Run(s, run[..i]);
    RunNext(s, run, i);
    if p >= |before.payments| {
      NewPaymentsAreUnpaid(before, run[i].at, run[i].event, p);
    } else if Paid(before.payments[p]) {
      i := PaidBySome(s, run, p, i);
    }
  }

  /** The duration of the payment's plan, as the tables have it. */
  function PlanTime(s: State, p: Id): nat
    requires p < |s.payments|
  {
    var plan := s.payments[p].plan;
    if plan.Some? && plan.value < |s.plans| then s.plans[plan.value].durationDays * DAY else 0
  }

  lemma {:induction false} NothingSold(log: seq<Activation>, p: Id)
    requires TimesActivated(log, p) == 0
    ensures SoldBy(log, p) == 0
  {
    if log != [] {
      NothingSold(log[..|log| - 1], p);
    }
  }

  lemma SoldByAppend(log: seq<Activation>, after: seq<Activation>, p: Id)
    requires |after| == |log| + 1 && after[..|log|] == log
    ensures var a := after[|log|];
            && SoldBy(after, p) == SoldBy(log, p) + (if a.payment == p && a.effect.Extended? then a.effect.units else 0)
            && TimesActivated(after, p) == TimesActivated(log, p) + (if a.payment == p then 1 else 0)
  {
  }

  /** The event that pays a subscription payment sells it the duration its plan has at that moment. */
  lemma PaidByASale(s: State, run: seq<Timed>, p: Id, i: nat)
    requires Initial(s) && Ordered(run) && PaidBy(s, run, p, i) && Run(s, run[..i]).payments[p].kind == SubscriptionPayment
    ensures run[i].event.WebhookReceived? && SoldBy(Run(s, run[..i + 1]).activations, p) == PlanTime(Run(s, run[..i]), p)
  {
    var now := run[i].at;
    var before, after := Run(s, run[..i]), Run(s, run[..i + 1]);
    RunNext(s, run, i);
    RunKeepsInv(s, run[..i], now);
    StepKeepsInv(before, now, now, run[i].event);
    assert PaymentOk(before, p) && PaymentOk(after, p);
    NothingSold(before.activations, p);
    StepSells(before, now, now, run[i].event);
    SoldByAppend(before.activations, after.activations, p);
  }

  predicate IsSoldFor(s: State, p: Id, units: nat) {
    IsPaid(s, p) && SoldBy(s.activations, p) == units
  }

  /** A step sells nothing to a payment that is already paid. */
  lemma StepSellsNothingMore(before: State, after: State, now: Time, e: Event, p: Id, units: nat)
    requires Inv(before, now) && after == Step(before, now, e) && IsSoldFor(before, p, units)
    ensures IsSoldFor(after, p, units)
  {
    StepStaysPaid(before, after, now, e, p);
    StepSells(before, now, now, e);
    if after.activations != before.activations {
      SoldByAppend(before.activations, after.activations, p);
    }
  }

  /** Later events sell nothing more to it. */
  lemma SoldOnce(s: State, run: seq<Timed>, p: Id, units: nat, i: nat, n: nat)
    requires Initial(s) && Ordered(run) && i <= n <= |run| && IsSoldFor(Run(s, run[..i]), p, units)
    ensures IsSoldFor(Run(s, run[..n]), p, units)
  {
    var kept := seq(|run| + 1, k requires 0 <= k <= |run| => IsSoldFor(Run(s, run[..k]), p, units));
    forall k: nat | k < |run| && kept[k] ensures kept[k + 1] {
      RunNext(s, run, k);
      RunKeepsInv(s, run[..k], run[k].at);
      StepSellsNothingMore(Run(s, run[..k]), Run(s, run[..k + 1]), run[k].at, run[k].event, p, units);
    }
    Lasting(kept, i, n);
  }

  predicate HasKind(s: State, p: Id, kind: PaymentType) {
    p < |s.payments| && s.payments[p].kind == kind
  }

  lemma StepKeepsKind(before: State, after: State, now: Time, e: Event, p: Id, kind: PaymentType)
    requires after == Step(before, now, e) && HasKind(before, p, kind)
    ensures HasKind(after, p, kind)
  {
    if e.WebhookReceived? {
      WebhookOnPayments(before, now, e.provider, e.body, p);
    }
  }

  lemma KindFixed(s: State, run: seq<Timed>, p: Id, kind: PaymentType, i: nat, n: nat)
    requires i <= n <= |run| && HasKind(Run(s, run[..i]), p, kind)
    ensures HasKind(Run(s, run[..n]), p, kind)
  {
    var kept := seq(|run| + 1, k requires 0 <= k <= |run| => HasKind(Run(s, run[..k]), p, kind));
    forall k: nat | k < |run| && kept[k] ensures kept[k + 1] {
      RunNext(s, run, k);
      StepKeepsKind(Run(s, run[..k]), Run(s, run[..k + 1]), run[k].at, run[k].event, p, kind);
    }
    Lasting(kept, i, n);
  }

  /**
    What the log credits to a paid subscription payment is the duration of its plan in the tables at the one webhook
    that paid it.
   */
  lemma SaleIsThePlan(s: State, run: seq<Timed>, p: Id) returns (i: nat)
    requires Initial(s) && Ordered(run) && p < |Run(s, run).payments|
    requires Run(s, run).payments[p].kind == SubscriptionPayment && Paid(Run(s, run).payments[p])
    ensures PaidBy(s, run, p, i) && (forall j :: PaidBy(s, run, p, j) ==> j == i) && run[i].event.WebhookReceived?
    ensures SoldBy(Run(s, run).activations, p) == PlanTime(Run(s, run[..i]), p)
  {
    assert run[..|run|] == run;
    i := PaidBySome(s, run, p, |run|);
    forall j | PaidBy(s, run, p, j) ensures j == i {
      PaidByOne(s, run, p, j, i);
    }
    KindFixed(s, run, p, Run(s, run[..i]).payments[p].kind, i, |run|);
    PaidByASale(s, run, p, i);
    SoldOnce(s, run, p, PlanTime(Run(s, run[..i]), p), i + 1, |run|);
  }

  /** The duration of the payment's plan at the event that paid it; 0 when none did. */
  ghost function PlanTimePaid(s: State, run: seq<Timed>, p: Id): nat {
    if i: nat :| PaidBy(s, run, p, i) then PlanTime(Run(s, run[..i]), p) else 0
  }

  /** The sum of the plan durations of the user's successful subscription payments among the first `n`. */
  ghost function PlanTimeTo(s: State, run: seq<Timed>, user: Id, n: nat): nat
    requires n <= |Run(s, run).payments|
  {
    if n == 0 then 0
    else PlanTimeTo(s, run, user, n - 1) + (if IsSale(Run(s, run).payments[n - 1], user) then PlanTimePaid(s, run, n - 1) else 0)
  }

  lemma {:induction false} SoldToIsPlanTime(s: State, run: seq<Timed>, user: Id, n: nat)
    requires Initial(s) && Ordered(run) && n <= |Run(s, run).payments|
    ensures SoldTo(Run(s, run), user, n) == PlanTimeTo(s, run, user, n)
  {
    if n > 0 {
      SoldToIsPlanTime(s, run, user, n - 1);
      if IsSale(Run(s, run).payments[n - 1], user) {
        var i := SaleIsThePlan(s, run, n - 1);
      }
    }
  }

  /**
    Conservation, plan by plan: over a timeline that outlasts the user's last paid period, the time units of premium
    are the sum of the plan durations, each read at the webhook that paid for it, of exactly the user's subscription
    payments that ever succeeded.
   */
  lemma PremiumTimeIsPlanTime(s: State, run: seq<Timed>, user: Id, end: nat)
    requires Initial(s) && Ordered(run)
    requires forall i :: 0 <= i < |run| ==> run[i].at < end
    requires Until(Run(s, run).subs, user) <= end
    ensures PremiumUnits(s, run, user, end) == PlanTimeTo(s, run, user, |Run(s, run).payments|)
  {
    PremiumTimeIsWhatWasSold(s, run, user, end);
    SoldToIsPlanTime(s, run, user, |Run(s, run).payments|);
  }
}
