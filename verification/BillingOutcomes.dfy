/**
  What each billing request does, told from outside: which rows it writes, what it writes there, and what it answers,
  in terms of the request, the tables before it and the number of paid time.
 */
module BillingOutcomes {
  import opened Common
  import opened Billing
  import opened BillingInvariant
  import opened BillingTheorems

  // ---------- which payment a webhook names ----------

  predicate HasProviderId(payments: seq<Payment>, p: Id, provider: string, text: string) {
    p < |payments| && payments[p].provider == provider && payments[p].providerPaymentId == Some(text)
  }

  /** The identifier that is looked up as a provider id: the provider's if given, else the internal one's text. */
  predicate LooksUp(ev: WebhookEvent, text: string) {
    if Present(ev.providerPaymentId) then ev.providerPaymentId.value.text == text
    else if Present(ev.paymentId) then ev.paymentId.value.text == text
    else text == ""
  }

  predicate NamesInternally(r: Option<Ref>, p: Id) {
    Present(r) && r.value.id == Some(p)
  }

  /** A provider id decides; without one the internal id decides, given as payment id before given as provider id. */
  lemma WebhookNames(payments: seq<Payment>, provider: string, ev: WebhookEvent, text: string, p: Id)
    requires ProviderIdsUnique(payments) && LooksUp(ev, text) && p < |payments|
    ensures HasProviderId(payments, p, provider, text) ==> Resolve(payments, provider, ev) == Some(p)
    ensures (forall q :: !HasProviderId(payments, q, provider, text)) ==>
              && (NamesInternally(ev.paymentId, p) ==> Resolve(payments, provider, ev) == Some(p))
              && (NamesInternally(ev.providerPaymentId, p) && (forall q: Id :: q < |payments| ==> !NamesInternally(ev.paymentId, q)) ==>
                    Resolve(payments, provider, ev) == Some(p))
    ensures Resolve(payments, provider, ev) == Some(p) ==>
              HasProviderId(payments, p, provider, text) || NamesInternally(ev.paymentId, p) || NamesInternally(ev.providerPaymentId, p)
  {
    assert LookupText(ev) == text;
    var found := GetByProviderId(payments, provider, text);
    if found.Some? {
      assert HasProviderId(payments, found.value, provider, text);
    }
    assert NamesInternally(ev.paymentId, p) ==> ByInternalId(payments, ev.paymentId) == Some(p);
    var other := ByInternalId(payments, ev.paymentId);
    assert other.Some? ==> NamesInternally(ev.paymentId, other.value);
  }

  // ---------- what a webhook does ----------

  /**
    A webhook that names no payment, or one already paid, changes nothing; otherwise a success word, or no status at
    all, pays it now, a failure word fails it, and any other word changes nothing.
   */
  lemma WebhookOutcome(s: State, clock: Time, now: Time, body: WebhookEvent)
    requires Inv(s, clock) && clock <= now
    ensures var found := Resolve(s.payments, s.provider, body);
            var o := Handle(s, now, WebhookReceived(s.provider, body));
            && (found.None? ==> o == Committed(s, Ignored))
            && (found.Some? && s.payments[found.value].status in {Success, Refunded} ==> o == Committed(s, Duplicate))
            && (found.Some? && s.payments[found.value].status !in {Success, Refunded} ==>
                  var p := found.value;
                  && o.Committed? && o.reply == Processed(p)
                  && (SaysSuccess(body.status) ==> o.state.payments == s.payments[p := s.payments[p].(status := Success, paidAt := Some(now))])
                  && (SaysFailure(body.status) ==> o.state == s.(payments := s.payments[p := s.payments[p].(status := Failed)]))
                  && (!SaysSuccess(body.status) && !SaysFailure(body.status) ==> o.state == s))
  {
    WordsDecide(body.status);
    var found := Resolve(s.payments, s.provider, body);
    if found.Some? && !Paid(s.payments[found.value]) {
      SuccessKeepsInv(s, clock, now, found.value);
      SuccessOnPayments(s, now, found.value);
    }
  }

  // ---------- activation ----------

  /**
    One row of the buyer is written: it starts when the time already paid for ends, or now, and lasts the duration
    bought.  A renewed row keeps its plan; without an ACTIVE row a fresh one takes the payment's.
   */
  ghost predicate RowWritten(before: seq<Subscription>, after: seq<Subscription>, at: nat, payment: Payment, days: nat, now: Time) {
    var start := Max(Until(before, payment.user), now);
    && at <= |before| && |after| == (if at < |before| then |before| else |before| + 1)
    && (forall i :: 0 <= i < |before| && i != at ==> after[i] == before[i])
    && (if at < |before| then ActiveRow(before, at, payment.user) else forall i: nat :: i < |before| ==> !ActiveRow(before, i, payment.user))
    && payment.plan.Some?
    && after[at].user == payment.user && after[at].status == Active
    && after[at].startsAt == start && after[at].expiresAt == Some(start + days * DAY)
    && after[at].provider == payment.provider && after[at].providerSubscriptionId == payment.providerPaymentId
    && after[at].plan == (if at < |before| then before[at].plan else payment.plan.value)
  }

  lemma ActivationWrites(s: State, clock: Time, now: Time, p: Id) returns (at: nat)
    requires SubsOk(s.subs, clock) && clock <= now
    requires p < |s.payments| && s.payments[p].plan.Some? && s.payments[p].plan.value < |s.plans|
    ensures Activate(s, now, p).Ok?
    ensures RowWritten(s.subs, Activate(s, now, p).value.subs, at, s.payments[p], s.plans[s.payments[p].plan.value].durationDays, now)
  {
    var buyer := s.payments[p].user;
    var existing := GetActive(s.subs, buyer);
    at := existing.GetOr(|s.subs|);
    if existing.Some? {
      assert s.subs[at].expiresAt == Some(Until(s.subs, buyer));
    } else {
      NoActiveNoTime(s.subs, clock, buyer);
    }
  }

  /** The webhook that pays a subscription payment writes that row, with the plan's duration at that moment. */
  lemma PaidSubscriptionRow(s: State, clock: Time, now: Time, body: WebhookEvent, p: Id) returns (at: nat)
    requires Inv(s, clock) && clock <= now && SaysSuccess(body.status)
    requires Resolve(s.payments, s.provider, body) == Some(p) && !Paid(s.payments[p]) && s.payments[p].kind == SubscriptionPayment
    ensures s.payments[p].plan.Some? && s.payments[p].plan.value < |s.plans|
    ensures RowWritten(s.subs, Step(s, now, WebhookReceived(s.provider, body)).subs, at, s.payments[p],
                       s.plans[s.payments[p].plan.value].durationDays, now)
    ensures Step(s, now, WebhookReceived(s.provider, body)).verifications == s.verifications
  {
    assert PaymentOk(s, p);
    PaidIsActivated(s, now, body, p);
    var paid := s.(payments := s.payments[p := s.payments[p].(status := Success, paidAt := Some(now))]);
    at := ActivationWrites(paid, clock, now, p);
    ActivationKeepsRest(paid, now, p);
    StatusIsNotWritten(s.subs, Activate(paid, now, p).value.subs, at, s.payments[p], paid.payments[p],
                       s.plans[s.payments[p].plan.value].durationDays, now);
  }

  lemma StatusIsNotWritten(before: seq<Subscription>, after: seq<Subscription>, at: nat, payment: Payment, paid: Payment, days: nat, now: Time)
    requires paid == payment.(status := paid.status, paidAt := paid.paidAt) && RowWritten(before, after, at, paid, days, now)
    ensures RowWritten(before, after, at, payment, days, now)
  {
  }

  lemma PaidIsActivated(s: State, now: Time, body: WebhookEvent, p: Id)
    requires p < |s.payments| && SaysSuccess(body.status)
    requires Resolve(s.payments, s.provider, body) == Some(p) && !Paid(s.payments[p]) && s.payments[p].kind == SubscriptionPayment
    ensures var paid := s.(payments := s.payments[p := s.payments[p].(status := Success, paidAt := Some(now))]);
            Activate(paid, now, p).Ok? ==> Step(s, now, WebhookReceived(s.provider, body)) == Activate(paid, now, p).value
  {
    WordsDecide(body.status);
  }

  lemma ActivationKeepsRest(s: State, now: Time, p: Id)
    requires p < |s.payments| && Activate(s, now, p).Ok?
    ensures var t := Activate(s, now, p).value;
            t == s.(subs := t.subs, activations := t.activations)
  {
  }

  /** The webhook that pays for a verification moves it on from waiting for payment, and touches no other. */
  lemma PaidVerification(s: State, clock: Time, now: Time, body: WebhookEvent, p: Id)
    requires Inv(s, clock) && clock <= now && SaysSuccess(body.status)
    requires Resolve(s.payments, s.provider, body) == Some(p) && !Paid(s.payments[p]) && s.payments[p].kind == JobVerificationPayment
    ensures var after := Step(s, now, WebhookReceived(s.provider, body));
            var v := s.payments[p].verification;
            && after.subs == s.subs && v.Some? && v.value < |s.verifications| && |after.verifications| == |s.verifications|
            && forall i :: 0 <= i < |s.verifications| ==>
                 after.verifications[i] == if i == v.value && s.verifications[i].status == PendingPayment
                                           then s.verifications[i].(status := UnderReview) else s.verifications[i]
  {
    WordsDecide(body.status);
    assert PaymentOk(s, p);
  }

  /** Paying anything else writes neither subscriptions nor verifications. */
  lemma PaidOther(s: State, clock: Time, now: Time, body: WebhookEvent, p: Id)
    requires Inv(s, clock) && clock <= now
    requires Resolve(s.payments, s.provider, body) == Some(p) && s.payments[p].kind == OtherPayment
    ensures var after := Step(s, now, WebhookReceived(s.provider, body));
            after.subs == s.subs && after.verifications == s.verifications
  {
  }

  // ---------- checkout ----------

  predicate ProviderIdTaken(s: State, id: Option<string>) {
    exists i :: 0 <= i < |s.payments| && id.Some? && s.payments[i].providerPaymentId == id
  }

  /** A checkout of an active plan adds one pending payment for it; the buyer's time is not touched until it is paid. */
  lemma CheckoutOutcome(s: State, now: Time, user: Id, plan: Id, id: Option<string>)
    ensures var o := Handle(s, now, CheckoutEvent(user, plan, id));
            && (o.Committed? <==> plan < |s.plans| && s.plans[plan].isActive && !ProviderIdTaken(s, id))
            && (o.Committed? ==>
                  && o.reply == Processed(|s.payments|)
                  && o.state == s.(payments := s.payments + [Payment(user, SubscriptionPayment, PaymentStatus.Pending, s.provider, id, Some(plan), None, None)]))
            && (o.RolledBack? ==> o.error == if plan < |s.plans| && s.plans[plan].isActive then DuplicateProviderId else PlanNotFound)
  {
  }

  /** A submission adds a verification waiting for payment and its pending payment, each naming the other. */
  lemma SubmitOutcome(s: State, now: Time, user: Id, id: Option<string>)
    ensures var o := Handle(s, now, SubmitEvent(user, id));
            && (o.Committed? <==> !ProviderIdTaken(s, id))
            && (o.Committed? ==>
                  && o.reply == Processed(|s.payments|)
                  && o.state.verifications == s.verifications + [JobVerification(user, PendingPayment, Some(|s.payments|), None, None)]
                  && o.state.payments == s.payments + [Payment(user, JobVerificationPayment, PaymentStatus.Pending, s.provider, id, None, Some(|s.verifications|), None)]
                  && o.state == s.(verifications := o.state.verifications, payments := o.state.payments))
  {
  }

  /** A plan is written, new or in place of an old one, only with a positive duration; rows sold before are untouched. */
  lemma PlanOutcome(s: State, now: Time, plan: Id, row: Plan)
    ensures var o := Handle(s, now, PlanEvent(plan, row));
            && (o.Committed? <==> row.durationDays > 0 && plan <= |s.plans|)
            && (o.Committed? ==> o.state == s.(plans := o.state.plans) && plan < |o.state.plans| && o.state.plans[plan] == row
                                 && |s.plans| <= |o.state.plans|
                                 && forall i :: 0 <= i < |s.plans| && i != plan ==> o.state.plans[i] == s.plans[i])
  {
  }

  // ---------- refund, review, sweeps ----------

  /** Only a payment in SUCCESS whose refund the provider accepts is refunded, and nothing but its status changes. */
  lemma RefundOutcome(s: State, now: Time, p: Id, accepted: bool)
    ensures var o := Handle(s, now, RefundEvent(p, accepted));
            && (o.Committed? <==> p < |s.payments| && s.payments[p].status == Success && accepted)
            && (o.Committed? ==> o.state == s.(payments := s.payments[p := s.payments[p].(status := Refunded)]))
            && (o.RolledBack? ==> o.error == if p >= |s.payments| then PaymentNotFound
                                             else if s.payments[p].status == Success then RefundDeclined else NotRefundable)
  {
  }

  /** An approval verifies from now for the days given, a rejection rejects and keeps the dates; nothing else changes. */
  lemma ReviewOutcome(s: State, now: Time, allowed: bool, v: Id, approve: bool, days: nat)
    ensures var o := Handle(s, now, ReviewEvent(allowed, v, approve, days));
            && (o.Committed? <==> allowed && v < |s.verifications|)
            && (o.Committed? ==>
                  var row := s.verifications[v];
                  o.state == s.(verifications := s.verifications[v :=
                    if approve then JobVerification(row.user, Verified, row.payment, Some(now), Some(now + days * DAY))
                    else JobVerification(row.user, Rejected, row.payment, row.verifiedAt, row.expiresAt)]))
            && (o.RolledBack? ==> o.error == if allowed then VerificationNotFound else Forbidden)
  {
  }

  predicate PastExpiry(expiresAt: Option<Time>, now: Time) {
    expiresAt.Some? && expiresAt.value < now
  }

  /** After a sweep no ACTIVE row is past its expiry; it expired exactly those that were, and changed nothing else. */
  lemma SweepOutcome(s: State, now: Time)
    ensures var t := Step(s, now, SubscriptionSweep);
            && t == s.(subs := t.subs) && |t.subs| == |s.subs|
            && forall i :: 0 <= i < |s.subs| ==>
                 && t.subs[i] == s.subs[i].(status := t.subs[i].status)
                 && (PastExpiry(s.subs[i].expiresAt, now) ==> t.subs[i].status != Active)
                 && (t.subs[i].status != s.subs[i].status <==> s.subs[i].status == Active && PastExpiry(s.subs[i].expiresAt, now))
                 && (t.subs[i].status != s.subs[i].status ==> t.subs[i].status == Expired)
  {
  }

  lemma VerificationSweepOutcome(s: State, now: Time)
    ensures var t := Step(s, now, VerificationSweep);
            && t == s.(verifications := t.verifications) && |t.verifications| == |s.verifications|
            && forall i :: 0 <= i < |s.verifications| ==>
                 && t.verifications[i] == s.verifications[i].(status := t.verifications[i].status)
                 && (PastExpiry(s.verifications[i].expiresAt, now) ==> t.verifications[i].status != Verified)
                 && (t.verifications[i].status != s.verifications[i].status <==>
                       s.verifications[i].status == Verified && PastExpiry(s.verifications[i].expiresAt, now))
                 && (t.verifications[i].status != s.verifications[i].status ==> t.verifications[i].status == Lapsed)
  {
  }
}
