/**
  The billing services as they update rows in place, each method proved to make the transition
  that module Billing specifies.  A service method that raises may leave the session's rows
  half-written; the route then drops them, so only committed states are visible.
 */
module BillingService {
  import opened Common
  import opened Billing

  class Session {
    const provider: string
    var plans: seq<Plan>
    var subs: seq<Subscription>
    var payments: seq<Payment>
    var verifications: seq<JobVerification>
    var activations: seq<Activation>

    function Snapshot(): State
      reads this
    {
      State(provider, plans, subs, payments, verifications, activations)
    }

    constructor (s: State)
      ensures Snapshot() == s
    {
      provider, plans, subs, payments, verifications, activations :=
        s.provider, s.plans, s.subs, s.payments, s.verifications, s.activations;
    }

    /** What the end of a request does to uncommitted rows when it raised. */
    method Rollback(saved: State)
      requires saved.provider == provider
      modifies this
      ensures Snapshot() == saved
    {
      plans, subs, payments, verifications, activations :=
        saved.plans, saved.subs, saved.payments, saved.verifications, saved.activations;
    }

    method ActivateFromPayment(now: Time, p: Id) returns (r: Result<Id, Error>)
      requires p < |payments|
      modifies this
      ensures match Activate(old(Snapshot()), now, p)
              case Ok(s') => r.Ok? && Snapshot() == s' && r.value < |subs|
                             && subs[r.value].user == payments[p].user && subs[r.value].status == Active
              case Err(e) => r == Err(e)
    {
      var payment := payments[p];
      if payment.plan.None? { return Err(MetaMissing); }
      if payment.plan.value >= |plans| { return Err(PlanNotFound); }
      var plan := plans[payment.plan.value];

      var existing := GetActive(subs, payment.user);
      var startsAt := now;
      if existing.Some? {
        var row := subs[existing.value];
        if row.expiresAt.Some? && row.expiresAt.value > now {
          startsAt := row.expiresAt.value;
        }
      }
      var expiresAt := startsAt + plan.durationDays * DAY;

      var id := |subs|;
      if existing.Some? {
        id := existing.value;
        var row := subs[id];
        row := row.(startsAt := startsAt);
        row := row.(expiresAt := Some(expiresAt));
        row := row.(status := Active);
        row := row.(provider := payment.provider);
        row := row.(providerSubscriptionId := payment.providerPaymentId);
        subs := subs[id := row];
      } else {
        subs := subs + [Subscription(payment.user, payment.plan.value, Active, startsAt, Some(expiresAt),
                                     payment.provider, payment.providerPaymentId)];
      }
      activations := activations + [Activation(p, now, Extended(payment.user, plan.durationDays * DAY))];
      return Ok(id);
    }

    method MarkUnderReviewFromPayment(now: Time, p: Id) returns (r: Result<Id, Error>)
      requires p < |payments|
      modifies this
      ensures match ReviewPaid(old(Snapshot()), now, p)
              case Ok(s') => r.Ok? && Snapshot() == s'
              case Err(e) => r == Err(e)
    {
      var payment := payments[p];
      if payment.verification.None? { return Err(MetaMissing); }
      var v := payment.verification.value;
      if v >= |verifications| { return Err(VerificationNotFound); }
      if verifications[v].status == PendingPayment {
        verifications := verifications[v := verifications[v].(status := UnderReview)];
      }
      activations := activations + [Activation(p, now, Reviewed(v))];
      return Ok(v);
    }

    method MarkPaymentSuccess(now: Time, p: Id) returns (r: Result<Id, Error>)
      requires p < |payments|
      modifies this
      ensures match MarkSuccess(old(Snapshot()), now, p)
              case Ok(s') => r.Ok? && Snapshot() == s'
              case Err(e) => r == Err(e)
    {
      var kind := payments[p].kind;
      payments := payments[p := payments[p].(status := Success)];
      payments := payments[p := payments[p].(paidAt := Some(now))];
      if kind == SubscriptionPayment {
        r := ActivateFromPayment(now, p);
      } else if kind == JobVerificationPayment {
        r := MarkUnderReviewFromPayment(now, p);
      } else {
        activations := activations + [Activation(p, now, NoEffect)];
        r := Ok(p);
      }
    }

    /** The payment a webhook names: by provider id, else the first candidate that is an internal id. */
    method FindPayment(providerName: string, ev: WebhookEvent) returns (existing: Option<Id>)
      ensures existing == Resolve(payments, providerName, ev)
    {
      existing := GetByProviderId(payments, providerName, LookupText(ev));
      if existing.None? {
        var candidates := [ev.paymentId, ev.providerPaymentId];
        var i := 0;
        while i < |candidates| && existing.None?
          invariant 0 <= i <= 2
          invariant i == 0 ==> existing.None?
          invariant i == 1 ==> existing == ByInternalId(payments, ev.paymentId)
          invariant i == 2 ==> ByInternalId(payments, ev.paymentId).None? && existing == ByInternalId(payments, ev.providerPaymentId)
        {
          existing := ByInternalId(payments, candidates[i]);
          i := i + 1;
        }
      }
    }

    method HandleWebhook(now: Time, providerName: string, ev: WebhookEvent) returns (r: Result<Reply, Error>)
      modifies this
      ensures match Webhook(old(Snapshot()), now, providerName, ev)
              case Committed(s', reply) => r == Ok(reply) && Snapshot() == s'
              case RolledBack(e) => r == Err(e)
    {
      if providerName != provider { return Err(UnknownProvider); }
      var existing := FindPayment(providerName, ev);
      if existing.None? { return Ok(Ignored); }
      var p := existing.value;
      if payments[p].status in {Success, Refunded} { return Ok(Duplicate); }

      var verdict := Classify(ev.status);
      if verdict == Succeeded {
        var done := MarkPaymentSuccess(now, p);
        if done.Err? { return Err(done.error); }
      } else if verdict == FailedVerdict {
        payments := payments[p := payments[p].(status := Failed)];
      }
      return Ok(Processed(p));
    }

    /** The webhook route: commit what the service did, or drop it when the service raised. */
    method PostWebhook(now: Time, providerName: string, ev: WebhookEvent) returns (r: Result<Reply, Error>)
      modifies this
      ensures Snapshot() == Step(old(Snapshot()), now, WebhookReceived(providerName, ev))
      ensures match Webhook(old(Snapshot()), now, providerName, ev)
              case Committed(_, reply) => r == Ok(reply)
              case RolledBack(e) => r == Err(e)
    {
      var saved := Snapshot();
      r := HandleWebhook(now, providerName, ev);
      if r.Err? {
        Rollback(saved);
      }
    }

    method RefundPayment(p: Id, providerAccepts: bool) returns (r: Result<Id, Error>)
      modifies this
      ensures match Refund(old(Snapshot()), p, providerAccepts)
              case Committed(s', _) => r == Ok(p) && Snapshot() == s'
              case RolledBack(e) => r == Err(e) && Snapshot() == old(Snapshot())
    {
      if p >= |payments| { return Err(PaymentNotFound); }
      if payments[p].status != Success { return Err(NotRefundable); }
      if !providerAccepts { return Err(RefundDeclined); }
      payments := payments[p := payments[p].(status := Refunded)];
      return Ok(p);
    }

    /** The worker's sweep of subscriptions past their expiry. */
    method ExpireDueSubscriptions(now: Time)
      modifies this
      ensures Snapshot() == Billing.ExpireSubscriptions(old(Snapshot()), now)
    {
      var i := 0;
      while i < |subs|
        invariant 0 <= i <= |subs| == |old(subs)|
        invariant Snapshot() == old(Snapshot()).(subs := subs)
        invariant forall k :: 0 <= k < i ==> subs[k] == SweptRow(old(subs)[k], now)
        invariant forall k :: i <= k < |subs| ==> subs[k] == old(subs)[k]
      {
        var row := subs[i];
        if row.status == Active && row.expiresAt.Some? && row.expiresAt.value < now {
          subs := subs[i := row.(status := Expired)];
        }
        i := i + 1;
      }
    }

    /** The worker's sweep of verifications past their expiry. */
    method ExpireDueVerifications(now: Time)
      modifies this
      ensures Snapshot() == ExpireVerifications(old(Snapshot()), now)
    {
      var i := 0;
      while i < |verifications|
        invariant 0 <= i <= |verifications| == |old(verifications)|
        invariant Snapshot() == old(Snapshot()).(verifications := verifications)
        invariant forall k :: 0 <= k < i ==> verifications[k] == SweptVerification(old(verifications)[k], now)
        invariant forall k :: i <= k < |verifications| ==> verifications[k] == old(verifications)[k]
      {
        var row := verifications[i];
        if row.status == Verified && row.expiresAt.Some? && row.expiresAt.value < now {
          verifications := verifications[i := row.(status := Lapsed)];
        }
        i := i + 1;
      }
    }

    /** The verifier's decision, which overwrites whatever status the row had. */
    method ReviewVerification(now: Time, allowed: bool, v: Id, approve: bool, validDays: nat) returns (r: Result<Id, Error>)
      modifies this
      ensures match Review(old(Snapshot()), now, allowed, v, approve, validDays)
              case Committed(s', _) => r == Ok(v) && Snapshot() == s'
              case RolledBack(e) => r == Err(e) && Snapshot() == old(Snapshot())
    {
      if !allowed { return Err(Forbidden); }
      if v >= |verifications| { return Err(VerificationNotFound); }
      var row := verifications[v];
      if approve {
        row := row.(status := Verified);
        row := row.(verifiedAt := Some(now));
        row := row.(expiresAt := Some(now + validDays * DAY));
      } else {
        row := row.(status := Rejected);
      }
      verifications := verifications[v := row];
      return Ok(v);
    }

    method CreateCheckout(user: Id, plan: Id, providerId: Option<string>) returns (r: Result<Id, Error>)
      modifies this
      ensures match Checkout(old(Snapshot()), user, plan, providerId)
              case Committed(s', reply) => r.Ok? && reply == Processed(r.value) && Snapshot() == s'
              case RolledBack(e) => r == Err(e) && Snapshot() == old(Snapshot())
    {
      if plan >= |plans| || !plans[plan].isActive { return Err(PlanNotFound); }
      r := InsertPayment(Pend(Snapshot(), user, SubscriptionPayment, providerId, Some(plan), None));
    }

    method InsertPayment(payment: Payment) returns (r: Result<Id, Error>)
      modifies this`payments
      ensures match AddPayment(old(Snapshot()), payment)
              case Committed(s', reply) => r.Ok? && reply == Processed(r.value) && Snapshot() == s'
              case RolledBack(e) => r == Err(e) && Snapshot() == old(Snapshot())
    {
      if exists i: nat :: i < |payments| && payment.providerPaymentId.Some?
                          && payments[i].providerPaymentId == payment.providerPaymentId {
        return Err(DuplicateProviderId);
      }
      payments := payments + [payment];
      return Ok(|payments| - 1);
    }

    method Submit(user: Id, providerId: Option<string>) returns (r: Result<Id, Error>)
      modifies this
      ensures match SubmitVerification(old(Snapshot()), user, providerId)
              case Committed(s', reply) => r.Ok? && reply == Processed(r.value) && Snapshot() == s'
              case RolledBack(e) => r == Err(e) && Snapshot() == old(Snapshot())
    {
      var saved := Snapshot();
      var v := |verifications|;
      verifications := verifications + [JobVerification(user, PendingPayment, Some(|payments|), None, None)];
      r := InsertPayment(Pend(Snapshot(), user, JobVerificationPayment, providerId, None, Some(v)));
      if r.Err? {
        Rollback(saved);
      }
    }
  }
}
