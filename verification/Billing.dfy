/**
  The billing tables and the transitions that requests and worker jobs make on them.

  A table is a sequence of rows and a row's primary key is its index, so an insert appends
  and an id that is not an index names no row.  A request reads the clock once.
 */
module Billing {
  import opened Common

  type Id = nat
  type Time = nat  // microseconds

  const DAY: nat := 86_400_000_000

  datatype SubscriptionStatus = Trial | Active | PastDue | Canceled | Expired
  datatype PaymentStatus = Pending | Success | Failed | Refunded | Cancelled
  datatype PaymentType = SubscriptionPayment | JobVerificationPayment | OtherPayment
  datatype JobStatus = PendingPayment | UnderReview | Verified | Rejected | Lapsed

  datatype Plan = Plan(durationDays: nat, isActive: bool)

  datatype Subscription = Subscription(
    user: Id, plan: Id, status: SubscriptionStatus, startsAt: Time, expiresAt: Option<Time>,
    provider: string, providerSubscriptionId: Option<string>)

  datatype Payment = Payment(
    user: Id, kind: PaymentType, status: PaymentStatus, provider: string,
    providerPaymentId: Option<string>, plan: Option<Id>, verification: Option<Id>, paidAt: Option<Time>)

  datatype JobVerification = JobVerification(
    user: Id, status: JobStatus, payment: Option<Id>, verifiedAt: Option<Time>, expiresAt: Option<Time>)

  /** What the downstream transition of a successful payment did. */
  datatype Effect = Extended(user: Id, units: nat) | Reviewed(verification: Id) | NoEffect

  /** One audit record per run of the success transition ("payment.event" and what followed it). */
  datatype Activation = Activation(payment: Id, at: Time, effect: Effect)

  datatype State = State(
    provider: string,
    plans: seq<Plan>,
    subs: seq<Subscription>,
    payments: seq<Payment>,
    verifications: seq<JobVerification>,
    activations: seq<Activation>)

  datatype Error =
    | UnknownProvider | MetaMissing | PlanNotFound | VerificationNotFound
    | PaymentNotFound | NotRefundable | RefundDeclined | DuplicateProviderId | InvalidPlan | Forbidden

  datatype Reply = Ignored | Duplicate | Processed(payment: Id) | Done

  datatype Outcome = Committed(state: State, reply: Reply) | RolledBack(error: Error)

  ghost predicate Initial(s: State) {
    s.plans == [] && s.subs == [] && s.payments == [] && s.verifications == [] && s.activations == []
  }

  // ---------- subscription queries ----------

  predicate ActiveRow(subs: seq<Subscription>, i: nat, user: Id)
    requires i < |subs|
  {
    subs[i].user == user && subs[i].status == Active
  }

  /** The order of `expires_at DESC`: a row without an expiry comes before every other. */
  predicate NoLater(a: Option<Time>, b: Option<Time>) {
    b.None? || (a.Some? && a.value <= b.value)
  }

  /** The user's ACTIVE row that expires last. */
  function GetActive(subs: seq<Subscription>, user: Id): (r: Option<nat>)
    ensures r.Some? ==> r.value < |subs| && ActiveRow(subs, r.value, user)
    ensures r.Some? ==> forall j: nat :: j < |subs| && ActiveRow(subs, j, user) ==>
                          NoLater(subs[j].expiresAt, subs[r.value].expiresAt)
    ensures r.None? ==> forall j: nat :: j < |subs| ==> !ActiveRow(subs, j, user)
  {
    if subs == [] then None
    else
      var last := |subs| - 1;
      var best := GetActive(subs[..last], user);
      assert forall j: nat :: j < last ==> subs[..last][j] == subs[j] && (ActiveRow(subs[..last], j, user) <==> ActiveRow(subs, j, user));
      if ActiveRow(subs, last, user) && (best.None? || !NoLater(subs[last].expiresAt, subs[best.value].expiresAt))
      then Some(last)
      else best
  }

  predicate IsPremium(subs: seq<Subscription>, user: Id, now: Time) {
    var row := GetActive(subs, user);
    row.Some? && subs[row.value].expiresAt.Some? && subs[row.value].expiresAt.value > now
  }

  // ---------- payments ----------

  predicate Paid(p: Payment) {
    p.status == Success || p.status == Refunded
  }

  function GetByProviderId(payments: seq<Payment>, provider: string, text: string): (r: Option<Id>)
    ensures r.Some? ==> r.value < |payments| && payments[r.value].provider == provider
                        && payments[r.value].providerPaymentId == Some(text)
    ensures r.None? ==> forall i: nat :: i < |payments| ==>
                          payments[i].provider != provider || payments[i].providerPaymentId != Some(text)
  {
    if payments == [] then None
    else
      var last := |payments| - 1;
      var earlier := GetByProviderId(payments[..last], provider, text);
      if earlier.Some? then earlier
      else if payments[last].provider == provider && payments[last].providerPaymentId == Some(text) then Some(last)
      else None
  }

  /** An identifier in a webhook body: its text, and the internal id it parses to, if any. */
  datatype Ref = Ref(text: string, id: Option<Id>)

  datatype WebhookEvent = WebhookEvent(providerPaymentId: Option<Ref>, paymentId: Option<Ref>, status: Option<string>)

  predicate Present(r: Option<Ref>) {
    r.Some? && r.value.text != ""
  }

  function LookupText(ev: WebhookEvent): string {
    if Present(ev.providerPaymentId) then ev.providerPaymentId.value.text
    else if Present(ev.paymentId) then ev.paymentId.value.text
    else ""
  }

  /** The payment an identifier names by internal id. */
  function ByInternalId(payments: seq<Payment>, r: Option<Ref>): (p: Option<Id>)
    ensures p.Some? ==> p.value < |payments|
  {
    if Present(r) && r.value.id.Some? && r.value.id.value < |payments| then r.value.id else None
  }

  /** The payment a webhook is about: by provider id first, then by either identifier as internal id. */
  function Resolve(payments: seq<Payment>, provider: string, ev: WebhookEvent): (p: Option<Id>)
    ensures p.Some? ==> p.value < |payments|
  {
    var byProvider := GetByProviderId(payments, provider, LookupText(ev));
    if byProvider.Some? then byProvider
    else if ByInternalId(payments, ev.paymentId).Some? then ByInternalId(payments, ev.paymentId)
    else ByInternalId(payments, ev.providerPaymentId)
  }

  function UpperChar(c: char): char {
    if 'a' <= c <= 'z' then (c as int - 32) as char else c
  }

  function Upper(s: string): string {
    seq(|s|, i requires 0 <= i < |s| => UpperChar(s[i]))
  }

  datatype Verdict = Succeeded | FailedVerdict | Unrecognised

  function Classify(status: Option<string>): Verdict {
    var text := Upper(if status.Some? then status.value else "SUCCESS");
    if text in {"SUCCESS", "COMPLETED", "PAID"} then Succeeded
    else if text in {"FAILED", "FAILURE", "CANCELLED"} then FailedVerdict
    else Unrecognised
  }

  // ---------- transitions ----------

  function PlanUnits(plan: Plan): nat {
    plan.durationDays * DAY
  }

  /** Renew the user's ACTIVE row in place, carrying unused time over, or insert a fresh row. */
  function Activate(s: State, now: Time, p: Id): (r: Result<State, Error>)
    requires p < |s.payments|
  {
    var payment := s.payments[p];
    if payment.plan.None? then Err(MetaMissing)
    else if payment.plan.value >= |s.plans| then Err(PlanNotFound)
    else
      var units := PlanUnits(s.plans[payment.plan.value]);
      var existing := GetActive(s.subs, payment.user);
      var starts := if existing.Some? && s.subs[existing.value].expiresAt.Some? && s.subs[existing.value].expiresAt.value > now
                    then s.subs[existing.value].expiresAt.value else now;
      var subs := if existing.Some?
                  then s.subs[existing.value := s.subs[existing.value].(
                                startsAt := starts, expiresAt := Some(starts + units), status := Active,
                                provider := payment.provider, providerSubscriptionId := payment.providerPaymentId)]
                  else s.subs + [Subscription(payment.user, payment.plan.value, Active, starts, Some(starts + units),
                                              payment.provider, payment.providerPaymentId)];
      Ok(s.(subs := subs, activations := s.activations + [Activation(p, now, Extended(payment.user, units))]))
  }

  /** Put the verification a payment was made for under review, if it still waits for payment. */
  function ReviewPaid(s: State, now: Time, p: Id): (r: Result<State, Error>)
    requires p < |s.payments|
  {
    var payment := s.payments[p];
    if payment.verification.None? then Err(MetaMissing)
    else if payment.verification.value >= |s.verifications| then Err(VerificationNotFound)
    else
      var v := payment.verification.value;
      var verifications := if s.verifications[v].status == PendingPayment
                           then s.verifications[v := s.verifications[v].(status := UnderReview)]
                           else s.verifications;
      Ok(s.(verifications := verifications, activations := s.activations + [Activation(p, now, Reviewed(v))]))
  }

  function MarkSuccess(s: State, now: Time, p: Id): Result<State, Error>
    requires p < |s.payments|
  {
    var s1 := s.(payments := s.payments[p := s.payments[p].(status := Success, paidAt := Some(now))]);
    match s.payments[p].kind
    case SubscriptionPayment => Activate(s1, now, p)
    case JobVerificationPayment => ReviewPaid(s1, now, p)
    case OtherPayment => Ok(s1.(activations := s1.activations + [Activation(p, now, NoEffect)]))
  }

  function MarkFailed(s: State, p: Id): State
    requires p < |s.payments|
  {
    s.(payments := s.payments[p := s.payments[p].(status := Failed)])
  }

  function Webhook(s: State, now: Time, provider: string, ev: WebhookEvent): Outcome {
    if provider != s.provider then RolledBack(UnknownProvider)
    else
      var found := Resolve(s.payments, provider, ev);
      if found.None? then Committed(s, Ignored)
      else if Paid(s.payments[found.value]) then Committed(s, Duplicate)
      else
        match Classify(ev.status)
        case Succeeded =>
          (match MarkSuccess(s, now, found.value)
           case Ok(s') => Committed(s', Processed(found.value))
           case Err(e) => RolledBack(e))
        case FailedVerdict => Committed(MarkFailed(s, found.value), Processed(found.value))
        case Unrecognised => Committed(s, Processed(found.value))
  }

  function Refund(s: State, p: Id, providerAccepts: bool): Outcome {
    if p >= |s.payments| then RolledBack(PaymentNotFound)
    else if s.payments[p].status != Success then RolledBack(NotRefundable)
    else if !providerAccepts then RolledBack(RefundDeclined)
    else Committed(s.(payments := s.payments[p := s.payments[p].(status := Refunded)]), Done)
  }

  /** Insert a pending payment; the provider's id for it is unique among all payments. */
  function AddPayment(s: State, payment: Payment): Outcome {
    if exists i: nat :: i < |s.payments| && payment.providerPaymentId.Some?
                        && s.payments[i].providerPaymentId == payment.providerPaymentId
    then RolledBack(DuplicateProviderId)
    else Committed(s.(payments := s.payments + [payment]), Processed(|s.payments|))
  }

  function Pend(s: State, user: Id, kind: PaymentType, providerId: Option<string>, plan: Option<Id>, verification: Option<Id>): Payment {
    Payment(user, kind, Pending, s.provider, providerId, plan, verification, None)
  }

  function Checkout(s: State, user: Id, plan: Id, providerId: Option<string>): Outcome {
    if plan >= |s.plans| || !s.plans[plan].isActive then RolledBack(PlanNotFound)
    else AddPayment(s, Pend(s, user, SubscriptionPayment, providerId, Some(plan), None))
  }

  function OtherCheckout(s: State, user: Id, providerId: Option<string>): Outcome {
    AddPayment(s, Pend(s, user, OtherPayment, providerId, None, None))
  }

  function SubmitVerification(s: State, user: Id, providerId: Option<string>): Outcome {
    var v := |s.verifications|;
    AddPayment(s.(verifications := s.verifications + [JobVerification(user, PendingPayment, Some(|s.payments|), None, None)]),
               Pend(s, user, JobVerificationPayment, providerId, None, Some(v)))
  }

  /** The verifier's decision; `allowed` is whether the reviewer's role may review. */
  function Review(s: State, now: Time, allowed: bool, v: Id, approve: bool, validDays: nat): Outcome {
    if !allowed then RolledBack(Forbidden)
    else if v >= |s.verifications| then RolledBack(VerificationNotFound)
    else
      var row := if approve
                 then s.verifications[v].(status := Verified, verifiedAt := Some(now), expiresAt := Some(now + validDays * DAY))
                 else s.verifications[v].(status := Rejected);
      Committed(s.(verifications := s.verifications[v := row]), Done)
  }

  /** The row the sweep leaves behind. */
  function SweptRow(row: Subscription, now: Time): Subscription {
    if row.status == Active && row.expiresAt.Some? && row.expiresAt.value < now then row.(status := Expired) else row
  }

  function ExpireSubscriptions(s: State, now: Time): State {
    s.(subs := seq(|s.subs|, i requires 0 <= i < |s.subs| => SweptRow(s.subs[i], now)))
  }

  function SweptVerification(row: JobVerification, now: Time): JobVerification {
    if row.status == Verified && row.expiresAt.Some? && row.expiresAt.value < now then row.(status := Lapsed) else row
  }

  function ExpireVerifications(s: State, now: Time): State {
    s.(verifications := seq(|s.verifications|, i requires 0 <= i < |s.verifications| => SweptVerification(s.verifications[i], now)))
  }

  /** Admin plan writes: a plan's duration is positive and a plan is never deleted. */
  function PutPlan(s: State, plan: Id, row: Plan): Outcome {
    if row.durationDays == 0 then RolledBack(InvalidPlan)
    else if plan < |s.plans| then Committed(s.(plans := s.plans[plan := row]), Done)
    else if plan == |s.plans| then Committed(s.(plans := s.plans + [row]), Done)
    else RolledBack(PlanNotFound)
  }

  // ---------- runs ----------

  datatype Event =
    | PlanEvent(plan: Id, row: Plan)
    | CheckoutEvent(user: Id, planBought: Id, providerId: Option<string>)
    | OtherCheckoutEvent(user: Id, providerId: Option<string>)
    | SubmitEvent(user: Id, providerId: Option<string>)
    | WebhookReceived(provider: string, body: WebhookEvent)
    | RefundEvent(payment: Id, accepted: bool)
    | ReviewEvent(allowed: bool, verification: Id, approve: bool, validDays: nat)
    | SubscriptionSweep
    | VerificationSweep

  function Handle(s: State, now: Time, e: Event): Outcome {
    match e
    case PlanEvent(plan, row) => PutPlan(s, plan, row)
    case CheckoutEvent(user, plan, id) => Checkout(s, user, plan, id)
    case OtherCheckoutEvent(user, id) => OtherCheckout(s, user, id)
    case SubmitEvent(user, id) => SubmitVerification(s, user, id)
    case WebhookReceived(provider, body) => Webhook(s, now, provider, body)
    case RefundEvent(p, accepted) => Refund(s, p, accepted)
    case ReviewEvent(allowed, v, approve, days) => Review(s, now, allowed, v, approve, days)
    case SubscriptionSweep => Committed(ExpireSubscriptions(s, now), Done)
    case VerificationSweep => Committed(ExpireVerifications(s, now), Done)
  }

  /** One request or job: its commit, or the unchanged tables when it raised. */
  function Step(s: State, now: Time, e: Event): State {
    var o := Handle(s, now, e);
    if o.Committed? then o.state else s
  }

  datatype Timed = Timed(at: Time, event: Event)

  ghost predicate Ordered(run: seq<Timed>) {
    forall i, j :: 0 <= i <= j < |run| ==> run[i].at <= run[j].at
  }

  function Run(s: State, run: seq<Timed>): State {
    if run == [] then s
    else
      var last := |run| - 1;
      Step(Run(s, run[..last]), run[last].at, run[last].event)
  }
}
