/** When a refresh token is accepted, told by the events alone: when it was minted, and what has ended it since. */
module RefreshTokenOutcomes {
  import opened Common
  import opened RefreshTokens
  import opened RefreshTokenTheorems

  const THIRTY_DAYS: nat := 30 * 24 * 60 * 60 * 1_000_000  // microseconds

  // ---------- minting and ending events ----------

  predicate Accepted(records: seq<Record>, now: Time, e: Event) {
    Handle(records, now, e).Ok?
  }

  /** The event is accepted and gives the user a token with this jti: by a login, or in exchange for an older token. */
  predicate MintsNow(records: seq<Record>, now: Time, e: Event, user: Id, jti: nat) {
    Accepted(records, now, e)
    && match e
       case LoginEvent(u, j) => u == user && j == jti
       case RefreshEvent(token, j) => token.Some? && token.value.user == user && j == jti
       case _ => false
  }

  /** The event is accepted and ends the user's token: by exchanging it, logging it out, or ending all the user's tokens. */
  predicate EndsNow(records: seq<Record>, now: Time, e: Event, user: Id, jti: nat) {
    Accepted(records, now, e)
    && match e
       case LoginEvent(_, _) => false
       case RefreshEvent(token, _) => token.Some? && token.value.jti == jti
       case LogoutEvent(token) => token.Some? && token.value.jti == jti
       case RevokeAllEvent(u) => u == user
  }

  predicate Mints(run: seq<Timed>, k: nat, user: Id, jti: nat) {
    k < |run| && MintsNow(Run([], run[..k]), run[k].at, run[k].event, user, jti)
  }

  predicate Ends(run: seq<Timed>, k: nat, user: Id, jti: nat) {
    k < |run| && EndsNow(Run([], run[..k]), run[k].at, run[k].event, user, jti)
  }

  // ---------- what the records say of the events ----------

  /** Unless it mints the jti, a step leaves it without a record. */
  lemma NotMintedYet(records: seq<Record>, now: Time, e: Event, jti: nat)
    requires IndexOf(records, jti).None? && forall user :: !MintsNow(records, now, e, user, jti)
    ensures IndexOf(Step(records, now, e), jti).None?
  {
    match e
    case LoginEvent(user, j) => assert !MintsNow(records, now, e, user, jti);
    case RefreshEvent(token, j) => assert token.Some? ==> !MintsNow(records, now, e, token.value.user, jti);
    case _ =>
  }

  /** The record that a minting event appends. */
  lemma MintAppends(records: seq<Record>, now: Time, e: Event, user: Id, jti: nat)
    requires IndexOf(records, jti).None? && MintsNow(records, now, e, user, jti)
    ensures var after := Step(records, now, e);
            |after| == |records| + 1 && after[|records|] == Record(user, jti, now + THIRTY_DAYS, None, None)
            && IndexOf(after, jti) == Some(|records|)
  {
    var after := Step(records, now, e);
    assert after[|records|].jti == jti;
    forall i | 0 <= i < |records| ensures after[i].jti == records[i].jti != jti {
    }
  }

  lemma StepOnNewJti(records: seq<Record>, now: Time, e: Event, jti: nat)
    requires IndexOf(records, jti).None?
    ensures var after := Step(records, now, e);
            var i := IndexOf(after, jti);
            && (i.Some? <==> exists user :: MintsNow(records, now, e, user, jti))
            && (i.Some? ==>
                  && MintsNow(records, now, e, after[i.value].user, jti) && after[i.value].revokedAt.None?
                  && after[i.value].expiresAt == now + THIRTY_DAYS
                  && forall user :: MintsNow(records, now, e, user, jti) ==> user == after[i.value].user)
  {
    if user :| MintsNow(records, now, e, user, jti) {
      MintAppends(records, now, e, user, jti);
    } else {
      NotMintedYet(records, now, e, jti);
    }
  }

  lemma StepOnOldJti(records: seq<Record>, now: Time, e: Event, jti: nat)
    requires Inv(records) && IndexOf(records, jti).Some?
    ensures var i := IndexOf(records, jti).value;
            var after := Step(records, now, e);
            && IndexOf(after, jti) == Some(i) && |records| <= |after|
            && after[i].user == records[i].user && after[i].expiresAt == records[i].expiresAt
            && (after[i].revokedAt.None? <==> records[i].revokedAt.None? && !EndsNow(records, now, e, records[i].user, jti))
            && forall user :: !MintsNow(records, now, e, user, jti)
  {
    IndexKept(records, now, e, jti);
  }

  lemma RunNext(run: seq<Timed>, k: nat)
    requires k < |run|
    ensures Run([], run[..k + 1]) == Step(Run([], run[..k]), run[k].at, run[k].event)
  {
    assert run[..k + 1][..k] == run[..k];
  }

  ghost predicate NeverMinted(run: seq<Timed>, n: nat, jti: nat) {
    forall k: nat, user: Id :: k < n ==> !Mints(run, k, user, jti)
  }

  ghost predicate MintedOnce(run: seq<Timed>, n: nat, jti: nat, m: nat) {
    m < n && forall k: nat, user: Id :: k < n && Mints(run, k, user, jti) ==> k == m
  }

  ghost predicate EndedAfter(run: seq<Timed>, n: nat, user: Id, jti: nat, m: nat) {
    exists k: nat :: m < k < n && Ends(run, k, user, jti)
  }

  /** A jti has a record exactly if some event minted it. */
  lemma {:induction false} NoRecordNeverMinted(run: seq<Timed>, n: nat, jti: nat)
    requires n <= |run| && IndexOf(Run([], run[..n]), jti).None?
    ensures NeverMinted(run, n, jti)
  {
    if n > 0 {
      var k := n - 1;
      var before := Run([], run[..k]);
      RunNext(run, k);
      RunKeepsInv([], run[..k]);
      NoRecordBefore(before, run[k].at, run[k].event, jti);
      StepOnNewJti(before, run[k].at, run[k].event, jti);
      NoRecordNeverMinted(run, k, jti);
      forall user ensures !Mints(run, k, user, jti) {
        assert !MintsNow(before, run[k].at, run[k].event, user, jti);
      }
    }
  }

  lemma NoRecordBefore(records: seq<Record>, now: Time, e: Event, jti: nat)
    requires Inv(records) && IndexOf(Step(records, now, e), jti).None?
    ensures IndexOf(records, jti).None?
  {
    if IndexOf(records, jti).Some? {
      IndexKept(records, now, e, jti);
    }
  }

  /**
    A record names the one event that minted its jti, and for whom; it expires thirty days after, and is revoked
    exactly if some later event ended the token.
   */
  lemma {:induction false} RecordTells(run: seq<Timed>, n: nat, jti: nat) returns (m: nat)
    requires n <= |run| && IndexOf(Run([], run[..n]), jti).Some?
    ensures var r := Run([], run[..n])[IndexOf(Run([], run[..n]), jti).value];
            && MintedOnce(run, n, jti, m) && Mints(run, m, r.user, jti)
            && (forall user :: Mints(run, m, user, jti) ==> user == r.user)
            && r.expiresAt == run[m].at + THIRTY_DAYS
            && (r.revokedAt.Some? <==> EndedAfter(run, n, r.user, jti, m))
  {
    var last := n - 1;
    var before := Run([], run[..last]);
    RunNext(run, last);
    RunKeepsInv([], run[..last]);
    if IndexOf(before, jti).None? {
      StepOnNewJti(before, run[last].at, run[last].event, jti);
      NoRecordNeverMinted(run, last, jti);
      m := last;
    } else {
      m := RecordTells(run, last, jti);
      StepOnOldJti(before, run[last].at, run[last].event, jti);
      EndedOneMore(run, last, before[IndexOf(before, jti).value].user, jti, m);
    }
  }

  lemma EndedOneMore(run: seq<Timed>, n: nat, user: Id, jti: nat, m: nat)
    requires m < n
    ensures EndedAfter(run, n + 1, user, jti, m) <==> EndedAfter(run, n, user, jti, m) || Ends(run, n, user, jti)
  {
    if k: nat :| m < k < n && Ends(run, k, user, jti) {
      assert m < k < n + 1 && Ends(run, k, user, jti);
    }
    if Ends(run, n, user, jti) {
      assert m < n < n + 1 && Ends(run, n, user, jti);
    }
  }

  // ---------- when a refresh is accepted ----------

  /** The user was given the token by event `m`, no more than thirty days ago, and nothing has ended it since. */
  ghost predicate GoodSince(run: seq<Timed>, token: Claims, now: Time, m: nat) {
    && Mints(run, m, token.user, token.jti) && now <= run[m].at + THIRTY_DAYS
    && !EndedAfter(run, |run|, token.user, token.jti, m)
  }

  /**
    After every run a refresh, its new jti never minted before, is accepted exactly when the token was minted for the
    user who presents it, no more than thirty days ago, and was not exchanged, logged out or revoked with all of the
    user's since; otherwise it is refused as revoked.
   */
  lemma RefreshAcceptedExactly(run: seq<Timed>, token: Claims, newJti: nat, now: Time)
    requires forall k: nat, user: Id :: !Mints(run, k, user, newJti)
    ensures var r := Handle(Run([], run), now, RefreshEvent(Some(token), newJti));
            && (r.Ok? <==> exists m: nat :: GoodSince(run, token, now, m))
            && (r.Err? ==> r.error == TokenRevoked)
  {
    assert run[..|run|] == run;
    var records := Run([], run);
    if IndexOf(records, newJti).Some? {
      var m := RecordTells(run, |run|, newJti);
      assert false;
    }
    var i := IndexOf(records, token.jti);
    if i.None? {
      NoRecordNeverMinted(run, |run|, token.jti);
    } else {
      var m := RecordTells(run, |run|, token.jti);
      if Redeemable(records, token, now) {
        assert GoodSince(run, token, now, m);
      }
      if k: nat :| GoodSince(run, token, now, k) {
        assert k == m;
      }
    }
  }

  /** A token is refused once thirty days have passed since it was minted, whatever happened and whatever else it claims. */
  lemma ExpiredForGood(run: seq<Timed>, m: nat, user: Id, token: Claims, newJti: nat, now: Time)
    requires Mints(run, m, user, token.jti) && now > run[m].at + THIRTY_DAYS
    ensures Handle(Run([], run), now, RefreshEvent(Some(token), newJti)) == Err(TokenRevoked)
  {
    assert run[..|run|] == run;
    if IndexOf(Run([], run), token.jti).Some? {
      var k := RecordTells(run, |run|, token.jti);
    }
  }

  /** A token that an event has ended is refused in every continuation, whoever presents it. */
  lemma EndedForGood(run: seq<Timed>, m: nat, k: nat, user: Id, token: Claims, newJti: nat, now: Time)
    requires Mints(run, m, user, token.jti) && m < k && Ends(run, k, user, token.jti)
    ensures Handle(Run([], run), now, RefreshEvent(Some(token), newJti)) == Err(TokenRevoked)
  {
    assert run[..|run|] == run;
    if IndexOf(Run([], run), token.jti).Some? {
      var j := RecordTells(run, |run|, token.jti);
    }
  }

  /** In particular a token logged out after it was minted. */
  lemma LoggedOutForGood(run: seq<Timed>, m: nat, k: nat, user: Id, token: Claims, newJti: nat, now: Time)
    requires Mints(run, m, user, token.jti) && m < k < |run|
    requires run[k].event.LogoutEvent? && run[k].event.token.Some? && run[k].event.token.value.jti == token.jti
    ensures Handle(Run([], run), now, RefreshEvent(Some(token), newJti)) == Err(TokenRevoked)
  {
    EndedForGood(run, m, k, user, token, newJti, now);
  }

  /** A token that does not decode is refused as such, for a refresh and for a logout. */
  lemma UndecodedIsRefused(records: seq<Record>, newJti: nat, now: Time)
    ensures Handle(records, now, RefreshEvent(None, newJti)) == Err(InvalidToken)
    ensures Handle(records, now, LogoutEvent(None)) == Err(InvalidToken)
  {
  }

  /** Ending all of a user's tokens ends every one of them, keeps what was revoked before, and spares everyone else's. */
  lemma RevokeAllOutcome(records: seq<Record>, user: Id, now: Time)
    ensures var r := Handle(records, now, RevokeAllEvent(user));
            && r.Ok? && |r.value| == |records|
            && forall i :: 0 <= i < |records| ==>
                 && (records[i].user != user || records[i].revokedAt.Some? ==> r.value[i] == records[i])
                 && (records[i].user == user ==> r.value[i] == records[i].(revokedAt := r.value[i].revokedAt) && r.value[i].revokedAt.Some?)
                 && (r.value[i] != records[i] ==> r.value[i].revokedAt == Some(now))
  {
  }
}
