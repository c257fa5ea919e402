/** What every run of logins, refreshes, logouts and revocations keeps about the chains of tokens. */
module RefreshTokenTheorems {
  import opened Common
  import opened RefreshTokens

  /** Record `k` was minted to replace record `i`. */
  predicate Replaces(records: seq<Record>, k: nat, i: nat)
    requires i < |records| && k < |records|
  {
    records[i].replacedBy == Some(records[k].jti)
  }

  ghost predicate JtisUnique(records: seq<Record>) {
    forall i, j :: 0 <= i < j < |records| ==> records[i].jti != records[j].jti
  }

  ghost predicate ReplacedOk(records: seq<Record>, i: nat)
    requires i < |records|
  {
    records[i].replacedBy.Some? ==>
      records[i].revokedAt.Some?
      && exists k: nat :: i < k < |records| && Replaces(records, k, i) && records[k].user == records[i].user
  }

  ghost predicate Inv(records: seq<Record>) {
    && JtisUnique(records)
    && (forall i: nat :: i < |records| ==> ReplacedOk(records, i))
    && (forall i: nat, j: nat :: i < j < |records| && records[i].replacedBy.Some? ==> records[i].replacedBy != records[j].replacedBy)
  }

  /** A write that revokes some records and touches nothing else. */
  ghost predicate OnlyRevokes(before: seq<Record>, after: seq<Record>) {
    && |after| == |before|
    && forall i :: 0 <= i < |before| ==>
         after[i] == before[i] || (before[i].revokedAt.None? && after[i].revokedAt.Some? && after[i] == before[i].(revokedAt := after[i].revokedAt))
  }

  lemma RevokingKeepsInv(before: seq<Record>, after: seq<Record>)
    requires Inv(before) && OnlyRevokes(before, after)
    ensures Inv(after)
  {
    forall i: nat | i < |after|
      ensures ReplacedOk(after, i)
    {
      assert ReplacedOk(before, i);
      if after[i].replacedBy.Some? {
        var k: nat :| i < k < |before| && Replaces(before, k, i) && before[k].user == before[i].user;
        assert Replaces(after, k, i);
      }
    }
  }

  lemma MintKeepsInv(records: seq<Record>, user: Id, jti: nat, now: Time)
    requires Inv(records)
    ensures Mint(records, user, jti, now).Ok? ==> Inv(Mint(records, user, jti, now).value)
  {
    if Mint(records, user, jti, now).Ok? {
      var after := Mint(records, user, jti, now).value;
      forall i: nat | i < |after|
        ensures ReplacedOk(after, i)
      {
        if i < |records| && records[i].replacedBy.Some? {
          assert ReplacedOk(records, i);
          var k: nat :| i < k < |records| && Replaces(records, k, i) && records[k].user == records[i].user;
          assert Replaces(after, k, i);
        }
      }
    }
  }

  lemma RefreshKeepsInv(records: seq<Record>, token: Option<Claims>, newJti: nat, now: Time)
    requires Inv(records)
    ensures Refresh(records, token, newJti, now).Ok? ==> Inv(Refresh(records, token, newJti, now).value)
  {
    var r := Refresh(records, token, newJti, now);
    if r.Ok? {
      var after := r.value;
      var n := |records|;
      var at := GetActive(records, token.value.jti).value;
      assert Replaces(after, n, at);
      forall i: nat | i < |records| && i != at && records[i].replacedBy.Some?
        ensures ReplacedOk(after, i) && records[i].replacedBy != Some(newJti)
      {
        assert ReplacedOk(records, i);
        var k: nat :| i < k < |records| && Replaces(records, k, i) && records[k].user == records[i].user;
        assert Replaces(after, k, i);
      }
      assert ReplacedOk(records, at);
    }
  }

  lemma StepKeepsInv(records: seq<Record>, now: Time, e: Event)
    requires Inv(records)
    ensures Inv(Step(records, now, e))
  {
    match e
    case LoginEvent(user, jti) => MintKeepsInv(records, user, jti, now);
    case RefreshEvent(token, newJti) => RefreshKeepsInv(records, token, newJti, now);
    case LogoutEvent(token) => RevokingKeepsInv(records, Step(records, now, e));
    case RevokeAllEvent(user) => RevokingKeepsInv(records, Step(records, now, e));
  }

  lemma {:induction false} RunKeepsInv(records: seq<Record>, run: seq<Timed>)
    requires Inv(records)
    ensures Inv(Run(records, run))
  {
    if run != [] {
      var last := |run| - 1;
      RunKeepsInv(records, run[..last]);
      StepKeepsInv(Run(records, run[..last]), run[last].at, run[last].event);
    }
  }

  // ---------- the forest ----------

  /** The record that `k` was minted to replace, if any. */
  function Predecessor(records: seq<Record>, k: nat, n: nat): (r: Option<nat>)
    requires k < |records| && n <= |records|
    ensures r.Some? ==> r.value < n && Replaces(records, k, r.value)
    ensures r.None? ==> forall i: nat :: i < n ==> !Replaces(records, k, i)
  {
    if n == 0 then None
    else if Replaces(records, k, n - 1) then Some(n - 1)
    else Predecessor(records, k, n - 1)
  }

  /** The first record of the chain: the one a login minted. */
  function Root(records: seq<Record>, k: nat): nat
    requires k < |records|
    decreases k
  {
    var p := Predecessor(records, k, k);
    if p.None? then k else Root(records, p.value)
  }

  /** `j` is reached from `i` by following `replaced_by_jti`. */
  ghost predicate Reaches(records: seq<Record>, i: nat, j: nat)
    requires i < |records| && j < |records|
    decreases j
  {
    i == j || exists p: nat :: p < j && Replaces(records, j, p) && Reaches(records, i, p)
  }

  lemma {:induction false} ReachesForward(records: seq<Record>, i: nat, j: nat)
    requires Inv(records) && i < |records| && j < |records| && Reaches(records, i, j)
    ensures i <= j && records[i].user == records[j].user
    ensures i < j ==> exists k: nat :: i < k <= j && Replaces(records, k, i) && Reaches(records, k, j)
    decreases j
  {
    if i != j {
      var p: nat :| p < j && Replaces(records, j, p) && Reaches(records, i, p);
      ReachesForward(records, i, p);
      assert ReplacedOk(records, p);
      if i == p {
        assert Replaces(records, j, i) && Reaches(records, j, j);
      } else {
        var k: nat :| i < k <= p && Replaces(records, k, i) && Reaches(records, k, p);
        assert Reaches(records, k, j);
      }
    }
  }

  /** Two records of one chain are on one line: the earlier leads to the later. */
  lemma {:induction false} ChainIsLine(records: seq<Record>, i: nat, j: nat)
    requires Inv(records) && i <= j < |records| && Root(records, i) == Root(records, j)
    ensures Reaches(records, i, j)
    decreases j, i
  {
    if i < j {
      RootBelow(records, i);
      var p := Predecessor(records, j, j).value;
      if i <= p {
        ChainIsLine(records, i, p);
      } else {
        ChainIsLine(records, p, i);
        ReachesForward(records, p, i);
        assert false;
      }
    }
  }

  lemma {:induction false} RootBelow(records: seq<Record>, k: nat)
    requires k < |records|
    ensures Root(records, k) <= k && Reaches(records, Root(records, k), k)
    decreases k
  {
    var p := Predecessor(records, k, k);
    if p.Some? {
      RootBelow(records, p.value);
    }
  }

  lemma ReplacedForward(records: seq<Record>, i: nat, j: nat)
    requires Inv(records) && i < |records| && j < |records| && Replaces(records, j, i)
    ensures i < j && records[i].user == records[j].user && records[i].revokedAt.Some?
  {
    assert ReplacedOk(records, i);
    var k: nat :| i < k < |records| && Replaces(records, k, i) && records[k].user == records[i].user;
    assert k == j;
  }

  lemma ChainRevokesEarlier(records: seq<Record>, i: nat, j: nat)
    requires Inv(records) && i < j < |records| && Root(records, i) == Root(records, j)
    ensures records[i].revokedAt.Some? && records[i].user == records[j].user
  {
    ChainIsLine(records, i, j);
    ReachesForward(records, i, j);
    var k: nat :| i < k <= j && Replaces(records, k, i);
    ReplacedForward(records, i, k);
  }

  /**
    The records form a forest of one-use chains: following `replaced_by_jti` goes forward to one record of the
    same user, no two records are replaced by the same one, and a chain has at most one unrevoked record,
    after which it has no other.
   */
  lemma ChainsAreOneUse(run: seq<Timed>, i: nat, j: nat)
    requires i < j < |Run([], run)|
    ensures var rs := Run([], run);
            && (rs[i].replacedBy.Some? ==> rs[i].replacedBy != rs[j].replacedBy)
            && (Replaces(rs, j, i) ==> rs[i].user == rs[j].user)
            && !Replaces(rs, i, j)
            && (Root(rs, i) == Root(rs, j) ==> rs[i].revokedAt.Some? && rs[i].user == rs[j].user)
  {
    var rs := Run([], run);
    RunKeepsInv([], run);
    if Replaces(rs, j, i) {
      ReplacedForward(rs, i, j);
    }
    if Replaces(rs, i, j) {
      ReplacedForward(rs, j, i);
    }
    if Root(rs, i) == Root(rs, j) {
      ChainRevokesEarlier(rs, i, j);
    }
  }

  /** A chain starts where a login minted a record: the number of chains is the number of committed logins. */
  function Roots(records: seq<Record>, n: nat): nat
    requires n <= |records|
  {
    if n == 0 then 0 else Roots(records, n - 1) + (if Predecessor(records, n - 1, n - 1).None? then 1 else 0)
  }

  function Logins(run: seq<Timed>): nat {
    if run == [] then 0
    else
      var last := |run| - 1;
      Logins(run[..last])
      + (if run[last].event.LoginEvent? && Handle(Run([], run[..last]), run[last].at, run[last].event).Ok? then 1 else 0)
  }

  lemma {:induction false} RootsSame(before: seq<Record>, after: seq<Record>, n: nat)
    requires n <= |before| <= |after|
    requires forall i :: 0 <= i < |before| ==> after[i].jti == before[i].jti
    requires forall i: nat, k: nat :: i < k < n ==> (Replaces(after, k, i) <==> Replaces(before, k, i))
    ensures Roots(after, n) == Roots(before, n)
  {
    if n > 0 {
      RootsSame(before, after, n - 1);
      var p, q := Predecessor(before, n - 1, n - 1), Predecessor(after, n - 1, n - 1);
      assert p.Some? ==> Replaces(after, n - 1, p.value);
      assert q.Some? ==> Replaces(before, n - 1, q.value);
    }
  }

  lemma StepRoots(records: seq<Record>, now: Time, e: Event)
    requires Inv(records)
    ensures var after := Step(records, now, e);
            Roots(after, |after|) == Roots(records, |records|) + (if e.LoginEvent? && Handle(records, now, e).Ok? then 1 else 0)
  {
    var after := Step(records, now, e);
    var n := |records|;
    forall i: nat, k: nat | i < k < n
      ensures Replaces(after, k, i) <==> Replaces(records, k, i)
    {
      assert ReplacedOk(records, i);
    }
    RootsSame(records, after, n);
    if |after| > n {
      forall i: nat | i < n && after[i].replacedBy == records[i].replacedBy
        ensures !Replaces(after, n, i)
      {
        assert ReplacedOk(records, i);
      }
      if e.RefreshEvent? {
        assert Replaces(after, n, GetActive(records, e.token.value.jti).value);
      }
    }
  }

  lemma {:induction false} OneChainPerLogin(run: seq<Timed>)
    ensures var rs := Run([], run);
            Roots(rs, |rs|) == Logins(run)
  {
    if run != [] {
      var last := |run| - 1;
      OneChainPerLogin(run[..last]);
      RunKeepsInv([], run[..last]);
      StepRoots(Run([], run[..last]), run[last].at, run[last].event);
    }
  }

  // ---------- redemption ----------

  /** How often a token was redeemed. */
  function Redemptions(run: seq<Timed>, jti: nat): nat {
    if run == [] then 0
    else
      var last := |run| - 1;
      Redemptions(run[..last], jti) + (if Redeems(Run([], run[..last]), run[last].at, run[last].event, jti) then 1 else 0)
  }

  predicate WasReplaced(records: seq<Record>, jti: nat) {
    var i := IndexOf(records, jti);
    i.Some? && records[i.value].replacedBy.Some?
  }

  lemma IndexKept(records: seq<Record>, now: Time, e: Event, jti: nat)
    requires Inv(records)
    ensures var after := Step(records, now, e);
            && (IndexOf(records, jti).Some? ==> IndexOf(after, jti) == IndexOf(records, jti))
            && |records| <= |after|
            && (forall i :: 0 <= i < |records| ==> after[i].jti == records[i].jti && after[i].user == records[i].user
                                                   && (records[i].revokedAt.Some? ==> after[i].revokedAt.Some?))
  {
    StepKeepsInv(records, now, e);
    var after := Step(records, now, e);
    var i := IndexOf(records, jti);
    assert i.Some? ==> after[i.value].jti == jti;
  }

  predicate Redeems(records: seq<Record>, now: Time, e: Event, jti: nat) {
    e.RefreshEvent? && e.token.Some? && e.token.value.jti == jti && Handle(records, now, e).Ok?
  }

  /** The only write of `replaced_by_jti` is a redemption's, on the record it redeems. */
  lemma StepOnReplaced(records: seq<Record>, now: Time, e: Event, i: nat)
    requires i < |Step(records, now, e)|
    ensures Step(records, now, e)[i].replacedBy ==
            if i >= |records| then None
            else if e.RefreshEvent? && Handle(records, now, e).Ok? && GetActive(records, e.token.value.jti) == Some(i) then Some(e.newJti)
            else records[i].replacedBy
  {
  }

  /** A redemption marks its record as replaced, which it was not, and nothing else does. */
  lemma StepRedeems(records: seq<Record>, now: Time, e: Event, jti: nat)
    requires Inv(records)
    ensures WasReplaced(Step(records, now, e), jti) <==> WasReplaced(records, jti) || Redeems(records, now, e, jti)
    ensures !(WasReplaced(records, jti) && Redeems(records, now, e, jti))
  {
    IndexKept(records, now, e, jti);
    var i, after := IndexOf(records, jti), IndexOf(Step(records, now, e), jti);
    if i.Some? {
      assert ReplacedOk(records, i.value);
    } else if after.Some? {
      assert after.value >= |records|;
    }
    if after.Some? {
      StepOnReplaced(records, now, e, after.value);
    }
  }

  /** Over any run a token is redeemed at most once, and exactly once when its record names a successor. */
  lemma {:induction false} RedeemedAtMostOnce(run: seq<Timed>, jti: nat)
    ensures Redemptions(run, jti) == if WasReplaced(Run([], run), jti) then 1 else 0
  {
    if run != [] {
      var last := |run| - 1;
      RedeemedAtMostOnce(run[..last], jti);
      RunKeepsInv([], run[..last]);
      StepRedeems(Run([], run[..last]), run[last].at, run[last].event, jti);
    }
  }

  // ---------- revocation ----------

  /** How many tokens of a user are still unrevoked. */
  function Live(records: seq<Record>, user: Id): nat {
    if records == [] then 0
    else
      var r := records[|records| - 1];
      Live(records[..|records| - 1], user) + (if r.user == user && r.revokedAt.None? then 1 else 0)
  }

  lemma {:induction false} LiveAfterRevoke(records: seq<Record>, i: nat, row: Record, user: Id)
    requires i < |records| && row.user == records[i].user && row.revokedAt.Some? && records[i].revokedAt.None?
    ensures Live(records[i := row], user) == Live(records, user) - (if row.user == user then 1 else 0)
  {
    var last := |records| - 1;
    if i == last {
      assert records[i := row][..last] == records[..last];
    } else {
      LiveAfterRevoke(records[..last], i, row, user);
      assert records[i := row][..last] == records[..last][i := row];
    }
  }

  /** A refresh leaves every user with as many live tokens as before. */
  lemma RefreshKeepsLive(records: seq<Record>, token: Option<Claims>, newJti: nat, now: Time, user: Id)
    ensures Refresh(records, token, newJti, now).Ok? ==> Live(Refresh(records, token, newJti, now).value, user) == Live(records, user)
  {
    if Refresh(records, token, newJti, now).Ok? {
      var minted := Mint(records, token.value.user, newJti, now).value;
      var i := GetActive(records, token.value.jti).value;
      assert minted[..|records|] == records;
      LiveAfterRevoke(minted, i, minted[i].(revokedAt := Some(now), replacedBy := Some(newJti)), user);
    }
  }

  lemma {:induction false} RevokeAllLeavesNone(records: seq<Record>, user: Id, now: Time)
    ensures Live(RevokeAll(records, user, now), user) == 0
  {
    if records != [] {
      var last := |records| - 1;
      RevokeAllLeavesNone(records[..last], user, now);
      assert RevokeAll(records, user, now)[..last] == RevokeAll(records[..last], user, now);
    }
  }

  lemma {:induction false} RevokedForGood(records: seq<Record>, run: seq<Timed>, i: nat)
    requires Inv(records) && i < |records| && records[i].revokedAt.Some?
    ensures var rs := Run(records, run);
            i < |rs| && rs[i].revokedAt.Some? && rs[i].jti == records[i].jti
  {
    if run != [] {
      var last := |run| - 1;
      RevokedForGood(records, run[..last], i);
      RunKeepsInv(records, run[..last]);
      IndexKept(Run(records, run[..last]), run[last].at, run[last].event, records[i].jti);
    }
  }

  /** After all of a user's tokens are revoked, every token minted for the user before is refused in every continuation. */
  lemma RevokeAllRefusesForever(before: seq<Timed>, user: Id, now: Time, rest: seq<Timed>, i: nat, token: Claims, newJti: nat, later: Time)
    requires i < |Run([], before)| && Run([], before)[i].user == user && token.jti == Run([], before)[i].jti
    ensures Refresh(Run(RevokeAll(Run([], before), user, now), rest), Some(token), newJti, later) == Err(TokenRevoked)
  {
    var records := Run([], before);
    RunKeepsInv([], before);
    var revoked := RevokeAll(records, user, now);
    RevokingKeepsInv(records, revoked);
    RevokedForGood(revoked, rest, i);
    RunKeepsInv(revoked, rest);
    var rs := Run(revoked, rest);
    var k := IndexOf(rs, token.jti);
    assert k == Some(i);
  }
}
