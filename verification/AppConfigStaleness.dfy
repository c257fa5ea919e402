/**
  How old a served configuration can be, under every interleaving of public requests and changes and with Redis
  failing at will.
 */
module AppConfigStaleness {
  import opened Common
  import opened AppConfig

  /** No event from `i` up to, not including, `j` is a cache write by the request. */
  ghost predicate NotWritten(run: seq<Event>, req: nat, i: nat, j: nat) {
    i <= j <= |run| && forall k :: i <= k < j && run[k].action.Put? ==> run[k].action.req != req
  }

  /** In the run, event `i` is a query of the table by a request whose next cache write is event `j`. */
  ghost predicate ReadAndWritten(run: seq<Event>, i: nat, j: nat) {
    i < j < |run| && run[j].action.Put? && run[i].action == List(run[j].action.req) && NotWritten(run, run[j].action.req, i, j)
  }

  function StateAt(table: seq<Row>, run: seq<Event>, i: nat): State
    requires i <= |run|
  {
    Run(Start(table), run[..i])
  }

  lemma StateAtPrefix(table: seq<Row>, run: seq<Event>, n: nat, i: nat)
    requires i <= n <= |run|
    ensures StateAt(table, run[..n], i) == StateAt(table, run, i)
  {
    assert run[..n][..i] == run[..i];
  }

  lemma RunNext(s: State, run: seq<Event>, i: nat)
    requires i < |run|
    ensures Run(s, run[..i + 1]) == Step(Run(s, run[..i]), run[i])
  {
    assert run[..i + 1][..i] == run[..i];
  }

  /** What a fresh read before event `i` of the run gives. */
  function PayloadAt(table: seq<Row>, run: seq<Event>, i: nat): Payload
    requires i <= |run|
  {
    Current(StateAt(table, run, i).table)
  }

  ghost predicate Queries(s: State, e: Event) {
    e.action.List? && e.action.req in s.phases && s.phases[e.action.req].Missed?
  }

  ghost predicate Caches(s: State, e: Event) {
    e.action.Put? && e.action.up && e.action.req in s.phases && s.phases[e.action.req].Listed?
  }

  /** The rows a request holds, if it holds any. */
  function Held(s: State, req: nat): Option<seq<Row>> {
    if req in s.phases && s.phases[req].Listed? then Some(s.phases[req].list) else None
  }

  /** Only a request that holds rows puts anything into the cache. */
  lemma StepOnCache(s: State, e: Event)
    ensures Step(s, e).cache ==
            if Caches(s, e) then Some(Entry(PayloadOf(Held(s, e.action.req).value), e.at + TTL))
            else if e.action == Invalidate(true) then None
            else s.cache
  {
  }

  lemma StepOnHeld(s: State, e: Event, req: nat)
    ensures Held(Step(s, e), req) ==
            if Queries(s, e) && e.action.req == req then Some(Listing(s.table))
            else if e.action.Put? && e.action.req == req then None
            else Held(s, req)
  {
  }

  /** The rows a request holds were listed by that request's own query. */
  lemma {:induction false} HeldRowsWereListed(table: seq<Row>, run: seq<Event>, req: nat) returns (i: nat)
    requires Held(StateAt(table, run, |run|), req).Some?
    ensures i < |run| && run[i].action == List(req) && Queries(StateAt(table, run, i), run[i]) && NotWritten(run, req, i, |run|)
    ensures Held(StateAt(table, run, |run|), req).value == Listing(StateAt(table, run, i).table)
  {
    assert run[..|run|] == run;
    var last := |run| - 1;
    StepOnHeld(StateAt(table, run, last), run[last], req);
    if Queries(StateAt(table, run, last), run[last]) && run[last].action.req == req {
      i := last;
    } else {
      StateAtPrefix(table, run, last, last);
      i := HeldRowsWereListed(table, run[..last], req);
      StateAtPrefix(table, run, last, i);
    }
  }

  lemma JustListed(table: seq<Row>, run: seq<Event>, i: nat)
    requires i < |run| && Queries(StateAt(table, run, i), run[i])
    ensures Held(StateAt(table, run, i + 1), run[i].action.req) == Some(Listing(StateAt(table, run, i).table))
  {
    RunNext(Start(table), run, i);
    StepOnHeld(StateAt(table, run, i), run[i], run[i].action.req);
  }

  lemma HeldStays(table: seq<Row>, run: seq<Event>, req: nat, n: nat)
    requires n < |run| && Held(StateAt(table, run, n), req).Some?
    requires run[n].action.Put? ==> run[n].action.req != req
    ensures Held(StateAt(table, run, n + 1), req) == Held(StateAt(table, run, n), req)
  {
    RunNext(Start(table), run, n);
    StepOnHeld(StateAt(table, run, n), run[n], req);
  }

  /** A request holds what it listed until it writes. */
  lemma {:induction false} ListedRowsAreHeld(table: seq<Row>, run: seq<Event>, i: nat, n: nat)
    requires i < n <= |run| && Queries(StateAt(table, run, i), run[i]) && NotWritten(run, run[i].action.req, i, n)
    ensures Held(StateAt(table, run, n), run[i].action.req) == Some(Listing(StateAt(table, run, i).table))
  {
    if n == i + 1 {
      JustListed(table, run, i);
    } else {
      ListedRowsAreHeld(table, run, i, n - 1);
      HeldStays(table, run, run[i].action.req, n - 1);
    }
  }

  /**
    The copy in the cache at the end of the run is the one that the request that queried at event `i` wrote at event
    `j`: nothing dropped or replaced it since.
   */
  ghost predicate Kept(table: seq<Row>, run: seq<Event>, i: nat, j: nat) {
    && ReadAndWritten(run, i, j) && Queries(StateAt(table, run, i), run[i]) && run[j].action.up
    && forall m: nat :: j < m < |run| ==> Keeps(table, run, m)
  }

  ghost predicate Keeps(table: seq<Row>, run: seq<Event>, m: nat)
    requires m < |run|
  {
    run[m].action != Invalidate(true) && !Caches(StateAt(table, run, m), run[m])
  }

  function EntryAt(table: seq<Row>, run: seq<Event>, i: nat, j: nat): Entry
    requires i < |run| && j < |run|
  {
    Entry(PayloadAt(table, run, i), run[j].at + TTL)
  }

  lemma WrittenIsCached(table: seq<Row>, run: seq<Event>, i: nat, j: nat)
    requires Kept(table, run, i, j)
    ensures StateAt(table, run, j + 1).cache == Some(EntryAt(table, run, i, j))
  {
    ListedRowsAreHeld(table, run, i, j);
    RunNext(Start(table), run, j);
    StepOnCache(StateAt(table, run, j), run[j]);
  }

  lemma CacheStays(table: seq<Row>, run: seq<Event>, m: nat)
    requires m < |run| && Keeps(table, run, m)
    ensures StateAt(table, run, m + 1).cache == StateAt(table, run, m).cache
  {
    RunNext(Start(table), run, m);
    StepOnCache(StateAt(table, run, m), run[m]);
  }

  lemma {:induction false} CacheStaysTo(table: seq<Row>, run: seq<Event>, j: nat, n: nat)
    requires j < n <= |run| && forall m: nat :: j < m < n ==> Keeps(table, run, m)
    ensures StateAt(table, run, n).cache == StateAt(table, run, j + 1).cache
  {
    if j + 1 < n {
      CacheStaysTo(table, run, j, n - 1);
      CacheStays(table, run, n - 1);
    }
  }

  lemma KeptIsCached(table: seq<Row>, run: seq<Event>, i: nat, j: nat)
    requires Kept(table, run, i, j)
    ensures StateAt(table, run, |run|).cache == Some(EntryAt(table, run, i, j))
  {
    WrittenIsCached(table, run, i, j);
    CacheStaysTo(table, run, j, |run|);
  }

  lemma WrittenNext(run: seq<Event>, req: nat, i: nat)
    requires i < |run| - 1 && run[i].action == List(req) && NotWritten(run[..|run| - 1], req, i, |run| - 1)
    requires run[|run| - 1].action.Put? && run[|run| - 1].action.req == req
    ensures ReadAndWritten(run, i, |run| - 1)
  {
    assert forall k :: 0 <= k < |run| - 1 ==> run[..|run| - 1][k] == run[k];
  }

  lemma KeptByLast(table: seq<Row>, run: seq<Event>) returns (i: nat)
    requires run != [] && Caches(StateAt(table, run, |run| - 1), run[|run| - 1])
    ensures Kept(table, run, i, |run| - 1)
  {
    var last := |run| - 1;
    StateAtPrefix(table, run, last, last);
    i := HeldRowsWereListed(table, run[..last], run[last].action.req);
    StateAtPrefix(table, run, last, i);
    WrittenNext(run, run[last].action.req, i);
  }

  lemma KeptStays(table: seq<Row>, run: seq<Event>, i: nat, j: nat)
    requires run != [] && Kept(table, run[..|run| - 1], i, j) && Keeps(table, run, |run| - 1)
    ensures Kept(table, run, i, j)
  {
    var last := |run| - 1;
    StateAtPrefix(table, run, last, i);
    forall m: nat | j < m < |run| ensures Keeps(table, run, m) {
      if m < last {
        assert Keeps(table, run[..last], m);
        StateAtPrefix(table, run, last, m);
      }
    }
  }

  /** Whatever the cache holds, some request listed it and wrote it, and nothing dropped or replaced it since. */
  lemma {:induction false} CachedIsKept(table: seq<Row>, run: seq<Event>) returns (i: nat, j: nat)
    requires StateAt(table, run, |run|).cache.Some?
    ensures Kept(table, run, i, j)
  {
    var last := |run| - 1;
    RunNext(Start(table), run, last);
    StepOnCache(StateAt(table, run, last), run[last]);
    if Caches(StateAt(table, run, last), run[last]) {
      i := KeptByLast(table, run);
      j := last;
    } else {
      StateAtPrefix(table, run, last, last);
      i, j := CachedIsKept(table, run[..last]);
      KeptStays(table, run, i, j);
    }
  }

  /**
    Whatever is served after a run is the grouping and the version of one and the same committed table: the table at
    the query of some request `i`, less than a time to live after that request's cache write `j`.
   */
  lemma ServedWasCommitted(table: seq<Row>, run: seq<Event>, e: Event) returns (i: nat, j: nat)
    requires Answer(Run(Start(table), run), e).Some?
    ensures ReadAndWritten(run + [e], i, j)
    ensures Answer(Run(Start(table), run), e).value == PayloadAt(table, run + [e], i)
    ensures e.at < (run + [e])[j].at + TTL
  {
    assert run[..|run|] == run;
    if e.action.Get? {
      i, j := CachedIsKept(table, run);
      KeptIsCached(table, run, i, j);
    } else {
      i := HeldRowsWereListed(table, run, e.action.req);
      j := |run|;
    }
    assert (run + [e])[..|run|] == run;
    StateAtPrefix(table, run + [e], |run|, i);
  }

  ghost predicate Timely(run: seq<Event>) {
    forall i, j :: 0 <= i <= j < |run| ==> run[i].at <= run[j].at
  }

  /** Every request writes the cache at most `delay` after it read the table. */
  ghost predicate Prompt(run: seq<Event>, delay: nat) {
    forall i: nat, j: nat :: ReadAndWritten(run, i, j) ==> run[j].at <= run[i].at + delay
  }

  /** The table showed the payload at some event of the run later than `since` and no later than `until`. */
  ghost predicate CurrentWithin(table: seq<Row>, run: seq<Event>, since: int, until: int, payload: Payload) {
    exists i :: 0 <= i < |run| && since < run[i].at <= until && payload == PayloadAt(table, run, i)
  }

  /** A served payload was current less than a time to live and one request's delay ago. */
  lemma BoundedStaleness(table: seq<Row>, run: seq<Event>, e: Event, delay: nat)
    requires Timely(run + [e]) && Prompt(run + [e], delay)
    requires Answer(Run(Start(table), run), e).Some?
    ensures CurrentWithin(table, run + [e], e.at - TTL - delay, e.at, Answer(Run(Start(table), run), e).value)
  {
    var i, j := ServedWasCommitted(table, run, e);
    assert (run + [e])[i].at <= (run + [e])[|run|].at;
  }

  lemma FetchWithNobodyElse(s: State, f: Fetch)
    requires s.phases == map[]
    ensures var hit := CacheGet(s.cache, f.getAt, f.getUp);
            if hit.Some? then FetchAnswer(s, f) == hit && AfterFetch(s, f) == s
            else FetchAnswer(s, f) == Some(Current(s.table))
                 && AfterFetch(s, f) == State(s.table, if f.putUp then Some(Entry(Current(s.table), f.putAt + TTL)) else s.cache, map[])
  {
    if CacheGet(s.cache, f.getAt, f.getUp).None? {
      assert s.phases[f.req := Missed][f.req := Listed(Listing(s.table))] - {f.req} == map[];
    }
  }

  /**
    The bound is the best there is, with Redis never failing.  The cache is dropped before the change is committed, so
    a request between the two puts the old payload back, and it is served until its time to live ends.
   */
  function Overtaken(change: Change, at: nat): seq<Event> {
    [Event(at, Invalidate(true)), Event(at, Get(0, true)), Event(at, List(0)), Event(at, Put(0, true)), Event(at, Commit(change))]
  }

  lemma OvertakenServesOld(table: seq<Row>, change: Change, at: nat, later: nat)
    requires Apply(table, change).Ok? && at <= later < at + TTL
    ensures var s := Run(Start(table), Overtaken(change, at));
            s.table == Apply(table, change).value && Answer(s, Event(later, Get(1, true))) == Some(Current(table))
  {
    var s := Start(table);
    var fetch := Fetch(0, at, at, at, true, true);
    RunOvertaken(s, Overtaken(change, at));
    assert Step(s, Event(at, Invalidate(true))) == s;
    FetchWithNobodyElse(s, fetch);
    OvertakenSteps(s, change, at);
    CommitAfterFetch(table, change, at, later);
  }

  lemma CommitAfterFetch(table: seq<Row>, change: Change, at: nat, later: nat)
    requires Apply(table, change).Ok? && at <= later < at + TTL
    ensures var s := Step(State(table, Some(Entry(Current(table), at + TTL)), map[]), Event(at, Commit(change)));
            s.table == Apply(table, change).value && Answer(s, Event(later, Get(1, true))) == Some(Current(table))
  {
  }

  lemma OvertakenSteps(s: State, change: Change, at: nat)
    ensures var e := Overtaken(change, at);
            Step(Step(Step(Step(Step(s, e[0]), e[1]), e[2]), e[3]), e[4])
            == Step(AfterFetch(Step(s, Event(at, Invalidate(true))), Fetch(0, at, at, at, true, true)), Event(at, Commit(change)))
  {
  }

  lemma RunOvertaken(s: State, e: seq<Event>)
    requires |e| == 5
    ensures Run(s, e) == Step(Step(Step(Step(Step(s, e[0]), e[1]), e[2]), e[3]), e[4])
  {
    assert e[..0] == [] && e[..5] == e;
    RunNext(s, e, 0);
    RunNext(s, e, 1);
    RunNext(s, e, 2);
    RunNext(s, e, 3);
    RunNext(s, e, 4);
  }

  // ---------- when the cache answers ----------

  /** The request reaches Redis, and the kept copy was written less than 900 seconds before. */
  ghost predicate Hits(table: seq<Row>, run: seq<Event>, e: Event, i: nat, j: nat) {
    e.action.Get? && e.action.up && Kept(table, run, i, j) && e.at < run[j].at + 900
  }

  /**
    A request that is not already under way is answered from the cache exactly if it reaches Redis while a kept copy is
    less than 900 seconds old, and then with what that copy's query saw; otherwise it goes on to query.
   */
  lemma HitExactly(table: seq<Row>, run: seq<Event>, e: Event)
    requires e.action.Get? && e.action.req !in StateAt(table, run, |run|).phases
    ensures var s := StateAt(table, run, |run|);
            && (Answer(s, e).Some? <==> exists i: nat, j: nat :: Hits(table, run, e, i, j))
            && (forall i: nat, j: nat :: Hits(table, run, e, i, j) ==> Answer(s, e) == Some(PayloadAt(table, run, i)))
            && (Answer(s, e).None? ==> Step(s, e).phases == s.phases[e.action.req := Missed])
  {
    var s := StateAt(table, run, |run|);
    if Answer(s, e).Some? {
      var i, j := CachedIsKept(table, run);
      KeptIsCached(table, run, i, j);
      assert Hits(table, run, e, i, j);
    }
    forall i: nat, j: nat | Hits(table, run, e, i, j) ensures Answer(s, e) == Some(PayloadAt(table, run, i)) {
      KeptIsCached(table, run, i, j);
    }
  }

  // ---------- when the copy is stale ----------

  ghost predicate Stale(table: seq<Row>, run: seq<Event>) {
    var s := StateAt(table, run, |run|);
    s.cache.Some? && s.cache.value.payload != Current(s.table)
  }

  /** Under any interleaving and any failures, the copy is stale exactly when its query saw another payload. */
  lemma StaleExactly(table: seq<Row>, run: seq<Event>)
    ensures Stale(table, run) <==>
            exists i: nat, j: nat :: Kept(table, run, i, j) && PayloadAt(table, run, i) != PayloadAt(table, run, |run|)
  {
    if Stale(table, run) {
      var i, j := CachedIsKept(table, run);
      KeptIsCached(table, run, i, j);
    }
    if i: nat, j: nat :| Kept(table, run, i, j) && PayloadAt(table, run, i) != PayloadAt(table, run, |run|) {
      KeptIsCached(table, run, i, j);
    }
  }

  /** Event `k` commits a change of the payload. */
  ghost predicate Changes(table: seq<Row>, run: seq<Event>, k: nat) {
    k < |run| && run[k].action.Commit? && PayloadAt(table, run, k + 1) != PayloadAt(table, run, k)
  }

  lemma OnlyCommitsChange(table: seq<Row>, run: seq<Event>, k: nat)
    requires k < |run| && PayloadAt(table, run, k + 1) != PayloadAt(table, run, k)
    ensures Changes(table, run, k)
  {
    RunNext(Start(table), run, k);
  }

  lemma {:induction false} SomeDifference(payloads: seq<Payload>, i: nat, n: nat) returns (k: nat)
    requires i <= n < |payloads| && payloads[i] != payloads[n]
    ensures i <= k < n && payloads[k + 1] != payloads[k]
  {
    k := n - 1;
    if payloads[k] == payloads[n] {
      k := SomeDifference(payloads, i, k);
    }
  }

  function Payloads(table: seq<Row>, run: seq<Event>): (r: seq<Payload>)
    ensures |r| == |run| + 1 && forall m :: 0 <= m <= |run| ==> r[m] == PayloadAt(table, run, m)
  {
    seq(|run| + 1, m requires 0 <= m <= |run| => PayloadAt(table, run, m))
  }

  /** Between two payloads that differ some commit changed the payload. */
  lemma SomethingChanged(table: seq<Row>, run: seq<Event>, i: nat, n: nat) returns (k: nat)
    requires i <= n <= |run| && PayloadAt(table, run, i) != PayloadAt(table, run, n)
    ensures i <= k < n && Changes(table, run, k)
  {
    k := SomeDifference(Payloads(table, run), i, n);
    OnlyCommitsChange(table, run, k);
  }

  /**
    Each commit that changes the payload has an invalidation that reached Redis: `own[k]` is that of commit `k`.  In
    the code it comes before the commit; nothing below depends on which comes first.
   */
  ghost predicate Invalidated(table: seq<Row>, run: seq<Event>, own: map<nat, nat>) {
    forall k :: Changes(table, run, k) ==> k in own && own[k] < |run| && run[own[k]].action == Invalidate(true)
  }

  /** The request that queried at `i` and wrote at `j` queried before the commit and wrote after its invalidation. */
  ghost predicate Overtakes(table: seq<Row>, run: seq<Event>, own: map<nat, nat>, i: nat, j: nat, k: nat) {
    i < k && Changes(table, run, k) && k in own && own[k] < j
  }

  lemma KeptOvertakes(table: seq<Row>, run: seq<Event>, own: map<nat, nat>, i: nat, j: nat, k: nat)
    requires Invalidated(table, run, own) && Kept(table, run, i, j) && i <= k && Changes(table, run, k)
    ensures Overtakes(table, run, own, i, j, k)
  {
    assert own[k] > j ==> !Keeps(table, run, own[k]);
  }

  /** The payload never returns to one it showed before a change. */
  ghost predicate NeverReturns(table: seq<Row>, run: seq<Event>) {
    forall i: nat, k: nat :: i <= k && Changes(table, run, k) ==> PayloadAt(table, run, i) != PayloadAt(table, run, |run|)
  }

  /**
    With every change's invalidation reaching Redis, a stale copy needs a request that overtook a change and whose
    write was kept; and any such request leaves a stale copy, unless a later change restored the payload it read.
   */
  lemma StaleNeedsOvertaking(table: seq<Row>, run: seq<Event>, own: map<nat, nat>)
    requires Invalidated(table, run, own)
    ensures Stale(table, run) ==>
              exists i: nat, j: nat, k: nat :: Kept(table, run, i, j) && Overtakes(table, run, own, i, j, k)
    ensures NeverReturns(table, run) ==>
              (Stale(table, run) <==>
                 exists i: nat, j: nat, k: nat :: Kept(table, run, i, j) && Overtakes(table, run, own, i, j, k))
  {
    StaleExactly(table, run);
    if Stale(table, run) {
      var i: nat, j: nat :| Kept(table, run, i, j) && PayloadAt(table, run, i) != PayloadAt(table, run, |run|);
      var k := SomethingChanged(table, run, i, |run|);
      KeptOvertakes(table, run, own, i, j, k);
    }
  }

  lemma OneChangeNeverReturns(table: seq<Row>, run: seq<Event>, k: nat)
    requires Changes(table, run, k) && forall l :: Changes(table, run, l) ==> l == k
    ensures NeverReturns(table, run)
  {
    forall i: nat, l: nat | i <= l && Changes(table, run, l) ensures PayloadAt(table, run, i) != PayloadAt(table, run, |run|) {
      if PayloadAt(table, run, i) != PayloadAt(table, run, k) {
        var x := SomethingChanged(table, run, i, k);
      }
      if PayloadAt(table, run, k + 1) != PayloadAt(table, run, |run|) {
        var x := SomethingChanged(table, run, k + 1, |run|);
      }
    }
  }

  /**
    Around a single change of the payload, committed at `k` and invalidated at `m`, the copy ends up stale exactly when
    the request that wrote it queried before the commit and wrote after the invalidation.
   */
  lemma OneChangeStaleExactly(table: seq<Row>, run: seq<Event>, k: nat, m: nat)
    requires Changes(table, run, k) && forall l :: Changes(table, run, l) ==> l == k
    requires m < |run| && run[m].action == Invalidate(true)
    ensures Stale(table, run) <==> exists i: nat, j: nat :: Kept(table, run, i, j) && i < k && m < j
  {
    var own := map[k := m];
    OneChangeNeverReturns(table, run, k);
    StaleNeedsOvertaking(table, run, own);
    if i: nat, j: nat :| Kept(table, run, i, j) && i < k && m < j {
      assert Overtakes(table, run, own, i, j, k);
    }
  }

  /**
    The good case, with any number of requests in flight: while no request's query and write overtake a change, every
    payload served from the cache is the current one.
   */
  lemma HitsAreCurrent(table: seq<Row>, run: seq<Event>, own: map<nat, nat>, e: Event)
    requires Invalidated(table, run, own)
    requires forall i: nat, j: nat, k: nat :: ReadAndWritten(run, i, j) ==> !Overtakes(table, run, own, i, j, k)
    requires e.action.Get? && Answer(StateAt(table, run, |run|), e).Some?
    ensures Answer(StateAt(table, run, |run|), e).value == PayloadAt(table, run, |run|)
  {
    StaleNeedsOvertaking(table, run, own);
  }

  // ---------- one request at a time ----------

  datatype Request =
    | Read(fetch: Fetch)
    | Change(change: Change, invalidateAt: nat, commitAt: nat, up: bool)

  /** A refused change raises before it reaches the cache. */
  function Serve(s: State, q: Request): State {
    match q
    case Read(f) => AfterFetch(s, f)
    case Change(change, invalidateAt, commitAt, up) =>
      if Apply(s.table, change).Ok? then
        Step(Step(s, Event(invalidateAt, Invalidate(up))), Event(commitAt, Commit(change)))
      else s
  }

  function Serial(table: seq<Row>, requests: seq<Request>): State {
    if requests == [] then Start(table) else Serve(Serial(table, requests[..|requests| - 1]), requests[|requests| - 1])
  }

  ghost predicate Accepted(table: seq<Row>, requests: seq<Request>, i: nat) {
    i < |requests| && requests[i].Change? && Apply(Serial(table, requests[..i]).table, requests[i].change).Ok?
  }

  /** Every accepted change found Redis up when it dropped the cache. */
  ghost predicate ChangesInvalidate(table: seq<Row>, requests: seq<Request>) {
    forall i: nat :: Accepted(table, requests, i) ==> requests[i].up
  }

  /** With requests one at a time, the cached payload is always the current one, expired or not. */
  lemma {:induction false} SerialCacheIsCurrent(table: seq<Row>, requests: seq<Request>)
    requires ChangesInvalidate(table, requests)
    ensures var s := Serial(table, requests);
            s.phases == map[] && (s.cache.Some? ==> s.cache.value.payload == Current(s.table))
  {
    if requests != [] {
      var last := |requests| - 1;
      forall i: nat | Accepted(table, requests[..last], i) ensures requests[..last][i].up {
        assert requests[..last][..i] == requests[..i];
        assert Accepted(table, requests, i);
      }
      SerialCacheIsCurrent(table, requests[..last]);
      assert Accepted(table, requests, last) ==> requests[last].up;
      if requests[last].Read? {
        FetchWithNobodyElse(Serial(table, requests[..last]), requests[last].fetch);
      }
    }
  }

  /** One at a time, every request is answered with the current rows, even where reads found Redis down. */
  lemma SerialIsCurrent(table: seq<Row>, requests: seq<Request>, f: Fetch)
    requires ChangesInvalidate(table, requests)
    ensures var s := Serial(table, requests); FetchAnswer(s, f) == Some(Current(s.table))
  {
    SerialCacheIsCurrent(table, requests);
    FetchWithNobodyElse(Serial(table, requests), f);
  }
}
