/**
  The Redis-backed request limiter: one counter per aligned window, created with a time to live of one window,
  and failing open.  Times are whole seconds; the requests here are those of one bucket and one caller.
 */
module RateLimit {
  import opened Common
  import opened Decimal

  datatype Limit = Limit(limit: nat, window: nat)

  // ---------- the limit's text form ----------

  datatype ParseError = NoWindow | BadUnit | BadNumber

  /** The text before the first slash and the text after it. */
  function Partition(s: string): (string, string) {
    if s == "" then ("", "")
    else if s[0] == '/' then ("", s[1..])
    else var (head, tail) := Partition(s[1..]); ([s[0]] + head, tail)
  }

  function UnitSeconds(c: char): Option<nat> {
    if c == 'm' then Some(60) else if c == 'h' then Some(3600) else if c == 'd' then Some(86400) else None
  }

  function ParseLimit(spec: string): Result<Limit, ParseError> {
    var (count, window) := Partition(spec);
    if window == "" then Err(NoWindow)
    else
      var seconds := UnitSeconds(window[|window| - 1]);
      if seconds.None? then Err(BadUnit)
      else if !IsNumeral(count) || !IsNumeral(window[..|window| - 1]) then Err(BadNumber)
      else Ok(Limit(Parse(count), Parse(window[..|window| - 1]) * seconds.value))
  }

  lemma {:induction false} PartitionAtSlash(a: string, b: string)
    requires forall i :: 0 <= i < |a| ==> a[i] != '/'
    ensures Partition(a + "/" + b) == (a, b)
  {
    var s := a + "/" + b;
    if a == "" {
      assert s[1..] == b;
    } else {
      assert s[1..] == a[1..] + "/" + b;
      PartitionAtSlash(a[1..], b);
      assert a == [a[0]] + a[1..];
    }
  }

  lemma {:induction false} PartitionJoins(s: string)
    ensures var (head, tail) := Partition(s);
            && (forall i :: 0 <= i < |head| ==> head[i] != '/')
            && (if '/' in s then s == head + "/" + tail else head == s && tail == "")
  {
    if s != "" && s[0] != '/' {
      PartitionJoins(s[1..]);
      assert s == [s[0]] + s[1..];
    } else if s != "" {
      assert s == "/" + s[1..];
    }
  }

  /** The text of a limit: a count, a slash, a number and a unit. */
  predicate IsLimitText(spec: string, count: string, number: string, unit: char) {
    IsNumeral(count) && IsNumeral(number) && unit in {'m', 'h', 'd'} && spec == count + "/" + (number + [unit])
  }

  lemma LimitTextParses(spec: string, count: string, number: string, unit: char)
    requires IsLimitText(spec, count, number, unit)
    ensures ParseLimit(spec).Ok? && ParseLimit(spec).value.limit == Parse(count)
    ensures unit == 'm' ==> ParseLimit(spec).value.window == Parse(number) * 60
    ensures unit == 'h' ==> ParseLimit(spec).value.window == Parse(number) * 60 * 60
    ensures unit == 'd' ==> ParseLimit(spec).value.window == Parse(number) * 24 * 60 * 60
  {
    PartitionAtSlash(count, number + [unit]);
    assert (number + [unit])[..|number|] == number;
  }

  /** Exactly the texts of that form parse: the count is the limit, and the window is in minutes, hours or days. */
  lemma ParseLimitExactly(spec: string)
    ensures ParseLimit(spec).Ok? <==> exists count, number, unit :: IsLimitText(spec, count, number, unit)
    ensures forall count, number, unit :: IsLimitText(spec, count, number, unit) ==>
              && ParseLimit(spec).Ok? && ParseLimit(spec).value.limit == Parse(count)
              && ParseLimit(spec).value.window == Parse(number) * (if unit == 'm' then 60 else if unit == 'h' then 60 * 60 else 24 * 60 * 60)
  {
    PartitionJoins(spec);
    var (count, window) := Partition(spec);
    if ParseLimit(spec).Ok? {
      var number, unit := window[..|window| - 1], window[|window| - 1];
      assert window == number + [unit];
      assert IsLimitText(spec, count, number, unit);
    }
    forall count, number, unit | IsLimitText(spec, count, number, unit)
      ensures ParseLimit(spec).Ok? && ParseLimit(spec).value.limit == Parse(count)
              && ParseLimit(spec).value.window == Parse(number) * (if unit == 'm' then 60 else if unit == 'h' then 60 * 60 else 24 * 60 * 60)
    {
      LimitTextParses(spec, count, number, unit);
    }
  }

  /** A limit printed as requests per so many minutes, hours or days parses to that limit. */
  lemma ParseLimitRoundTrip(n: nat, k: nat, unit: char)
    requires UnitSeconds(unit).Some?
    ensures ParseLimit(Print(n) + "/" + (Print(k) + [unit])) == Ok(Limit(n, k * UnitSeconds(unit).value))
  {
    var window := Print(k) + [unit];
    PartitionAtSlash(Print(n), window);
    assert window[..|window| - 1] == Print(k);
    ParsePrint(n);
    ParsePrint(k);
  }

  // ---------- the counter ----------

  datatype Counter = Counter(count: nat, expiresAt: Option<nat>)
  type Redis = map<nat, Counter>

  /** What the server does with a request's two commands. */
  datatype Health = Up | Down | ExpireFails

  datatype Request = Request(at: nat, health: Health)

  function WindowOf(now: nat, window: nat): nat
    requires window >= 1
  {
    now - now % window
  }

  /** The counter as Redis reports it: a key past its expiry is gone. */
  function Read(redis: Redis, key: nat, now: nat): Option<Counter> {
    if key in redis && (redis[key].expiresAt.None? || now < redis[key].expiresAt.value) then Some(redis[key]) else None
  }

  function Incr(redis: Redis, key: nat, now: nat): Counter {
    var c := Read(redis, key, now);
    if c.Some? then Counter(c.value.count + 1, c.value.expiresAt) else Counter(1, None)
  }

  datatype Checked = Checked(redis: Redis, admitted: bool)

  function Check(redis: Redis, rl: Limit, r: Request): Checked
    requires rl.window >= 1
  {
    if r.health == Down then Checked(redis, true)
    else
      var key := WindowOf(r.at, rl.window);
      var c := Incr(redis, key, r.at);
      if c.count == 1 then
        if r.health == ExpireFails then Checked(redis[key := c], true)
        else Checked(redis[key := c.(expiresAt := Some(r.at + rl.window))], c.count <= rl.limit)
      else Checked(redis[key := c], c.count <= rl.limit)
  }

  function Run(rl: Limit, run: seq<Request>): Redis
    requires rl.window >= 1
  {
    if run == [] then map[] else Check(Run(rl, run[..|run| - 1]), rl, run[|run| - 1]).redis
  }

  /** Whether the last request of a run is let through. */
  predicate LastAdmitted(rl: Limit, run: seq<Request>)
    requires rl.window >= 1 && run != []
  {
    Check(Run(rl, run[..|run| - 1]), rl, run[|run| - 1]).admitted
  }

  class Limiter {
    var redis: Redis

    constructor ()
      ensures redis == map[]
    {
      redis := map[];
    }

    method CheckRateLimit(rl: Limit, r: Request) returns (admitted: bool)
      requires rl.window >= 1
      modifies this
      ensures Checked(redis, admitted) == Check(old(redis), rl, r)
    {
      var key := WindowOf(r.at, rl.window);
      if r.health == Down { return true; }
      var c := Incr(redis, key, r.at);
      redis := redis[key := c];
      if c.count == 1 {
        if r.health == ExpireFails { return true; }
        redis := redis[key := c.(expiresAt := Some(r.at + rl.window))];
      }
      return c.count <= rl.limit;
    }
  }

  // ---------- guarantees ----------

  ghost predicate Ordered(run: seq<Request>) {
    forall i, j :: 0 <= i <= j < |run| ==> run[i].at <= run[j].at
  }

  ghost predicate AllUp(run: seq<Request>) {
    forall i :: 0 <= i < |run| ==> run[i].health == Up
  }

  function Requests(run: seq<Request>, window: nat, key: nat): nat
    requires window >= 1
  {
    if run == [] then 0
    else Requests(run[..|run| - 1], window, key) + (if WindowOf(run[|run| - 1].at, window) == key then 1 else 0)
  }

  /** The admissions among the requests made in one aligned window. */
  function Admissions(rl: Limit, run: seq<Request>, key: nat): nat
    requires rl.window >= 1
  {
    if run == [] then 0
    else Admissions(rl, run[..|run| - 1], key) + (if WindowOf(run[|run| - 1].at, rl.window) == key && LastAdmitted(rl, run) then 1 else 0)
  }

  /** The admissions among the requests made from `from` up to, not including, `to`. */
  function AdmissionsIn(rl: Limit, run: seq<Request>, from: nat, to: nat): nat
    requires rl.window >= 1
  {
    if run == [] then 0
    else AdmissionsIn(rl, run[..|run| - 1], from, to) + (if from <= run[|run| - 1].at < to && LastAdmitted(rl, run) then 1 else 0)
  }

  /** The admissions in the span of one window's length starting at `s`. */
  function InSpan(rl: Limit, run: seq<Request>, s: nat): nat
    requires rl.window >= 1
  {
    AdmissionsIn(rl, run, s, s + rl.window)
  }

  lemma WindowBounds(now: nat, window: nat)
    requires window >= 1
    ensures WindowOf(now, window) <= now < WindowOf(now, window) + window
  {
  }

  /** While Redis is up, each window's counter is the number of its requests, and outlives the window. */
  lemma {:induction false} CounterIsExact(rl: Limit, run: seq<Request>, key: nat)
    requires rl.window >= 1 && Ordered(run) && AllUp(run)
    ensures var redis := Run(rl, run);
            var n := Requests(run, rl.window, key);
            && (key in redis <==> n > 0)
            && (n > 0 ==> redis[key].count == n && redis[key].expiresAt.Some? && redis[key].expiresAt.value >= key + rl.window)
  {
    if run != [] {
      var last := |run| - 1;
      CounterIsExact(rl, run[..last], key);
      WindowBounds(run[last].at, rl.window);
    }
  }

  /** In every aligned window the admissions are the smaller of the requests and the limit. */
  lemma {:induction false} WindowAdmits(rl: Limit, run: seq<Request>, key: nat)
    requires rl.window >= 1 && Ordered(run) && AllUp(run)
    ensures Admissions(rl, run, key) == Min(Requests(run, rl.window, key), rl.limit)
  {
    if run != [] {
      var last := |run| - 1;
      WindowAdmits(rl, run[..last], key);
      CounterIsExact(rl, run[..last], key);
      WindowBounds(run[last].at, rl.window);
    }
  }

  /** Two instants less than a window apart are in the same aligned window or in consecutive ones. */
  lemma NextWindow(s: nat, t: nat, window: nat)
    requires window >= 1 && s <= t < s + window
    ensures WindowOf(t, window) == WindowOf(s, window) || WindowOf(t, window) == WindowOf(s, window) + window
  {
    var q := s / window;
    assert WindowOf(s, window) == window * q;
    if t < window * q + window {
      SameWindow(t, q, window);
    } else {
      SameWindow(t, q + 1, window);
    }
  }

  lemma SameWindow(t: nat, q: nat, window: nat)
    requires window >= 1 && window * q <= t < window * q + window
    ensures WindowOf(t, window) == window * q
  {
    QuotientUnique(t, window, q, t - window * q);
  }

  lemma {:induction false} SpanIsTwoWindows(rl: Limit, run: seq<Request>, s: nat)
    requires rl.window >= 1
    ensures var key := WindowOf(s, rl.window);
            InSpan(rl, run, s) <= Admissions(rl, run, key) + Admissions(rl, run, key + rl.window)
  {
    if run != [] {
      var last := |run| - 1;
      SpanIsTwoWindows(rl, run[..last], s);
      if s <= run[last].at < s + rl.window {
        NextWindow(s, run[last].at, rl.window);
      }
    }
  }

  /** Any span as long as the window admits at most twice the limit. */
  lemma SpanAdmitsTwice(rl: Limit, run: seq<Request>, s: nat)
    requires rl.window >= 1 && Ordered(run) && AllUp(run)
    ensures InSpan(rl, run, s) <= 2 * rl.limit
  {
    SpanIsTwoWindows(rl, run, s);
    WindowAdmits(rl, run, WindowOf(s, rl.window));
    WindowAdmits(rl, run, WindowOf(s, rl.window) + rl.window);
  }

  // ---------- it is not a sliding window ----------

  /** What a sliding-window limiter promises: no span of the window's length admits more than the limit. */
  ghost predicate Slides(rl: Limit)
    requires rl.window >= 1
  {
    forall run, s :: Ordered(run) && AllUp(run) ==> InSpan(rl, run, s) <= rl.limit
  }

  /** The limit's worth of requests in the last second of a window, and one in the first second of the next. */
  function Burst(n: nat, window: nat): seq<Request>
    requires window >= 1
  {
    seq(n, i => Request(window - 1, Up)) + [Request(window, Up)]
  }

  lemma {:induction false} SpanCountsBoth(rl: Limit, run: seq<Request>, s: nat)
    requires rl.window >= 1 && s < rl.window
    requires forall i :: 0 <= i < |run| ==> s <= run[i].at < s + rl.window
    ensures InSpan(rl, run, s) == Admissions(rl, run, 0) + Admissions(rl, run, rl.window)
  {
    if run != [] {
      var last := |run| - 1;
      SpanCountsBoth(rl, run[..last], s);
      SameWindow(s, 0, rl.window);
      NextWindow(s, run[last].at, rl.window);
    }
  }

  lemma {:induction false} RequestsInOneSecond(n: nat, at: nat, window: nat, key: nat)
    requires window >= 1
    ensures Requests(seq(n, i => Request(at, Up)), window, key) == if WindowOf(at, window) == key then n else 0
  {
    if n > 0 {
      RequestsInOneSecond(n - 1, at, window, key);
      assert seq(n, i => Request(at, Up))[..n - 1] == seq(n - 1, i => Request(at, Up));
    }
  }

  lemma BurstBreaksTheLimit(rl: Limit)
    requires rl.limit >= 1 && rl.window >= 2
    ensures Ordered(Burst(rl.limit, rl.window)) && AllUp(Burst(rl.limit, rl.window))
    ensures InSpan(rl, Burst(rl.limit, rl.window), rl.window - 1) == rl.limit + 1
  {
    var w := rl.window;
    var run := Burst(rl.limit, w);
    var first := seq(rl.limit, i => Request(w - 1, Up));
    assert run[..|run| - 1] == first;
    SameWindow(w - 1, 0, w);
    SameWindow(w, 1, w);
    RequestsInOneSecond(rl.limit, w - 1, w, 0);
    RequestsInOneSecond(rl.limit, w - 1, w, w);
    SpanCountsBoth(rl, run, w - 1);
    WindowAdmits(rl, run, 0);
    WindowAdmits(rl, run, w);
  }

  /** The limiter slides only in the degenerate cases: nothing is ever admitted, or a window is one clock tick. */
  lemma SlidesExactly(rl: Limit)
    requires rl.window >= 1
    ensures Slides(rl) <==> rl.limit == 0 || rl.window == 1
  {
    if rl.limit == 0 {
      forall run, s | Ordered(run) && AllUp(run)
        ensures InSpan(rl, run, s) <= rl.limit
      {
        SpanAdmitsTwice(rl, run, s);
      }
    } else if rl.window == 1 {
      forall run, s | Ordered(run) && AllUp(run)
        ensures InSpan(rl, run, s) <= rl.limit
      {
        OneTick(rl, run, s);
        WindowAdmits(rl, run, s);
      }
    } else {
      BurstBreaksTheLimit(rl);
    }
  }

  lemma {:induction false} OneTick(rl: Limit, run: seq<Request>, s: nat)
    requires rl.window == 1
    ensures InSpan(rl, run, s) == Admissions(rl, run, s)
  {
    if run != [] {
      OneTick(rl, run[..|run| - 1], s);
    }
  }

  // ---------- failing open ----------

  /** Whatever Redis does, a counter never runs ahead of the requests made in its window. */
  lemma {:induction false} CounterNeverAhead(rl: Limit, run: seq<Request>, key: nat)
    requires rl.window >= 1
    ensures key in Run(rl, run) ==> Run(rl, run)[key].count <= Requests(run, rl.window, key)
  {
    if run != [] {
      CounterNeverAhead(rl, run[..|run| - 1], key);
    }
  }

  /** A request is let through when Redis is down, which changes nothing, or fails at a window's first request. */
  lemma FailsOpen(rl: Limit, run: seq<Request>)
    requires rl.window >= 1 && run != []
    ensures var before, last := run[..|run| - 1], run[|run| - 1];
            && (last.health == Down ==> LastAdmitted(rl, run) && Run(rl, run) == Run(rl, before))
            && (last.health == ExpireFails && Requests(before, rl.window, WindowOf(last.at, rl.window)) == 0 ==> LastAdmitted(rl, run))
  {
    var before, last := run[..|run| - 1], run[|run| - 1];
    CounterCounts(rl, before, WindowOf(last.at, rl.window));
  }

  /** A window that has a counter has had a request. */
  lemma {:induction false} CounterCounts(rl: Limit, run: seq<Request>, key: nat)
    requires rl.window >= 1
    ensures key in Run(rl, run) ==> Requests(run, rl.window, key) >= 1
  {
    if run != [] {
      CounterCounts(rl, run[..|run| - 1], key);
    }
  }

  /** Under any failures a request is refused only if its window has already seen at least the limit of requests. */
  lemma OutageNeverLocksOut(rl: Limit, run: seq<Request>)
    requires rl.window >= 1 && run != [] && !LastAdmitted(rl, run)
    ensures var last := run[|run| - 1];
            last.health != Down && Requests(run[..|run| - 1], rl.window, WindowOf(last.at, rl.window)) >= rl.limit
  {
    var last := |run| - 1;
    CounterNeverAhead(rl, run[..last], WindowOf(run[last].at, rl.window));
  }
}
