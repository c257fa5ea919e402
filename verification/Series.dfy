/**
  Dashboard time series: rows are summed per calendar day by the database, then bucketed by hour, day, ISO week or month.
  Instants are UTC microseconds since 1 January of year 1, a Monday.  A dict is the sequence of its items in insertion order.
 */
module Series {
  import opened Common
  import CivilDates

  const HOUR: nat := 3_600_000_000
  const DAY: nat := 86_400_000_000

  datatype Granularity = ByHour | ByDay | ByWeek | ByMonth
  datatype Range = Range(start: nat, end: nat, granularity: Granularity)
  datatype Bucket = HourBucket(hour: nat) | DayBucket(day: nat) | WeekBucket(week: nat) | MonthBucket(month: nat)
  datatype Row = Row(at: nat, amount: int)

  // ---------- dicts ----------

  type Dict<!K(==)> = seq<(K, int)>

  function Find<K(==)>(d: Dict<K>, key: K): (r: Option<nat>)
    ensures r.Some? ==> r.value < |d| && d[r.value].0 == key
    ensures r.None? ==> forall i :: 0 <= i < |d| ==> d[i].0 != key
  {
    if d == [] then None
    else if d[|d| - 1].0 == key then Some(|d| - 1)
    else Find(d[..|d| - 1], key)
  }

  function Get<K(==)>(d: Dict<K>, key: K): int {
    var i := Find(d, key);
    if i.Some? then d[i.value].1 else 0
  }

  /** `d[key] += v`, or `d[key] = v` for a new key. */
  function Bump<K(==)>(d: Dict<K>, key: K, v: int): (r: Dict<K>)
    ensures |d| <= |r|
  {
    var i := Find(d, key);
    if i.Some? then d[i.value := (key, d[i.value].1 + v)] else d + [(key, v)]
  }

  function Sum<K(==)>(d: Dict<K>): int {
    if d == [] then 0 else Sum(d[..|d| - 1]) + d[|d| - 1].1
  }

  ghost predicate Distinct<K>(d: Dict<K>) {
    forall i, j :: 0 <= i < j < |d| ==> d[i].0 != d[j].0
  }

  lemma {:induction false} SumUpdate<K>(d: Dict<K>, i: nat, v: int)
    requires i < |d|
    ensures Sum(d[i := (d[i].0, v)]) == Sum(d) - d[i].1 + v
  {
    var last := |d| - 1;
    if i == last {
      assert d[i := (d[i].0, v)][..last] == d[..last];
    } else {
      SumUpdate(d[..last], i, v);
      assert d[i := (d[i].0, v)][..last] == d[..last][i := (d[i].0, v)];
    }
  }

  lemma BumpAdds<K>(d: Dict<K>, key: K, v: int)
    requires Distinct(d)
    ensures Sum(Bump(d, key, v)) == Sum(d) + v
    ensures Distinct(Bump(d, key, v))
    ensures forall k :: Get(Bump(d, key, v), k) == Get(d, k) + (if k == key then v else 0)
    ensures forall k :: Find(Bump(d, key, v), k).Some? <==> Find(d, k).Some? || k == key
  {
    var r := Bump(d, key, v);
    var i := Find(d, key);
    if i.Some? {
      SumUpdate(d, i.value, d[i.value].1 + v);
    } else {
      assert r[..|d|] == d;
    }
    assert forall j :: 0 <= j < |d| ==> r[j].0 == d[j].0 && (d[j].0 != key ==> r[j] == d[j]);
    forall k
      ensures Find(r, k).Some? <==> Find(d, k).Some? || k == key
      ensures Get(r, k) == Get(d, k) + (if k == key then v else 0)
    {
      var a, b := Find(d, k), Find(r, k);
      if a.Some? {
        assert r[a.value].0 == k;
        assert b == a;
      }
    }
  }

  // ---------- buckets ----------

  function KeyOfDay(day: nat, g: Granularity): Bucket {
    match g
    case ByHour => HourBucket(24 * day)
    case ByDay => DayBucket(day)
    case ByWeek => WeekBucket(day / 7)
    case ByMonth => MonthBucket(CivilDates.MonthOf(day))
  }

  function BucketKey(t: nat, g: Granularity): Bucket {
    if g == ByHour then HourBucket(t / HOUR) else KeyOfDay(t / DAY, g)
  }

  /** A bucket's hour, day, Monday-to-Sunday week or calendar month holds the instant. */
  ghost predicate Holds(b: Bucket, t: nat) {
    match b
    case HourBucket(h) => h * HOUR <= t < (h + 1) * HOUR
    case DayBucket(d) => d * DAY <= t < (d + 1) * DAY
    case WeekBucket(w) => 7 * w * DAY <= t < 7 * (w + 1) * DAY
    case MonthBucket(m) => CivilDates.MonthStart(m) * DAY <= t < CivilDates.MonthStart(m + 1) * DAY
  }

  predicate OfKind(b: Bucket, g: Granularity) {
    match g
    case ByHour => b.HourBucket?
    case ByDay => b.DayBucket?
    case ByWeek => b.WeekBucket?
    case ByMonth => b.MonthBucket?
  }

  lemma DaySpan(lo: nat, hi: nat, day: nat, t: nat)
    requires lo <= day < hi && day * DAY <= t < (day + 1) * DAY
    ensures lo * DAY <= day * DAY <= t < hi * DAY
  {
  }

  lemma MonthSpan(day: nat, m: nat, t: nat)
    requires CivilDates.InMonth(day, m) && day * DAY <= t < (day + 1) * DAY
    ensures Holds(MonthBucket(m), t)
  {
    DaySpan(CivilDates.MonthStart(m), CivilDates.MonthStart(m + 1), day, t);
  }

  lemma DayBucketHolds(t: nat, day: nat, g: Granularity)
    requires g != ByHour && day * DAY <= t < (day + 1) * DAY
    ensures OfKind(KeyOfDay(day, g), g) && Holds(KeyOfDay(day, g), t)
  {
    match g
    case ByDay =>
    case ByWeek =>
      WeekSpan(day);
      DaySpan(7 * (day / 7), 7 * (day / 7 + 1), day, t);
    case ByMonth =>
      CivilDates.MonthOfIsMonth(day);
      MonthSpan(day, CivilDates.MonthOf(day), t);
  }

  lemma WeekSpan(day: nat)
    ensures 7 * (day / 7) <= day < 7 * (day / 7 + 1)
  {
  }

  lemma DayOf(t: nat)
    ensures t / DAY * DAY <= t < (t / DAY + 1) * DAY
  {
  }

  /** An instant's bucket is of the granularity's kind and holds it; a day's bucket holds its midnight. */
  lemma BucketHoldsInstant(t: nat, g: Granularity)
    ensures OfKind(BucketKey(t, g), g) && Holds(BucketKey(t, g), t)
    ensures OfKind(KeyOfDay(t / DAY, g), g) && Holds(KeyOfDay(t / DAY, g), t / DAY * DAY)
  {
    DayOf(t);
    if g == ByHour {
      assert 24 * (t / DAY) * HOUR == t / DAY * DAY;
    } else {
      DayBucketHolds(t, t / DAY, g);
      DayBucketHolds(t / DAY * DAY, t / DAY, g);
    }
  }

  function Stride(g: Granularity): nat {
    if g == ByHour then HOUR else DAY
  }

  /** The instants the filling loop steps on. */
  function Instant(rng: Range, i: nat): nat {
    rng.start + i * Stride(rng.granularity)
  }

  ghost predicate StepIn(rng: Range, i: nat, key: Bucket) {
    BucketKey(Instant(rng, i), rng.granularity) == key
  }

  /** The series has a bucket for this key: some instant the filling loop steps on lies in it. */
  ghost predicate Visited(rng: Range, key: Bucket) {
    exists i: nat :: Instant(rng, i) < rng.end && StepIn(rng, i, key)
  }

  /** What the per-day counts put into one bucket. */
  function CountFor(counts: Dict<nat>, g: Granularity, key: Bucket): int {
    if counts == [] then 0
    else
      var last := counts[|counts| - 1];
      CountFor(counts[..|counts| - 1], g, key) + (if KeyOfDay(last.0, g) == key then last.1 else 0)
  }

  /** The per-day counts whose bucket the series has. */
  ghost function Kept(rng: Range, counts: Dict<nat>): int {
    if counts == [] then 0
    else
      var last := counts[|counts| - 1];
      Kept(rng, counts[..|counts| - 1]) + (if Visited(rng, KeyOfDay(last.0, rng.granularity)) then last.1 else 0)
  }

  /** A dict of zeros whose keys are the buckets of the first `n` instants. */
  ghost predicate ZeroedUpTo(rng: Range, buckets: Dict<Bucket>, n: nat) {
    && Distinct(buckets) && Sum(buckets) == 0
    && (forall key :: Get(buckets, key) == 0)
    && (forall key :: Find(buckets, key).Some? <==> exists i: nat :: i < n && StepIn(rng, i, key))
  }

  lemma StepsOneMore(rng: Range, n: nat, key: Bucket)
    ensures (exists i: nat :: i < n + 1 && StepIn(rng, i, key)) <==> (exists i: nat :: i < n && StepIn(rng, i, key)) || StepIn(rng, n, key)
  {
    if StepIn(rng, n, key) {
      assert n < n + 1 && StepIn(rng, n, key);
    }
    if i: nat :| i < n && StepIn(rng, i, key) {
      assert i < n + 1 && StepIn(rng, i, key);
    }
  }

  lemma ZeroOneMore(rng: Range, buckets: Dict<Bucket>, n: nat)
    requires ZeroedUpTo(rng, buckets, n)
    ensures ZeroedUpTo(rng, Bump(buckets, BucketKey(Instant(rng, n), rng.granularity), 0), n + 1)
  {
    var added := BucketKey(Instant(rng, n), rng.granularity);
    var after := Bump(buckets, added, 0);
    BumpAdds(buckets, added, 0);
    forall key
      ensures Find(after, key).Some? <==> exists i: nat :: i < n + 1 && StepIn(rng, i, key)
    {
      StepsOneMore(rng, n, key);
      assert Find(after, key).Some? <==> Find(buckets, key).Some? || key == added;
    }
  }

  lemma ZeroedAll(rng: Range, buckets: Dict<Bucket>, n: nat)
    requires ZeroedUpTo(rng, buckets, n)
    requires Instant(rng, n) >= rng.end && forall i: nat :: i < n ==> Instant(rng, i) < rng.end
    ensures forall key :: Find(buckets, key).Some? <==> Visited(rng, key)
  {
    forall i: nat | i >= n
      ensures Instant(rng, i) >= rng.end
    {
      assert Instant(rng, i) == Instant(rng, n) + (i - n) * Stride(rng.granularity);
    }
  }

  /** Start every bucket of the range at zero, stepping an hour or a day at a time. */
  method EmptyBuckets(rng: Range) returns (buckets: Dict<Bucket>)
    ensures Distinct(buckets) && Sum(buckets) == 0
    ensures forall key :: Find(buckets, key).Some? <==> Visited(rng, key)
    ensures forall key :: Get(buckets, key) == 0
  {
    buckets := [];
    var t := rng.start;
    ghost var n: nat := 0;
    while t < rng.end
      invariant t == Instant(rng, n)
      invariant ZeroedUpTo(rng, buckets, n)
      invariant forall i: nat :: i < n ==> Instant(rng, i) < rng.end
      decreases rng.end - t
    {
      ZeroOneMore(rng, buckets, n);
      buckets := Bump(buckets, BucketKey(t, rng.granularity), 0);
      t := t + Stride(rng.granularity);
      n := n + 1;
    }
    ZeroedAll(rng, buckets, n);
  }

  /** Add each per-day count into its bucket, if the series has that bucket. */
  method AddCounts(rng: Range, zero: Dict<Bucket>, counts: Dict<nat>) returns (buckets: Dict<Bucket>)
    requires Distinct(zero) && Sum(zero) == 0
    requires forall key :: Find(zero, key).Some? <==> Visited(rng, key)
    requires forall key :: Get(zero, key) == 0
    ensures forall key :: Find(buckets, key).Some? <==> Visited(rng, key)
    ensures forall key :: Visited(rng, key) ==> Get(buckets, key) == CountFor(counts, rng.granularity, key)
    ensures Sum(buckets) == Kept(rng, counts)
  {
    buckets := zero;
    for i := 0 to |counts|
      invariant Distinct(buckets)
      invariant forall key :: Find(buckets, key).Some? <==> Visited(rng, key)
      invariant forall key :: Visited(rng, key) ==> Get(buckets, key) == CountFor(counts[..i], rng.granularity, key)
      invariant Sum(buckets) == Kept(rng, counts[..i])
    {
      var (day, value) := counts[i];
      var key := KeyOfDay(day, rng.granularity);
      assert counts[..i + 1][..i] == counts[..i];
      if Find(buckets, key).Some? {
        BumpAdds(buckets, key, value);
        buckets := Bump(buckets, key, value);
      }
    }
    assert counts[..|counts|] == counts;
  }

  /** The series of a range: a bucket for each step, holding the sum of the days that fall in it. */
  method FillSeries(rng: Range, counts: Dict<nat>) returns (buckets: Dict<Bucket>)
    ensures forall key :: Find(buckets, key).Some? <==> Visited(rng, key)
    ensures forall key :: Visited(rng, key) ==> Get(buckets, key) == CountFor(counts, rng.granularity, key)
    ensures Sum(buckets) == Kept(rng, counts)
  {
    var zero := EmptyBuckets(rng);
    buckets := AddCounts(rng, zero, counts);
  }

  // ---------- from rows to days ----------

  predicate InRange(rng: Range, r: Row) {
    rng.start <= r.at < rng.end
  }

  /** The grouped query: the sum of each day that has a row in the range. */
  function DailySums(rng: Range, rows: seq<Row>): (d: Dict<nat>)
  {
    if rows == [] then []
    else
      var r := rows[|rows| - 1];
      var d := DailySums(rng, rows[..|rows| - 1]);
      if InRange(rng, r) then Bump<nat>(d, r.at / DAY, r.amount) else d
  }

  /** The ungrouped query over the same rows. */
  function SumRows(rng: Range, rows: seq<Row>): int {
    if rows == [] then 0
    else
      var r := rows[|rows| - 1];
      SumRows(rng, rows[..|rows| - 1]) + (if InRange(rng, r) then r.amount else 0)
  }

  /** The series total that rows end up in. */
  ghost function SeriesTotal(rng: Range, rows: seq<Row>): int {
    Kept(rng, DailySums(rng, rows))
  }

  lemma {:induction false} KeptUpdate(rng: Range, d: Dict<nat>, i: nat, v: int)
    requires i < |d|
    ensures Kept(rng, d[i := (d[i].0, v)]) ==
            Kept(rng, d) + (if Visited(rng, KeyOfDay(d[i].0, rng.granularity)) then v - d[i].1 else 0)
  {
    var last := |d| - 1;
    if i == last {
      assert d[i := (d[i].0, v)][..last] == d[..last];
    } else {
      KeptUpdate(rng, d[..last], i, v);
      assert d[i := (d[i].0, v)][..last] == d[..last][i := (d[i].0, v)];
    }
  }

  lemma KeptBump(rng: Range, d: Dict<nat>, day: nat, v: int)
    ensures Kept(rng, Bump<nat>(d, day, v)) == Kept(rng, d) + (if Visited(rng, KeyOfDay(day, rng.granularity)) then v else 0)
  {
    var i := Find(d, day);
    if i.Some? {
      KeptUpdate(rng, d, i.value, d[i.value].1 + v);
    } else {
      assert Bump<nat>(d, day, v)[..|d|] == d;
    }
  }

  /** The amounts of the rows in the range whose day falls into the bucket. */
  function AmountIn(rng: Range, rows: seq<Row>, key: Bucket): int {
    if rows == [] then 0
    else
      var r := rows[|rows| - 1];
      AmountIn(rng, rows[..|rows| - 1], key)
      + (if rng.start <= r.at < rng.end && KeyOfDay(r.at / DAY, rng.granularity) == key then r.amount else 0)
  }

  lemma {:induction false} CountForUpdate(d: Dict<nat>, i: nat, v: int, g: Granularity, key: Bucket)
    requires i < |d|
    ensures CountFor(d[i := (d[i].0, v)], g, key) == CountFor(d, g, key) + (if KeyOfDay(d[i].0, g) == key then v - d[i].1 else 0)
  {
    var last := |d| - 1;
    if i == last {
      assert d[i := (d[i].0, v)][..last] == d[..last];
    } else {
      CountForUpdate(d[..last], i, v, g, key);
      assert d[i := (d[i].0, v)][..last] == d[..last][i := (d[i].0, v)];
    }
  }

  lemma CountForBump(d: Dict<nat>, day: nat, v: int, g: Granularity, key: Bucket)
    ensures CountFor(Bump<nat>(d, day, v), g, key) == CountFor(d, g, key) + (if KeyOfDay(day, g) == key then v else 0)
  {
    var i := Find(d, day);
    if i.Some? {
      CountForUpdate(d, i.value, d[i.value].1 + v, g, key);
    } else {
      assert Bump<nat>(d, day, v)[..|d|] == d;
    }
  }

  lemma AmountStep(rng: Range, rows: seq<Row>, r: Row, d: Dict<nat>, key: Bucket)
    requires CountFor(d, rng.granularity, key) == AmountIn(rng, rows, key) && d == DailySums(rng, rows)
    ensures CountFor(DailySums(rng, rows + [r]), rng.granularity, key) == AmountIn(rng, rows + [r], key)
  {
    assert (rows + [r])[..|rows|] == rows;
    var day := r.at / DAY;
    if InRange(rng, r) {
      assert DailySums(rng, rows + [r]) == Bump<nat>(d, day, r.amount);
      CountForBump(d, day, r.amount, rng.granularity, key);
    } else {
      assert DailySums(rng, rows + [r]) == d;
    }
  }

  /** Summing per day first and then per bucket puts every row's amount into the bucket of its own day. */
  lemma {:induction false} BucketsHoldTheirRows(rng: Range, rows: seq<Row>, key: Bucket)
    ensures CountFor(DailySums(rng, rows), rng.granularity, key) == AmountIn(rng, rows, key)
  {
    if rows != [] {
      var init, last := rows[..|rows| - 1], rows[|rows| - 1];
      BucketsHoldTheirRows(rng, init, key);
      AmountStep(rng, init, last, DailySums(rng, init), key);
      assert init + [last] == rows;
    } else {
      assert DailySums(rng, rows) == [];
    }
  }

  /** No instant of the range falls on a day whose bucket is missing. */
  ghost predicate Lossless(rng: Range) {
    forall t: nat :: rng.start <= t < rng.end ==> Visited(rng, KeyOfDay(t / DAY, rng.granularity))
  }

  lemma {:induction false} LosslessConserves(rng: Range, rows: seq<Row>)
    requires Lossless(rng)
    ensures SeriesTotal(rng, rows) == SumRows(rng, rows)
  {
    if rows != [] {
      var r := rows[|rows| - 1];
      var d := DailySums(rng, rows[..|rows| - 1]);
      LosslessConserves(rng, rows[..|rows| - 1]);
      KeptBump(rng, d, r.at / DAY, r.amount);
      if InRange(rng, r) {
        assert Visited(rng, KeyOfDay(r.at / DAY, rng.granularity));
        assert DailySums(rng, rows) == Bump<nat>(d, r.at / DAY, r.amount);
      } else {
        assert DailySums(rng, rows) == d;
      }
    } else {
      assert DailySums(rng, rows) == [];
    }
  }

  /** A range keeps every row's amount, whatever the rows are, exactly when it is lossless. */
  lemma ConservesIffLossless(rng: Range)
    ensures Lossless(rng) <==> forall rows :: SeriesTotal(rng, rows) == SumRows(rng, rows)
  {
    if Lossless(rng) {
      forall rows
        ensures SeriesTotal(rng, rows) == SumRows(rng, rows)
      {
        LosslessConserves(rng, rows);
      }
    } else {
      var t: nat :| rng.start <= t < rng.end && !Visited(rng, KeyOfDay(t / DAY, rng.granularity));
      var rows := [Row(t, 1)];
      assert rows[..|rows| - 1] == [] && DailySums(rng, []) == [] && SumRows(rng, []) == 0;
      KeptBump(rng, [], t / DAY, 1);
      assert DailySums(rng, rows) == Bump<nat>([], t / DAY, 1);
      assert SeriesTotal(rng, rows) == 0 && SumRows(rng, rows) == 1;
    }
  }

  /** The revenue endpoint: an empty series, then the daily sums added into it. */
  method Revenue(rng: Range, rows: seq<Row>) returns (series: Dict<Bucket>)
    ensures forall key :: Find(series, key).Some? <==> Visited(rng, key)
    ensures forall key :: Visited(rng, key) ==> Get(series, key) == AmountIn(rng, rows, key)
    ensures Sum(series) == SeriesTotal(rng, rows)
    ensures Lossless(rng) ==> Sum(series) == SumRows(rng, rows)
  {
    var base := EmptyBuckets(rng);
    series := AddCounts(rng, base, DailySums(rng, rows));
    forall key ensures CountFor(DailySums(rng, rows), rng.granularity, key) == AmountIn(rng, rows, key) {
      BucketsHoldTheirRows(rng, rows, key);
    }
    if Lossless(rng) {
      LosslessConserves(rng, rows);
    }
  }

  // ---------- which ranges are lossless ----------

  function TimeOfDay(t: nat): nat {
    t % DAY
  }

  /** For day, week and month series every day before the last one is stepped on. */
  lemma EarlierDaysVisited(rng: Range, t: nat)
    requires rng.granularity != ByHour && rng.start <= t < rng.end
    requires t / DAY < (rng.end - 1) / DAY || TimeOfDay(rng.start) <= TimeOfDay(rng.end - 1)
    ensures Visited(rng, KeyOfDay(t / DAY, rng.granularity))
  {
    var i := t / DAY - rng.start / DAY;
    assert rng.start + i * DAY == t / DAY * DAY + TimeOfDay(rng.start);
    assert (rng.start + i * DAY) / DAY == t / DAY;
    assert Instant(rng, i) < rng.end;
    assert StepIn(rng, i, KeyOfDay(t / DAY, rng.granularity));
  }

  lemma WeekAndMonthAreIntervals(d: nat, e: nat, g: Granularity)
    requires d < e && KeyOfDay(d, g) == KeyOfDay(e, g)
    ensures KeyOfDay(e - 1, g) == KeyOfDay(e, g)
  {
    if g == ByMonth {
      MonthIsInterval(d, e);
    } else {
      assert d / 7 <= (e - 1) / 7 <= e / 7;
    }
  }

  lemma MonthIsInterval(d: nat, e: nat)
    requires d < e && CivilDates.MonthOf(d) == CivilDates.MonthOf(e)
    ensures CivilDates.MonthOf(e - 1) == CivilDates.MonthOf(e)
  {
    CivilDates.MonthOfOrdered(d, e - 1);
    CivilDates.MonthOfOrdered(e - 1, e);
  }

  /** The last calendar day of the range shares its bucket with the day before, which is also in the range. */
  predicate LastDayShared(rng: Range)
    requires rng.start < rng.end
  {
    var last := (rng.end - 1) / DAY;
    rng.start / DAY < last && KeyOfDay(last - 1, rng.granularity) == KeyOfDay(last, rng.granularity)
  }

  lemma LastDayKept(rng: Range)
    requires rng.granularity != ByHour && rng.start < rng.end
    requires TimeOfDay(rng.start) <= TimeOfDay(rng.end - 1) || LastDayShared(rng)
    ensures Visited(rng, KeyOfDay((rng.end - 1) / DAY, rng.granularity))
  {
    if TimeOfDay(rng.start) <= TimeOfDay(rng.end - 1) {
      EarlierDaysVisited(rng, rng.end - 1);
    } else {
      var last := (rng.end - 1) / DAY;
      var earlier := Max(rng.start, (last - 1) * DAY);
      assert earlier / DAY == last - 1;
      EarlierDaysVisited(rng, earlier);
    }
  }

  /** A day series steps a day at a time and always at the same time of day. */
  lemma InstantDay(rng: Range, i: nat)
    requires rng.granularity != ByHour
    ensures Instant(rng, i) / DAY == rng.start / DAY + i && TimeOfDay(Instant(rng, i)) == TimeOfDay(rng.start)
  {
    assert Instant(rng, i) == rng.start + i * DAY;
  }

  /** A step before the last day is in its bucket only if the day before the last one is. */
  lemma StepMissesLastDay(rng: Range, i: nat)
    requires rng.granularity != ByHour && rng.start < rng.end && Instant(rng, i) < rng.end
    requires TimeOfDay(rng.start) > TimeOfDay(rng.end - 1) && !LastDayShared(rng)
    ensures !StepIn(rng, i, KeyOfDay((rng.end - 1) / DAY, rng.granularity))
  {
    var g, d, last := rng.granularity, Instant(rng, i) / DAY, (rng.end - 1) / DAY;
    InstantDay(rng, i);
    assert Instant(rng, i) <= rng.end - 1;
    assert d < last;
    if KeyOfDay(d, g) == KeyOfDay(last, g) {
      WeekAndMonthAreIntervals(d, last, g);
    }
  }

  lemma LastDayLost(rng: Range)
    requires rng.granularity != ByHour && rng.start < rng.end
    requires TimeOfDay(rng.start) > TimeOfDay(rng.end - 1) && !LastDayShared(rng)
    ensures !Visited(rng, KeyOfDay((rng.end - 1) / DAY, rng.granularity))
  {
    forall i: nat | Instant(rng, i) < rng.end
      ensures !StepIn(rng, i, KeyOfDay((rng.end - 1) / DAY, rng.granularity))
    {
      StepMissesLastDay(rng, i);
    }
  }

  /**
    The exact condition for day, week and month series: the only day that can go missing is the last one, and it does
    when the range starts later in the day than it ends, unless its bucket is there on another day's account.
   */
  lemma LosslessExactly(rng: Range)
    requires rng.granularity != ByHour && rng.start < rng.end
    ensures Lossless(rng) <==> TimeOfDay(rng.start) <= TimeOfDay(rng.end - 1) || LastDayShared(rng)
    ensures forall t: nat :: rng.start <= t < rng.end && t / DAY < (rng.end - 1) / DAY ==> Visited(rng, KeyOfDay(t / DAY, rng.granularity))
  {
    forall t: nat | rng.start <= t < rng.end && t / DAY < (rng.end - 1) / DAY
      ensures Visited(rng, KeyOfDay(t / DAY, rng.granularity))
    {
      EarlierDaysVisited(rng, t);
    }
    if TimeOfDay(rng.start) <= TimeOfDay(rng.end - 1) || LastDayShared(rng) {
      LastDayKept(rng);
      forall t: nat | rng.start <= t < rng.end
        ensures Visited(rng, KeyOfDay(t / DAY, rng.granularity))
      {
        assert t / DAY <= (rng.end - 1) / DAY;
      }
    } else {
      LastDayLost(rng);
      assert !Visited(rng, KeyOfDay((rng.end - 1) / DAY, rng.granularity));
    }
  }

  /** A range that starts at midnight loses nothing, at any granularity. */
  lemma MidnightStartIsLossless(rng: Range)
    requires TimeOfDay(rng.start) == 0
    ensures Lossless(rng)
  {
    forall t: nat | rng.start <= t < rng.end
      ensures Visited(rng, KeyOfDay(t / DAY, rng.granularity))
    {
      if rng.granularity == ByHour {
        var midnight := t / DAY * DAY;
        var i := (t / DAY - rng.start / DAY) * 24;
        assert rng.start + i * HOUR == midnight;
        assert midnight / HOUR == 24 * (t / DAY);
        assert Instant(rng, i) < rng.end;
        assert StepIn(rng, i, KeyOfDay(t / DAY, ByHour));
      } else {
        EarlierDaysVisited(rng, t);
      }
    }
  }

  // ---------- the range presets ----------

  function PresetDays(spec: string): nat {
    if spec == "7d" then 7 else if spec == "90d" then 90 else 30
  }

  /** The text of a custom bound: absent or empty, not a date, or an instant. */
  datatype Bound = Absent | Unreadable | At(instant: nat)

  datatype RangeError = InvalidCustomRange

  /** Custom bounds are used only when both are given; given ones that are no dates are an error. */
  function ParseRange(spec: Option<string>, from: Bound, to: Bound, now: nat): Result<Range, RangeError>
    requires now >= 90 * DAY
  {
    if spec == Some("today") then Ok(Range(now / DAY * DAY, now, ByHour))
    else if spec == Some("custom") && !from.Absent? && !to.Absent? then
      if from.Unreadable? || to.Unreadable? then Err(InvalidCustomRange) else Ok(Range(from.instant, to.instant, ByDay))
    else
      var name := if spec.Some? && spec.value != "" then spec.value else "30d";
      Ok(Range(now - PresetDays(name) * DAY, now, if name == "7d" then ByDay else ByWeek))
  }

  lemma MidnightOf(t: nat)
    ensures TimeOfDay(t / DAY * DAY) == 0 && t / DAY * DAY <= t < t / DAY * DAY + DAY
  {
  }

  /** What each text of a range asks for; any other is the last thirty days by week. */
  lemma RangeOutcome(spec: Option<string>, from: Bound, to: Bound, now: nat)
    requires now >= 90 * DAY
    ensures var r := ParseRange(spec, from, to, now);
            && (spec == Some("today") ==> r.Ok? && r.value.end == now && r.value.granularity == ByHour
                                          && r.value.start <= now < r.value.start + DAY && TimeOfDay(r.value.start) == 0)
            && (spec == Some("custom") && from.At? && to.At? ==> r == Ok(Range(from.instant, to.instant, ByDay)))
            && (r.Err? <==> spec == Some("custom") && !from.Absent? && !to.Absent? && !(from.At? && to.At?))
            && (spec == Some("7d") ==> r == Ok(Range(now - 7 * DAY, now, ByDay)))
            && (spec == Some("90d") ==> r == Ok(Range(now - 90 * DAY, now, ByWeek)))
            && (spec.None? || spec.value !in {"today", "7d", "90d", "custom"} ==> r == Ok(Range(now - 30 * DAY, now, ByWeek)))
            && (spec == Some("custom") && (from.Absent? || to.Absent?) ==> r == Ok(Range(now - 30 * DAY, now, ByWeek)))
  {
    assert "custom"[0] != "today"[0] && |"7d"| == 2 && |"90d"| == 3 && |"30d"| == 3 && "30d"[0] != "90d"[0];
    MidnightOf(now);
  }

  /** Hourly series come only from "today", which starts at midnight and so loses nothing. */
  lemma HourlyIsLossless(spec: Option<string>, from: Bound, to: Bound, now: nat)
    requires now >= 90 * DAY && ParseRange(spec, from, to, now).Ok? && ParseRange(spec, from, to, now).value.granularity == ByHour
    ensures Lossless(ParseRange(spec, from, to, now).value)
  {
    MidnightOf(now);
    MidnightStartIsLossless(ParseRange(spec, from, to, now).value);
  }

  lemma PresetEnds(now: nat, days: nat)
    requires days in {7, 30, 90} && now >= 90 * DAY
    ensures TimeOfDay(now - days * DAY) == TimeOfDay(now)
    ensures TimeOfDay(now) == 0 || TimeOfDay(now - 1) == TimeOfDay(now) - 1
    ensures TimeOfDay(now) == 0 ==> TimeOfDay(now - 1) == DAY - 1
    ensures TimeOfDay(now) > 0 ==> (now - 1) / DAY == now / DAY
    ensures (now - days * DAY) / DAY == now / DAY - days
  {
    assert now == now / DAY * DAY + now % DAY;
    if now % DAY == 0 {
      assert now - 1 == (now / DAY - 1) * DAY + (DAY - 1);
    }
  }

  /** "7d" is a day series that drops the current day, except at the stroke of midnight. */
  lemma SevenDaysDropsToday(from: Bound, to: Bound, now: nat)
    requires now >= 90 * DAY
    ensures var r := ParseRange(Some("7d"), from, to, now);
            r.Ok? && (Lossless(r.value) <==> now % DAY == 0)
  {
    PresetEnds(now, 7);
    LosslessExactly(ParseRange(Some("7d"), from, to, now).value);
  }

  /** The weekly presets drop the current day on Mondays only, when no earlier day has opened its week's bucket. */
  lemma WeeklyDropsMondays(spec: Option<string>, from: Bound, to: Bound, now: nat)
    requires now >= 90 * DAY && ParseRange(spec, from, to, now).Ok? && ParseRange(spec, from, to, now).value.granularity == ByWeek
    ensures Lossless(ParseRange(spec, from, to, now).value) <==> now % DAY == 0 || now / DAY % 7 != 0
  {
    var rng := ParseRange(spec, from, to, now).value;
    var days := PresetDays(if spec.Some? && spec.value != "" then spec.value else "30d");
    PresetEnds(now, days);
    LosslessExactly(rng);
    var today := now / DAY;
    assert today > 0 && ((today - 1) / 7 == today / 7 <==> today % 7 != 0);
  }
}
