/** Ranking of scored candidates and the walk over pages of the ranked list. */
module Feed {
  import opened Common
  import opened Decimal

  datatype Item = Item(candidate: nat, score: int)

  // ---------- ranking ----------

  ghost predicate Descending(items: seq<Item>) {
    forall i, j :: 0 <= i <= j < |items| ==> items[i].score >= items[j].score
  }

  /** The items with one score, in order. */
  function WithScore(items: seq<Item>, score: int): seq<Item> {
    if items == [] then []
    else WithScore(items[..|items| - 1], score) + (if items[|items| - 1].score == score then [items[|items| - 1]] else [])
  }

  /** A sort by descending score in which equal scores keep their order. */
  ghost predicate RankingOf(ranked: seq<Item>, items: seq<Item>) {
    && Descending(ranked)
    && multiset(ranked) == multiset(items)
    && forall score :: WithScore(ranked, score) == WithScore(items, score)
  }

  /** Put an item behind every item that scores at least as much. */
  function Insert(ranked: seq<Item>, x: Item): (r: seq<Item>)
    ensures |r| == |ranked| + 1
  {
    if ranked == [] || ranked[|ranked| - 1].score >= x.score then ranked + [x]
    else Insert(ranked[..|ranked| - 1], x) + [ranked[|ranked| - 1]]
  }

  function Rank(items: seq<Item>): seq<Item> {
    if items == [] then [] else Insert(Rank(items[..|items| - 1]), items[|items| - 1])
  }

  lemma {:induction false} InsertElements(ranked: seq<Item>, x: Item)
    ensures multiset(Insert(ranked, x)) == multiset(ranked) + multiset{x}
  {
    var n := |ranked|;
    if n > 0 && ranked[n - 1].score < x.score {
      InsertElements(ranked[..n - 1], x);
      assert ranked == ranked[..n - 1] + [ranked[n - 1]];
    }
  }

  lemma {:induction false} InsertDescending(ranked: seq<Item>, x: Item)
    requires Descending(ranked)
    ensures Descending(Insert(ranked, x))
  {
    var n := |ranked|;
    if n > 0 && ranked[n - 1].score < x.score {
      var init := ranked[..n - 1];
      InsertDescending(init, x);
      InsertElements(init, x);
      forall i | 0 <= i < n
        ensures Insert(init, x)[i].score >= ranked[n - 1].score
      {
        assert Insert(init, x)[i] in multiset(init) + multiset{x};
      }
    }
  }

  lemma {:induction false} InsertStable(ranked: seq<Item>, x: Item, score: int)
    requires Descending(ranked)
    ensures WithScore(Insert(ranked, x), score) == WithScore(ranked, score) + (if x.score == score then [x] else [])
  {
    var n := |ranked|;
    var r := Insert(ranked, x);
    assert r[..n] == if n == 0 || ranked[n - 1].score >= x.score then ranked else Insert(ranked[..n - 1], x);
    if n > 0 && ranked[n - 1].score < x.score {
      InsertStable(ranked[..n - 1], x, score);
    }
  }

  /** The insertion sort is a stable descending sort. */
  lemma {:induction false} RankRanks(items: seq<Item>)
    ensures RankingOf(Rank(items), items)
  {
    if items != [] {
      var n := |items| - 1;
      RankRanks(items[..n]);
      var ranked := Rank(items[..n]);
      InsertElements(ranked, items[n]);
      InsertDescending(ranked, items[n]);
      assert items == items[..n] + [items[n]];
      forall score
        ensures WithScore(Rank(items), score) == WithScore(items, score)
      {
        InsertStable(ranked, items[n], score);
        assert WithScore(items, score) == WithScore(items[..n], score) + (if items[n].score == score then [items[n]] else []);
      }
    }
  }

  /** There is only one: any two stable descending sorts of the same candidates are the same list. */
  lemma {:induction false} RankingUnique(a: seq<Item>, b: seq<Item>)
    requires Descending(a) && Descending(b)
    requires forall score :: WithScore(a, score) == WithScore(b, score)
    ensures a == b
    decreases |a| + |b|
  {
    if a == [] && b == [] {
    } else if a == [] {
      LastOfScore(b);
    } else if b == [] {
      LastOfScore(a);
    } else {
      var x, y := a[|a| - 1], b[|b| - 1];
      SameLast(a, b);
      var a0, b0 := a[..|a| - 1], b[..|b| - 1];
      forall score
        ensures WithScore(a0, score) == WithScore(b0, score)
      {
        assert WithScore(a, score) == WithScore(a0, score) + (if x.score == score then [x] else []);
        assert WithScore(b, score) == WithScore(b0, score) + (if x.score == score then [x] else []);
        assert WithScore(a, score) == WithScore(b, score);
        SameWithoutLast(WithScore(a0, score), WithScore(b0, score), if x.score == score then [x] else []);
      }
      RankingUnique(a0, b0);
      assert a == a0 + [x] && b == b0 + [y];
    }
  }

  lemma SameWithoutLast(u: seq<Item>, v: seq<Item>, w: seq<Item>)
    requires u + w == v + w
    ensures u == v
  {
    assert |u + w| == |v + w|;
    assert u == (u + w)[..|u|] && v == (v + w)[..|v|];
  }

  lemma SameLast(a: seq<Item>, b: seq<Item>)
    requires a != [] && b != [] && Descending(a) && Descending(b)
    requires forall score :: WithScore(a, score) == WithScore(b, score)
    ensures a[|a| - 1] == b[|b| - 1]
  {
    LastScoreNoHigher(a, b);
    LastScoreNoHigher(b, a);
    LastOfScore(a);
    LastOfScore(b);
    assert WithScore(a, a[|a| - 1].score) == WithScore(b, b[|b| - 1].score);
  }

  lemma LastScoreNoHigher(a: seq<Item>, b: seq<Item>)
    requires a != [] && b != [] && Descending(a)
    requires WithScore(a, b[|b| - 1].score) == WithScore(b, b[|b| - 1].score)
    ensures a[|a| - 1].score <= b[|b| - 1].score
  {
    var score := b[|b| - 1].score;
    LastOfScore(b);
    InScore(a, score);
    var i :| 0 <= i < |a| && a[i].score == score;
  }

  lemma LastOfScore(a: seq<Item>)
    requires a != []
    ensures var w := WithScore(a, a[|a| - 1].score);
            w != [] && w[|w| - 1] == a[|a| - 1]
  {
  }

  /** Something has the score exactly when its sub-list is not empty. */
  lemma {:induction false} InScore(a: seq<Item>, score: int)
    ensures WithScore(a, score) != [] <==> exists i :: 0 <= i < |a| && a[i].score == score
  {
    if a != [] {
      InScore(a[..|a| - 1], score);
      assert a == a[..|a| - 1] + [a[|a| - 1]];
    }
  }

  /** The feed: candidates in table order, sorted in place by score. */
  method ComputeFeed(scored: seq<Item>) returns (feed: seq<Item>)
    ensures RankingOf(feed, scored)
    ensures forall other :: RankingOf(other, scored) ==> other == feed
  {
    feed := [];
    for i := 0 to |scored|
      invariant feed == Rank(scored[..i])
    {
      assert scored[..i + 1][..i] == scored[..i];
      feed := Insert(feed, scored[i]);
    }
    assert scored[..|scored|] == scored;
    RankRanks(scored);
    forall other | RankingOf(other, scored)
      ensures other == feed
    {
      RankingUnique(other, feed);
    }
  }

  // ---------- pages ----------

  datatype Page = Page(items: seq<Item>, next: Option<string>)

  function Start(cursor: Option<string>): nat {
    if cursor.Some? && IsNumeral(cursor.value) then Parse(cursor.value) else 0
  }

  /** Slicing as the language does it: bounds past the end are clipped. */
  function Slice(items: seq<Item>, from: nat, to: nat): seq<Item>
    requires from <= to
  {
    items[Min(from, |items|)..Min(to, |items|)]
  }

  function PageAt(items: seq<Item>, limit: nat, cursor: Option<string>): Page {
    var start := Start(cursor);
    Page(Slice(items, start, start + limit), if start + limit < |items| then Some(Print(start + limit)) else None)
  }

  /** The pages a client gets by following `next_cursor` over an unchanged list. */
  function Walk(items: seq<Item>, limit: nat, cursor: Option<string>): seq<Page>
    requires limit >= 1
    decreases Max(|items| - Start(cursor), 0)
  {
    var page := PageAt(items, limit, cursor);
    if page.next.None? then [page]
    else
      ParsePrint(Start(cursor) + limit);
      [page] + Walk(items, limit, page.next)
  }

  function Concat(pages: seq<Page>): seq<Item> {
    if pages == [] then [] else pages[0].items + Concat(pages[1..])
  }

  function CeilDiv(n: nat, d: nat): nat
    requires d >= 1
  {
    (n + d - 1) / d
  }

  lemma CeilDivStep(n: nat, d: nat)
    requires d >= 1 && n > d
    ensures CeilDiv(n, d) == 1 + CeilDiv(n - d, d)
  {
    assert n + d - 1 == (n - d + d - 1) + d;
    DivPlusOne(n - 1, d);
  }

  lemma DivPlusOne(m: nat, d: nat)
    requires d >= 1
    ensures (m + d) / d == m / d + 1
  {
    assert m + d == d * (m / d + 1) + m % d;
    QuotientUnique(m + d, d, m / d + 1, m % d);
  }

  lemma CeilDivOne(n: nat, d: nat)
    requires 1 <= n <= d
    ensures CeilDiv(n, d) == 1
  {
    DivPlusOne(n - 1, d);
  }

  lemma ConcatFirst(page: Page, rest: seq<Page>)
    ensures Concat([page] + rest) == page.items + Concat(rest)
  {
    assert ([page] + rest)[1..] == rest;
  }

  lemma WalkUnfolds(items: seq<Item>, limit: nat, cursor: Option<string>)
    requires limit >= 1 && Start(cursor) <= |items|
    ensures var start := Start(cursor);
            var pages := Walk(items, limit, cursor);
            if start + limit < |items|
            then var next := Some(Print(start + limit));
                 Start(next) == start + limit && pages == [Page(items[start..start + limit], next)] + Walk(items, limit, next)
            else pages == [Page(items[start..], None)]
  {
    ParsePrint(Start(cursor) + limit);
    assert items[Start(cursor)..|items|] == items[Start(cursor)..];
  }

  lemma SplitTail(items: seq<Item>, a: nat, b: nat)
    requires a <= b <= |items|
    ensures items[a..] == items[a..b] + items[b..]
  {
  }

  /** From any cursor inside the list the walk delivers exactly the rest of it. */
  lemma {:induction false} WalkDelivers(items: seq<Item>, limit: nat, cursor: Option<string>)
    requires limit >= 1 && Start(cursor) <= |items|
    ensures Concat(Walk(items, limit, cursor)) == items[Start(cursor)..]
    decreases |items| - Start(cursor)
  {
    var start := Start(cursor);
    var end := start + limit;
    WalkUnfolds(items, limit, cursor);
    if end < |items| {
      var next := Some(Print(end));
      WalkDelivers(items, limit, next);
      ConcatFirst(Page(items[start..end], next), Walk(items, limit, next));
      SplitTail(items, start, end);
    } else {
      LastPage(items[start..]);
    }
  }

  lemma LastPage(items: seq<Item>)
    ensures Concat([Page(items, None)]) == items
  {
    assert [Page(items, None)][1..] == [];
  }

  /** Every page but the last is full. */
  lemma {:induction false} PagesAreFull(items: seq<Item>, limit: nat, cursor: Option<string>)
    requires limit >= 1 && Start(cursor) <= |items|
    ensures var pages := Walk(items, limit, cursor);
            pages != [] && forall i :: 0 <= i < |pages| - 1 ==> |pages[i].items| == limit
    decreases |items| - Start(cursor)
  {
    var start := Start(cursor);
    WalkUnfolds(items, limit, cursor);
    if start + limit < |items| {
      PagesAreFull(items, limit, Some(Print(start + limit)));
    }
  }

  lemma OneMorePage(n: nat, limit: nat)
    requires limit >= 1 && n > limit
    ensures Max(1, CeilDiv(n, limit)) == 1 + Max(1, CeilDiv(n - limit, limit))
  {
    CeilDivStep(n, limit);
    CeilDivPositive(n - limit, limit);
  }

  lemma OnePage(n: nat, limit: nat)
    requires n <= limit && limit >= 1
    ensures Max(1, CeilDiv(n, limit)) == 1
  {
    if n == 0 {
      QuotientUnique(limit - 1, limit, 0, limit - 1);
    } else {
      CeilDivOne(n, limit);
    }
  }

  lemma {:induction false} WalkLength(items: seq<Item>, limit: nat, cursor: Option<string>)
    requires limit >= 1 && Start(cursor) <= |items|
    ensures |Walk(items, limit, cursor)| == Max(1, CeilDiv(|items| - Start(cursor), limit))
    decreases |items| - Start(cursor)
  {
    var start := Start(cursor);
    WalkUnfolds(items, limit, cursor);
    if start + limit < |items| {
      WalkLength(items, limit, Some(Print(start + limit)));
      OneMorePage(|items| - start, limit);
    } else {
      OnePage(|items| - start, limit);
    }
  }

  lemma CeilDivPositive(n: nat, d: nat)
    requires d >= 1 && n >= 1
    ensures CeilDiv(n, d) >= 1
  {
    DivPlusOne(n - 1, d);
  }

  /** From the first request, the pages are max(1, ceil(n / limit)) many and concatenate to the whole list. */
  lemma WalkIsWholeFeed(items: seq<Item>, limit: nat)
    requires limit >= 1
    ensures Concat(Walk(items, limit, None)) == items
    ensures |Walk(items, limit, None)| == Max(1, CeilDiv(|items|, limit))
  {
    WalkDelivers(items, limit, None);
    WalkLength(items, limit, None);
  }

  /** Without a cursor, or with one that is no number, the page is the first. */
  lemma NoCursorIsFirst(items: seq<Item>, limit: nat, cursor: Option<string>)
    requires cursor.None? || !IsNumeral(cursor.value)
    ensures PageAt(items, limit, cursor).items == items[..Min(limit, |items|)]
    ensures PageAt(items, limit, cursor).next == if limit < |items| then Some(Print(limit)) else None
  {
  }

  /** A printed offset gives the items from there on, and the next offset exactly while items remain. */
  lemma CursorIsOffset(items: seq<Item>, limit: nat, k: nat)
    ensures var page := PageAt(items, limit, Some(Print(k)));
            && (k >= |items| ==> page.items == [])
            && (k < |items| ==> page.items == items[k..Min(k + limit, |items|)])
            && page.next == if k + limit < |items| then Some(Print(k + limit)) else None
  {
    ParsePrint(k);
  }

  // ---------- the service and its cache ----------

  const TTL: nat := 900  // seconds

  datatype CachedFeed = CachedFeed(items: seq<Item>, expiresAt: nat)

  /** A request of the feed: when, what scoring gives (nothing without a profile), and whether Redis reads and writes. */
  datatype Visit = Visit(at: nat, scored: Option<seq<Item>>, readable: bool, writable: bool)

  /** The list a read of the cache finds, if any. */
  function Cached(cache: Option<CachedFeed>, v: Visit): Option<seq<Item>> {
    if v.readable && cache.Some? && v.at < cache.value.expiresAt then Some(cache.value.items) else None
  }

  /** A fresh feed; a viewer without a profile has no scored candidates and gets an empty one. */
  function Fresh(scored: Option<seq<Item>>): seq<Item> {
    if scored.None? then [] else Rank(scored.value)
  }

  function Shown(cache: Option<CachedFeed>, v: Visit): seq<Item> {
    Cached(cache, v).GetOr(Fresh(v.scored))
  }

  function After(cache: Option<CachedFeed>, v: Visit): Option<CachedFeed> {
    if Cached(cache, v).None? && v.writable then Some(CachedFeed(Fresh(v.scored), v.at + TTL)) else cache
  }

  function AfterAll(visits: seq<Visit>): Option<CachedFeed> {
    if visits == [] then None else After(AfterAll(visits[..|visits| - 1]), visits[|visits| - 1])
  }

  /** One viewer's feed endpoint: the cached list, or a fresh one when the cache is empty, expired or unreachable. */
  class FeedEndpoint {
    var cache: Option<CachedFeed>

    constructor ()
      ensures cache.None?
    {
      cache := None;
    }

    method BuildFeed(v: Visit, limit: nat, cursor: Option<string>) returns (page: Page)
      modifies this
      ensures page == PageAt(Shown(old(cache), v), limit, cursor)
      ensures cache == After(old(cache), v)
    {
      // An empty list is cached as a non-empty text, so it is served; only a missing key recomputes.
      var items := Cached(cache, v);
      if items.None? {
        var computed := [];
        if v.scored.Some? {
          RankRanks(v.scored.value);
          computed := ComputeFeed(v.scored.value);
        }
        items := Some(computed);
        if v.writable {
          cache := Some(CachedFeed(computed, v.at + TTL));
        }
      }
      page := PageAt(items.value, limit, cursor);
    }
  }

  /** Visit `i` found nothing cached, and cached what it computed. */
  predicate Writes(visits: seq<Visit>, i: nat) {
    i < |visits| && visits[i].writable && Cached(AfterAll(visits[..i]), visits[i]).None?
  }

  /** Visit `i` is the last one that cached what it computed. */
  ghost predicate LastWrite(visits: seq<Visit>, i: nat) {
    Writes(visits, i) && forall k: nat :: i < k < |visits| ==> !Writes(visits, k)
  }

  lemma WritesInPrefix(visits: seq<Visit>, n: nat, i: nat)
    requires n <= |visits|
    ensures Writes(visits[..n], i) <==> i < n && Writes(visits, i)
  {
    if i < n {
      assert visits[..n][..i] == visits[..i];
    }
  }

  lemma LastWriteInPrefix(visits: seq<Visit>, i: nat)
    requires visits != [] && !Writes(visits, |visits| - 1)
    ensures LastWrite(visits[..|visits| - 1], i) <==> LastWrite(visits, i)
  {
    var n := |visits| - 1;
    WritesInPrefix(visits, n, i);
    forall k: nat | i < k < n ensures Writes(visits[..n], k) <==> Writes(visits, k) {
      WritesInPrefix(visits, n, k);
    }
  }

  /** The cache holds what the last visit that wrote had computed, for 900 seconds from then. */
  lemma {:induction false} CacheHoldsLastWrite(visits: seq<Visit>, i: nat)
    ensures LastWrite(visits, i) ==> AfterAll(visits) == Some(CachedFeed(Fresh(visits[i].scored), visits[i].at + 900))
    ensures (forall k: nat :: !Writes(visits, k)) ==> AfterAll(visits).None?
  {
    if visits != [] {
      var n := |visits| - 1;
      if Writes(visits, n) {
        assert LastWrite(visits, i) ==> i == n || !(i < n);
      } else {
        LastWriteInPrefix(visits, i);
        CacheHoldsLastWrite(visits[..n], i);
        forall k: nat ensures Writes(visits[..n], k) ==> Writes(visits, k) {
          WritesInPrefix(visits, n, k);
        }
      }
    }
  }

  lemma {:induction false} SomeLastWrite(visits: seq<Visit>, k: nat) returns (i: nat)
    requires Writes(visits, k)
    ensures LastWrite(visits, i)
  {
    var n := |visits| - 1;
    i := n;
    if !Writes(visits, n) {
      WritesInPrefix(visits, n, k);
      i := SomeLastWrite(visits[..n], k);
      LastWriteInPrefix(visits, i);
    }
  }

  /**
    After any visits, a visit is shown what the last visit that wrote had computed exactly while Redis can be read and
    less than 900 seconds have passed since; otherwise it is shown a fresh feed.
   */
  lemma FeedIsRecent(visits: seq<Visit>, v: Visit)
    ensures forall i: nat :: LastWrite(visits, i) && v.readable && v.at < visits[i].at + 900 ==>
                          Cached(AfterAll(visits), v) == Some(Fresh(visits[i].scored)) && Shown(AfterAll(visits), v) == Fresh(visits[i].scored)
    ensures !(exists i: nat :: LastWrite(visits, i) && v.readable && v.at < visits[i].at + 900) ==>
              Cached(AfterAll(visits), v).None? && Shown(AfterAll(visits), v) == Fresh(v.scored)
  {
    forall i: nat ensures LastWrite(visits, i) ==> AfterAll(visits) == Some(CachedFeed(Fresh(visits[i].scored), visits[i].at + 900)) {
      CacheHoldsLastWrite(visits, i);
    }
    if k: nat :| Writes(visits, k) {
      var i := SomeLastWrite(visits, k);
    } else {
      CacheHoldsLastWrite(visits, 0);
    }
  }
}
