/** Paging and counting over the topic statistics of one tenant (src/policy/topic-stats.go). */
module TopicStats {
  import opened Integers
  import opened Text
  import opened Sorting
  import Groups

  /** 90 seconds, in nanoseconds. */
  const FRESHNESS := 90_000_000_000

  datatype Row = Row(id: string, namespace: string, data: string, updatedAt: int)

  type Page = map<string, string>

  function NamespaceOf(r: Row): string {
    r.namespace
  }

  predicate IsFresh(r: Row, now: int) {
    now - r.updatedAt < FRESHNESS
  }

  function FreshRows(rows: seq<Row>, now: int): (live: seq<Row>)
    ensures |live| <= |rows|
  {
    if rows == [] then []
    else
      var last := rows[|rows| - 1];
      FreshRows(rows[..|rows| - 1], now) + if IsFresh(last, now) then [last] else []
  }

  lemma {:induction false} FreshRowsIn(rows: seq<Row>, now: int)
    ensures forall r :: r in FreshRows(rows, now) <==> r in rows && IsFresh(r, now)
  {
    if rows != [] {
      FreshRowsIn(rows[..|rows| - 1], now);
      assert rows == rows[..|rows| - 1] + [rows[|rows| - 1]];
    }
  }

  function Ids(rows: seq<Row>): (ids: seq<string>)
    ensures |ids| == |rows| && forall i :: 0 <= i < |rows| ==> ids[i] == rows[i].id
  {
    seq(|rows|, i requires 0 <= i < |rows| => rows[i].id)
  }

  function AllTopics(rows: seq<Row>): (topics: Page)
    ensures forall k :: k in topics <==> k in Ids(rows)
  {
    if rows == [] then map[]
    else
      var front := rows[..|rows| - 1];
      assert Ids(rows) == Ids(front) + [rows[|rows| - 1].id];
      AllTopics(front)[rows[|rows| - 1].id := rows[|rows| - 1].data]
  }

  ghost predicate DistinctIds(rows: seq<Row>) {
    forall i, j :: 0 <= i < j < |rows| ==> rows[i].id != rows[j].id
  }

  /** The same rows, as another iteration of the index may yield them. */
  ghost predicate Reordering(order: seq<Row>, rows: seq<Row>) {
    DistinctIds(order) && forall r :: r in order <==> r in rows
  }

  function SortedIds(rows: seq<Row>, now: int): seq<string> {
    SortStrings(Ids(FreshRows(rows, now)))
  }

  function Restrict(topics: Page, keys: seq<string>): Page {
    map k | k in keys && k in topics :: topics[k]
  }

  function Slice(keys: seq<string>, topics: Page, lo: nat, hi: nat): Page
    requires lo <= hi <= |keys|
  {
    Restrict(topics, keys[lo..hi])
  }

  /** What a call answers: a page, the answer for an offset beyond the total, or a panic, when the
      bounds of the page are out of order. */
  datatype Answer = Shown(totalSize: int, newOffset: int, page: Page) | NoPage | Panicked

  function KeyPage(keys: seq<string>, topics: Page, offset: int, pageSize: int): Answer {
    if offset > |keys| then NoPage
    else
      var newOffset := Min(Int64(offset + pageSize), |keys|);
      if 0 <= offset <= newOffset then Shown(|keys|, newOffset, Slice(keys, topics, offset, newOffset)) else Panicked
  }

  function PageOf(rows: seq<Row>, now: int, offset: int, pageSize: int): Answer {
    KeyPage(SortedIds(rows, now), AllTopics(FreshRows(rows, now)), offset, pageSize)
  }

  /** A page size may be anything up to the largest integer for the first page, but must leave room for
      the sum behind an offset. */
  predicate Fits(total: nat, offset: int, pageSize: int) {
    pageSize < TWO_63 && total <= MAX_LENGTH && (offset == 0 || pageSize < MAX_LENGTH)
  }

  lemma KeyPageShown(keys: seq<string>, topics: Page, offset: nat, pageSize: nat)
    requires offset <= |keys| && Fits(|keys|, offset, pageSize)
    ensures KeyPage(keys, topics, offset, pageSize) ==
            Shown(|keys|, Min(offset + pageSize, |keys|), Slice(keys, topics, offset, Min(offset + pageSize, |keys|)))
  {
  }

  /** Exactly when the call panics: short of the total, for a negative offset or page size or a sum
      beyond the largest integer. */
  lemma PanicsIff(rows: seq<Row>, now: int, offset: I64, pageSize: I64)
    requires |SortedIds(rows, now)| < TWO_63
    ensures PageOf(rows, now, offset, pageSize).Panicked? <==>
            offset <= |SortedIds(rows, now)| && (offset < 0 || pageSize < 0 || offset + pageSize >= TWO_63)
  {
  }

  /** Whatever the index holds. */
  lemma NegativeOffsetPanics(rows: seq<Row>, now: int, pageSize: I64)
    requires |SortedIds(rows, now)| < TWO_63
    ensures PageOf(rows, now, -1, pageSize).Panicked?
  {
    PanicsIff(rows, now, -1, pageSize);
  }

  lemma FreshRowsLast(rows: seq<Row>, last: Row, now: int)
    ensures FreshRows(rows + [last], now) == FreshRows(rows, now) + if IsFresh(last, now) then [last] else []
  {
  }

  lemma IdsLast(rows: seq<Row>, last: Row)
    ensures Ids(rows + [last]) == Ids(rows) + [last.id]
    ensures AllTopics(rows + [last]) == AllTopics(rows)[last.id := last.data]
  {
  }

  lemma FreshRowsNext(rows: seq<Row>, now: int, i: nat)
    requires i < |rows|
    ensures FreshRows(rows[..i + 1], now) ==
            if IsFresh(rows[i], now) then FreshRows(rows[..i], now) + [rows[i]] else FreshRows(rows[..i], now)
  {
    assert rows[..i + 1] == rows[..i] + [rows[i]];
    FreshRowsLast(rows[..i], rows[i], now);
  }

  lemma RestrictNext(topics: Page, keys: seq<string>, j: nat)
    requires j < |keys| && keys[j] in topics
    ensures Restrict(topics, keys[..j + 1]) == Restrict(topics, keys[..j])[keys[j] := topics[keys[j]]]
  {
  }

  /** `index` is what the tenant index yields, in any order; None when it cannot be read. */
  method PaginateTopicStats(index: Option<seq<Row>>, now: int, offset: I64, pageSize: I64) returns (answer: Answer)
    ensures index.None? ==> answer == NoPage
    ensures index.Some? ==> answer == PageOf(index.value, now, offset, pageSize)
  {
    if index.None? {
      return NoPage;
    }
    var rows := index.value;
    var keys, allTopics := CollectFresh(rows, now);
    var totalSize := |keys|;
    SortElements(keys, "");
    if offset > totalSize {
      return NoPage;
    }
    keys := SortStrings(keys);
    var newOffset := Int64(offset + pageSize);
    if newOffset > totalSize {
      newOffset := totalSize;
    }
    if offset < 0 || newOffset < offset {
      return Panicked;
    }
    var newMap := TakeKeys(allTopics, keys[offset..newOffset], Ids(FreshRows(rows, now)));
    return Shown(totalSize, newOffset, newMap);
  }

  /** The first loop of PaginateTopicStats. */
  method CollectFresh(rows: seq<Row>, now: int) returns (keys: seq<string>, allTopics: Page)
    ensures keys == Ids(FreshRows(rows, now)) && allTopics == AllTopics(FreshRows(rows, now))
  {
    allTopics := map[];
    keys := [];
    for i := 0 to |rows|
      invariant keys == Ids(FreshRows(rows[..i], now))
      invariant allTopics == AllTopics(FreshRows(rows[..i], now))
    {
      FreshRowsNext(rows, now, i);
      var p := rows[i];
      if IsFresh(p, now) {
        IdsLast(FreshRows(rows[..i], now), p);
        keys := keys + [p.id];
        allTopics := allTopics[p.id := p.data];
      }
    }
    assert rows[..|rows|] == rows;
  }

  /** The last loop of PaginateTopicStats. */
  method TakeKeys(allTopics: Page, reqKeys: seq<string>, ghost ids: seq<string>) returns (newMap: Page)
    requires forall k :: k in ids ==> k in allTopics
    requires forall j :: 0 <= j < |reqKeys| ==> reqKeys[j] in SortStrings(ids)
    ensures newMap == Restrict(allTopics, reqKeys)
  {
    newMap := map[];
    for j := 0 to |reqKeys|
      invariant newMap == Restrict(allTopics, reqKeys[..j])
    {
      SortElements(ids, reqKeys[j]);
      RestrictNext(allTopics, reqKeys, j);
      newMap := newMap[reqKeys[j] := allTopics[reqKeys[j]]];
    }
    assert reqKeys[..|reqKeys|] == reqKeys;
  }

  // ---- A snapshot has one listing, whatever the order of the index ----

  lemma {:induction false} FreshDistinct(rows: seq<Row>, now: int)
    requires DistinctIds(rows)
    ensures DistinctIds(FreshRows(rows, now)) && Distinct(Ids(FreshRows(rows, now)))
  {
    if rows != [] {
      var front := rows[..|rows| - 1];
      FreshDistinct(front, now);
      FreshRowsIn(front, now);
      var rest := FreshRows(front, now);
      forall i | 0 <= i < |rest|
        ensures rest[i].id != rows[|rows| - 1].id
      {
        assert rest[i] in front;
      }
    }
  }

  lemma {:induction false} AllTopicsData(rows: seq<Row>, r: Row)
    requires DistinctIds(rows) && r in rows
    ensures AllTopics(rows)[r.id] == r.data
  {
    var last := rows[|rows| - 1];
    if r != last {
      assert rows == rows[..|rows| - 1] + [last];
      AllTopicsData(rows[..|rows| - 1], r);
    }
  }

  lemma SameIds(a: seq<Row>, b: seq<Row>)
    requires forall r :: r in a <==> r in b
    ensures forall k :: k in Ids(a) <==> k in Ids(b)
  {
    forall k
      ensures k in Ids(a) <==> k in Ids(b)
    {
      if k in Ids(a) {
        var i :| 0 <= i < |a| && Ids(a)[i] == k;
        assert a[i] in b;
      }
      if k in Ids(b) {
        var i :| 0 <= i < |b| && Ids(b)[i] == k;
        assert b[i] in a;
      }
    }
  }

  lemma ListingCanonical(order: seq<Row>, rows: seq<Row>, now: int)
    requires DistinctIds(rows) && Reordering(order, rows)
    ensures SortedIds(order, now) == SortedIds(rows, now)
    ensures AllTopics(FreshRows(order, now)) == AllTopics(FreshRows(rows, now))
  {
    var a, b := FreshRows(order, now), FreshRows(rows, now);
    FreshRowsIn(order, now);
    FreshRowsIn(rows, now);
    FreshDistinct(order, now);
    FreshDistinct(rows, now);
    SameIds(a, b);
    SortCanonical(Ids(a), Ids(b));
    forall k | k in AllTopics(a)
      ensures AllTopics(a)[k] == AllTopics(b)[k]
    {
      var i :| 0 <= i < |a| && Ids(a)[i] == k;
      AllTopicsData(a, a[i]);
      AllTopicsData(b, a[i]);
    }
  }

  lemma PageCanonical(order: seq<Row>, rows: seq<Row>, now: int, offset: int, pageSize: int)
    requires DistinctIds(rows) && Reordering(order, rows)
    ensures PageOf(order, now, offset, pageSize) == PageOf(rows, now, offset, pageSize)
    ensures var total, answer := |SortedIds(rows, now)|, PageOf(order, now, offset, pageSize);
            0 <= offset < total && pageSize > 0 && Fits(total, offset, pageSize) ==>
              answer.Shown? && answer.totalSize == total && offset < answer.newOffset <= total
  {
    ListingCanonical(order, rows, now);
  }

  // ---- Following the offsets ----

  /** Calls that each start where the last one said to go on; every call sees an index order of
      its own. */
  function Walk(orders: seq<seq<Row>>, now: int, offset: int, p: nat): seq<Page>
    decreases |orders|
  {
    if orders == [] then []
    else
      match PageOf(orders[0], now, offset, p)
      case Shown(total, newOffset, page) =>
        [page] + if newOffset >= total then [] else Walk(orders[1..], now, newOffset, p)
      case _ => []
  }

  function CallsNeeded(remaining: nat, p: nat): (n: nat)
    requires p > 0
    ensures n > 0
  {
    if remaining <= p then 1 else 1 + CallsNeeded(remaining - p, p)
  }

  /** One call, or as many as there are pages. */
  lemma {:induction false} CallsAreCeiling(remaining: nat, p: nat)
    requires p > 0
    ensures var n := CallsNeeded(remaining, p);
            n * p >= remaining && (n == 1 || (n - 1) * p < remaining)
    decreases remaining
  {
    if remaining > p {
      CallsAreCeiling(remaining - p, p);
    }
  }

  /** The stretches of `p` keys from `offset` on. */
  function KeyWalk(keys: seq<string>, topics: Page, offset: nat, p: nat): seq<Page>
    requires p > 0 && offset <= |keys|
    decreases |keys| - offset
  {
    [Slice(keys, topics, offset, Min(offset + p, |keys|))] +
    if |keys| - offset > p then KeyWalk(keys, topics, offset + p, p) else []
  }

  ghost predicate Snapshots(orders: seq<seq<Row>>, rows: seq<Row>) {
    DistinctIds(rows) && forall i :: 0 <= i < |orders| ==> Reordering(orders[i], rows)
  }

  ghost predicate Lists(order: seq<Row>, now: int, keys: seq<string>, topics: Page) {
    SortedIds(order, now) == keys && AllTopics(FreshRows(order, now)) == topics
  }

  lemma WalkNext(orders: seq<seq<Row>>, now: int, keys: seq<string>, topics: Page, offset: nat, p: nat)
    requires p > 0 && orders != [] && Lists(orders[0], now, keys, topics)
    requires offset <= |keys| && Fits(|keys|, offset, p)
    requires |keys| - offset > p ==> Walk(orders[1..], now, offset + p, p) == KeyWalk(keys, topics, offset + p, p)
    ensures Walk(orders, now, offset, p) == KeyWalk(keys, topics, offset, p)
  {
    KeyPageShown(keys, topics, offset, p);
  }

  ghost predicate AllList(orders: seq<seq<Row>>, now: int, keys: seq<string>, topics: Page) {
    forall order :: order in orders ==> Lists(order, now, keys, topics)
  }

  lemma {:induction false} WalkListing(orders: seq<seq<Row>>, now: int, keys: seq<string>, topics: Page, offset: nat, p: nat)
    requires AllList(orders, now, keys, topics)
    requires p > 0 && offset <= |keys| && Fits(|keys|, offset, p) && |orders| >= CallsNeeded(|keys| - offset, p)
    ensures Walk(orders, now, offset, p) == KeyWalk(keys, topics, offset, p)
    decreases |orders|
  {
    if |keys| - offset > p {
      WalkListing(orders[1..], now, keys, topics, offset + p, p);
    }
    WalkNext(orders, now, keys, topics, offset, p);
  }

  /** Whatever order each call sees, the calls show the stretches of one listing. */
  lemma WalkIsKeyWalk(orders: seq<seq<Row>>, rows: seq<Row>, now: int, offset: nat, p: nat)
    requires p > 0 && Snapshots(orders, rows)
    requires offset <= |SortedIds(rows, now)| && Fits(|SortedIds(rows, now)|, offset, p)
    requires |orders| >= CallsNeeded(|SortedIds(rows, now)| - offset, p)
    ensures Walk(orders, now, offset, p) == KeyWalk(SortedIds(rows, now), AllTopics(FreshRows(rows, now)), offset, p)
  {
    var keys, topics := SortedIds(rows, now), AllTopics(FreshRows(rows, now));
    forall order | order in orders
      ensures Lists(order, now, keys, topics)
    {
      ListingCanonical(order, rows, now);
    }
    WalkListing(orders, now, keys, topics, offset, p);
  }

  function Bound(offset: nat, i: nat, p: nat, total: nat): nat {
    var b: int := offset + i * p;
    if b < total then b else total
  }

  lemma BoundNext(offset: nat, i: nat, p: nat, total: nat)
    ensures Bound(offset + p, i, p, total) == Bound(offset, i + 1, p, total)
    ensures Bound(offset, i, p, total) <= Bound(offset, i + 1, p, total)
  {
  }

  /** `page` shows the i-th stretch of `p` keys from `offset` on. */
  ghost predicate SliceAt(keys: seq<string>, topics: Page, offset: nat, i: nat, p: nat, page: Page) {
    var lo, hi := Bound(offset, i, p, |keys|), Bound(offset, i + 1, p, |keys|);
    lo <= hi && page == Slice(keys, topics, lo, hi)
  }

  lemma {:induction false} KeyWalkLength(keys: seq<string>, topics: Page, offset: nat, p: nat)
    requires p > 0 && offset <= |keys|
    ensures |KeyWalk(keys, topics, offset, p)| == CallsNeeded(|keys| - offset, p)
    decreases |keys| - offset
  {
    if |keys| - offset > p {
      KeyWalkLength(keys, topics, offset + p, p);
    }
  }

  lemma {:induction false} KeyWalkSlices(keys: seq<string>, topics: Page, offset: nat, p: nat, i: nat)
    requires p > 0 && offset <= |keys| && i < |KeyWalk(keys, topics, offset, p)|
    ensures SliceAt(keys, topics, offset, i, p, KeyWalk(keys, topics, offset, p)[i])
    decreases i
  {
    if i == 0 {
      assert Bound(offset, 0, p, |keys|) == offset && Bound(offset, 1, p, |keys|) == Min(offset + p, |keys|);
    } else {
      KeyWalkSlices(keys, topics, offset + p, p, i - 1);
      BoundNext(offset, i - 1, p, |keys|);
      BoundNext(offset, i, p, |keys|);
    }
  }

  /** Where a fresh row stands in the sorted listing. */
  lemma PositionOf(rows: seq<Row>, now: int, r: Row) returns (k: nat)
    requires DistinctIds(rows) && r in rows && IsFresh(r, now)
    ensures k < |SortedIds(rows, now)| && SortedIds(rows, now)[k] == r.id
    ensures Ascending(SortedIds(rows, now))
    ensures r.id in AllTopics(FreshRows(rows, now)) && AllTopics(FreshRows(rows, now))[r.id] == r.data
  {
    var live := FreshRows(rows, now);
    FreshRowsIn(rows, now);
    FreshDistinct(rows, now);
    SortAscending(Ids(live));
    AllTopicsData(live, r);
    var at :| 0 <= at < |live| && live[at] == r;
    assert Ids(live)[at] == r.id;
    SortElements(Ids(live), r.id);
    k :| 0 <= k < |SortedIds(rows, now)| && SortedIds(rows, now)[k] == r.id;
  }

  /** Page `i` shows the row at position `k`, data and all, exactly when k falls in its stretch. */
  ghost predicate ShownBy(page: Page, i: nat, p: nat, k: nat, r: Row) {
    && (r.id in page <==> i * p <= k < (i + 1) * p)
    && (r.id in page ==> page[r.id] == r.data)
  }

  lemma SliceShows(keys: seq<string>, topics: Page, i: nat, p: nat, page: Page, k: nat, r: Row)
    requires SliceAt(keys, topics, 0, i, p, page)
    requires Ascending(keys) && k < |keys| && keys[k] == r.id && r.id in topics && topics[r.id] == r.data
    ensures ShownBy(page, i, p, k, r)
  {
  }

  /** Paging from 0 partitions the snapshot: the row at sorted position k is shown by page k / p and
      by no other, over ceil(total / p) calls, or one call when there is nothing. */
  lemma WalkPartitions(orders: seq<seq<Row>>, rows: seq<Row>, now: int, p: nat, r: Row) returns (k: nat)
    requires p > 0 && Snapshots(orders, rows) && Fits(|SortedIds(rows, now)|, 0, p)
    requires |orders| >= CallsNeeded(|SortedIds(rows, now)|, p)
    requires r in rows && IsFresh(r, now)
    ensures k < |SortedIds(rows, now)| && SortedIds(rows, now)[k] == r.id
    ensures var pages := Walk(orders, now, 0, p);
            && |pages| == CallsNeeded(|SortedIds(rows, now)|, p)
            && forall i :: 0 <= i < |pages| ==> ShownBy(pages[i], i, p, k, r)
  {
    var keys, topics := SortedIds(rows, now), AllTopics(FreshRows(rows, now));
    WalkIsKeyWalk(orders, rows, now, 0, p);
    var pages := KeyWalk(keys, topics, 0, p);
    KeyWalkLength(keys, topics, 0, p);
    k := PositionOf(rows, now, r);
    forall i | 0 <= i < |pages|
      ensures ShownBy(pages[i], i, p, k, r)
    {
      KeyWalkSlices(keys, topics, 0, p, i);
      SliceShows(keys, topics, i, p, pages[i], k, r);
    }
  }

  lemma AscendingPosition(keys: seq<string>, i: nat, j: nat)
    requires Ascending(keys) && i < |keys| && j < |keys| && Leq(keys[i], keys[j])
    ensures i <= j
  {
    if i > j {
      LeqAntisymmetric(keys[i], keys[j]);
    }
  }

  lemma {:induction false} TimesMonotone(a: nat, b: nat, p: nat)
    ensures a <= b ==> a * p <= b * p
    decreases b
  {
    if a < b {
      TimesMonotone(a, b - 1, p);
      assert b * p == (b - 1) * p + p;
    }
  }

  lemma StretchesInOrder(p: nat, k: nat, m: nat, i: nat, j: nat)
    requires k <= m && i * p <= k && m < (j + 1) * p
    ensures i <= j
  {
    TimesMonotone(j + 1, i, p);
  }

  /** Pages follow the dictionary order of the ids: of two fresh rows, the one whose id is a prefix of the
      other's, or has the smaller character where they first differ, is on no later page. */
  lemma PagesInOrder(orders: seq<seq<Row>>, rows: seq<Row>, now: int, p: nat, r: Row, later: Row, i: nat, j: nat)
    requires p > 0 && Snapshots(orders, rows) && Fits(|SortedIds(rows, now)|, 0, p)
    requires |orders| >= CallsNeeded(|SortedIds(rows, now)|, p)
    requires r in rows && now - r.updatedAt < 90_000_000_000 && later in rows && now - later.updatedAt < 90_000_000_000
    requires r.id <= later.id ||
             exists k :: 0 <= k < |r.id| && k < |later.id| && r.id[..k] == later.id[..k] && r.id[k] < later.id[k]
    requires var pages := Walk(orders, now, 0, p); i < |pages| && j < |pages| && r.id in pages[i] && later.id in pages[j]
    ensures i <= j
  {
    LeqMeans(r.id, later.id);
    assert Leq(r.id, later.id) by {
      if k :| 0 <= k < |r.id| && k < |later.id| && r.id[..k] == later.id[..k] && r.id[k] < later.id[k] {
        assert SmallerAt(r.id, later.id, k);
      }
    }
    var k := WalkPartitions(orders, rows, now, p, r);
    var m := WalkPartitions(orders, rows, now, p, later);
    var pages := Walk(orders, now, 0, p);
    assert ShownBy(pages[i], i, p, k, r) && ShownBy(pages[j], j, p, m, later);
    SortedAscending(rows, now);
    AscendingPosition(SortedIds(rows, now), k, m);
    StretchesInOrder(p, k, m, i, j);
  }

  lemma SortedAscending(rows: seq<Row>, now: int)
    requires DistinctIds(rows)
    ensures Ascending(SortedIds(rows, now))
  {
    FreshDistinct(rows, now);
    SortAscending(Ids(FreshRows(rows, now)));
  }

  /** Fresh are the rows of the last 90 seconds, and every one of them is paged through. */
  lemma FreshRowsAre(rows: seq<Row>, now: int, r: Row)
    ensures r in FreshRows(rows, now) <==> r in rows && now - r.updatedAt < 90_000_000_000
    ensures |SortedIds(rows, now)| == |FreshRows(rows, now)|
  {
    FreshRowsIn(rows, now);
    SortElements(Ids(FreshRows(rows, now)), "");
  }

  /** An offset beyond the number of fresh rows, and no other, gets no page. */
  lemma NoPageIff(rows: seq<Row>, now: int, offset: I64, pageSize: I64)
    ensures PageOf(rows, now, offset, pageSize).NoPage? <==> offset > |FreshRows(rows, now)|
  {
    SortElements(Ids(FreshRows(rows, now)), "");
  }

  /** No page holds anything but fresh rows. */
  lemma PagesAreFresh(rows: seq<Row>, now: int, offset: int, pageSize: int, id: string)
    requires PageOf(rows, now, offset, pageSize).Shown? && id in PageOf(rows, now, offset, pageSize).page
    ensures exists r :: r in rows && IsFresh(r, now) && r.id == id
  {
    var live := FreshRows(rows, now);
    FreshRowsIn(rows, now);
    var i :| 0 <= i < |live| && Ids(live)[i] == id;
    assert live[i] in rows;
  }

  // ---- Counting ----

  function IdsUnder(rows: seq<Row>, now: int, ns: string): seq<string> {
    Ids(Groups.Select(FreshRows(rows, now), NamespaceOf, ns))
  }

  lemma IdsUnderNext(rows: seq<Row>, now: int, i: nat, ns: string)
    requires i < |rows|
    ensures IdsUnder(rows[..i + 1], now, ns) ==
            if IsFresh(rows[i], now) && rows[i].namespace == ns then IdsUnder(rows[..i], now, ns) + [rows[i].id]
            else IdsUnder(rows[..i], now, ns)
  {
    var live := FreshRows(rows[..i], now);
    FreshRowsNext(rows, now, i);
    Groups.SelectLast(live, rows[i], NamespaceOf, ns);
    var group := Groups.Select(live, NamespaceOf, ns);
    IdsLast(group, rows[i]);
    assert group + [] == group;
  }

  ghost predicate GroupedAt(rows: seq<Row>, now: int, namespaces: map<string, seq<string>>, ns: string) {
    if ns in namespaces then namespaces[ns] == IdsUnder(rows, now, ns) != [] else IdsUnder(rows, now, ns) == []
  }

  /** Each namespace with a fresh row lists those rows' ids, in index order. */
  ghost predicate Grouped(rows: seq<Row>, now: int, namespaces: map<string, seq<string>>) {
    forall ns :: GroupedAt(rows, now, namespaces, ns)
  }

  lemma GroupedNext(rows: seq<Row>, now: int, i: nat, before: map<string, seq<string>>, after: map<string, seq<string>>)
    requires i < |rows| && Grouped(rows[..i], now, before)
    requires var p := rows[i];
             after == if !IsFresh(p, now) then before
                      else if p.namespace in before then before[p.namespace := before[p.namespace] + [p.id]]
                      else before[p.namespace := [p.id]]
    ensures Grouped(rows[..i + 1], now, after)
  {
    var longer := rows[..i + 1];
    forall ns
      ensures GroupedAt(longer, now, after, ns)
    {
      IdsUnderNext(rows, now, i, ns);
      assert GroupedAt(rows[..i], now, before, ns);
    }
  }

  /** Groups the fresh ids by namespace; the count takes the stale rows in as well. */
  method CountTopics(index: Option<seq<Row>>, now: int) returns (namespaces: map<string, seq<string>>, count: int)
    ensures index.None? ==> namespaces == map[] && count == -1
    ensures index.Some? ==> count == |index.value| && Grouped(index.value, now, namespaces)
  {
    namespaces := map[];
    if index.None? {
      return namespaces, -1;
    }
    var rows := index.value;
    count := 0;
    for i := 0 to |rows|
      invariant count == i
      invariant Grouped(rows[..i], now, namespaces)
    {
      ghost var before := namespaces;
      var p := rows[i];
      if IsFresh(p, now) {
        if p.namespace in namespaces {
          namespaces := namespaces[p.namespace := namespaces[p.namespace] + [p.id]];
        } else {
          namespaces := namespaces[p.namespace := [p.id]];
        }
      }
      GroupedNext(rows, now, i, before, namespaces);
      count := count + 1;
    }
    assert rows[..|rows|] == rows;
  }

  /** The namespaces grouped are those of the fresh rows. */
  lemma GroupedNamespaces(rows: seq<Row>, now: int, namespaces: map<string, seq<string>>, ns: string)
    requires Grouped(rows, now, namespaces)
    ensures ns in namespaces <==> exists r :: r in rows && IsFresh(r, now) && r.namespace == ns
  {
    var group := Groups.Select(FreshRows(rows, now), NamespaceOf, ns);
    FreshRowsIn(rows, now);
    assert GroupedAt(rows, now, namespaces, ns);
    if group != [] {
      Groups.SelectIn(FreshRows(rows, now), NamespaceOf, ns, group[0]);
    }
    if exists r :: r in rows && IsFresh(r, now) && r.namespace == ns {
      var r :| r in rows && IsFresh(r, now) && r.namespace == ns;
      Groups.SelectIn(FreshRows(rows, now), NamespaceOf, ns, r);
    }
  }

  lemma {:induction false} FreshRowsAt(rows: seq<Row>, now: int, i: nat)
    requires i < |rows| && IsFresh(rows[i], now)
    ensures var at := |FreshRows(rows[..i], now)|;
            at < |FreshRows(rows, now)| && FreshRows(rows, now)[at] == rows[i]
    decreases |rows|
  {
    var front := rows[..|rows| - 1];
    if i < |front| {
      assert front[..i] == rows[..i];
      FreshRowsAt(front, now, i);
    } else {
      assert rows[..i] == front;
    }
  }

  lemma FreshRowsApart(rows: seq<Row>, now: int, i: nat, j: nat)
    requires i < j < |rows| && IsFresh(rows[i], now)
    ensures |FreshRows(rows[..i], now)| < |FreshRows(rows[..j], now)|
  {
    assert rows[..j][..i] == rows[..i];
    FreshRowsAt(rows[..j], now, i);
  }

  /** A group lists its rows in the order of the index. */
  lemma GroupsKeepOrder(rows: seq<Row>, now: int, namespaces: map<string, seq<string>>, i: nat, j: nat)
    returns (a: nat, b: nat)
    requires Grouped(rows, now, namespaces)
    requires i < j < |rows| && rows[i].namespace == rows[j].namespace
    requires now - rows[i].updatedAt < 90_000_000_000 && now - rows[j].updatedAt < 90_000_000_000
    ensures var ns := rows[i].namespace;
            && ns in namespaces && a < b < |namespaces[ns]|
            && namespaces[ns][a] == rows[i].id && namespaces[ns][b] == rows[j].id
  {
    var live, ns := FreshRows(rows, now), rows[i].namespace;
    var m, n := |FreshRows(rows[..i], now)|, |FreshRows(rows[..j], now)|;
    FreshRowsAt(rows, now, i);
    FreshRowsAt(rows, now, j);
    FreshRowsApart(rows, now, i, j);
    Groups.SelectAt(live, NamespaceOf, ns, m);
    Groups.SelectAt(live, NamespaceOf, ns, n);
    assert live[..n][..m] == live[..m];
    Groups.SelectAt(live[..n], NamespaceOf, ns, m);
    a, b := |Groups.Select(live[..m], NamespaceOf, ns)|, |Groups.Select(live[..n], NamespaceOf, ns)|;
    assert GroupedAt(rows, now, namespaces, ns);
  }

  function SumSizes(namespaces: map<string, seq<string>>, order: seq<string>): nat
    requires forall ns :: ns in order ==> ns in namespaces
  {
    if order == [] then 0 else |namespaces[order[0]]| + SumSizes(namespaces, order[1..])
  }

  lemma {:induction false} SumSizesGather(rows: seq<Row>, now: int, namespaces: map<string, seq<string>>, order: seq<string>)
    requires Grouped(rows, now, namespaces)
    requires forall ns :: ns in order ==> ns in namespaces
    ensures SumSizes(namespaces, order) == |Groups.Gather(FreshRows(rows, now), NamespaceOf, order)|
  {
    if order != [] {
      assert order[0] in namespaces && GroupedAt(rows, now, namespaces, order[0]);
      SumSizesGather(rows, now, namespaces, order[1..]);
    }
  }

  lemma RowUnder(rows: seq<Row>, now: int, r: Row)
    requires r in FreshRows(rows, now)
    ensures r.id in IdsUnder(rows, now, r.namespace)
  {
    var group := Groups.Select(FreshRows(rows, now), NamespaceOf, r.namespace);
    Groups.SelectIn(FreshRows(rows, now), NamespaceOf, r.namespace, r);
    var k :| 0 <= k < |group| && group[k] == r;
    assert Ids(group)[k] == r.id;
  }

  lemma UnderRow(rows: seq<Row>, now: int, ns: string, id: string) returns (r: Row)
    requires id in IdsUnder(rows, now, ns)
    ensures r in rows && IsFresh(r, now) && r.namespace == ns && r.id == id
    ensures id in Ids(FreshRows(rows, now))
  {
    var live := FreshRows(rows, now);
    var group := Groups.Select(live, NamespaceOf, ns);
    var k :| 0 <= k < |group| && Ids(group)[k] == id;
    r := group[k];
    Groups.SelectIn(live, NamespaceOf, ns, r);
    FreshRowsIn(rows, now);
    var i :| 0 <= i < |live| && live[i] == r;
    assert Ids(live)[i] == id;
  }

  /** The sizes of the groups add up to the total paged through, which the count reaches or exceeds. */
  lemma CountsAddUp(rows: seq<Row>, now: int, namespaces: map<string, seq<string>>, order: seq<string>)
    requires Grouped(rows, now, namespaces)
    requires Distinct(order) && forall ns :: ns in order <==> ns in namespaces
    ensures SumSizes(namespaces, order) == PageOf(rows, now, 0, 0).totalSize <= |rows|
  {
    var live := FreshRows(rows, now);
    FreshRowsIn(rows, now);
    forall r | r in live
      ensures r.namespace in order
    {
      GroupedNamespaces(rows, now, namespaces, r.namespace);
    }
    Groups.GatherPermutes(live, NamespaceOf, order);
    var grouped := Groups.Gather(live, NamespaceOf, order);
    assert |grouped| == |multiset(grouped)| == |multiset(live)| == |live|;
    SumSizesGather(rows, now, namespaces, order);
    SortElements(Ids(live), "");
  }

  /** The groups are a partition, by namespace, of exactly the ids paged through. */
  lemma GroupsPartitionPages(rows: seq<Row>, now: int, namespaces: map<string, seq<string>>, id: string)
    requires DistinctIds(rows) && Grouped(rows, now, namespaces)
    ensures id in SortedIds(rows, now) <==> exists ns :: ns in namespaces && id in namespaces[ns]
    ensures forall ns, other ::
              ns in namespaces && other in namespaces && id in namespaces[ns] && id in namespaces[other] ==> ns == other
  {
    var live := FreshRows(rows, now);
    SortElements(Ids(live), id);
    if id in Ids(live) {
      var i :| 0 <= i < |live| && Ids(live)[i] == id;
      RowUnder(rows, now, live[i]);
      assert GroupedAt(rows, now, namespaces, live[i].namespace);
    }
    forall ns | ns in namespaces && id in namespaces[ns]
      ensures id in Ids(live) && exists r :: r in rows && r.namespace == ns && r.id == id
    {
      assert GroupedAt(rows, now, namespaces, ns);
      var r := UnderRow(rows, now, ns, id);
    }
  }
}
