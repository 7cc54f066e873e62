/** The combined timeline of events and alerts (`get_timeline` in server/database.py). */
module Timeline {
  import opened Data
  import opened TextOrder

  datatype Kind = EventKind | AlertKind

  /** A row of the timeline.  Alerts have no event type. */
  datatype Item = Item(kind: Kind, id: nat, ts: string, hostname: string, deviceId: string, eventType: string)

  // ----- Sorting by timestamp -----

  function Insert(x: Item, ys: seq<Item>): seq<Item> {
    if ys == [] || Leq(x.ts, ys[0].ts) then [x] + ys else [ys[0]] + Insert(x, ys[1..])
  }

  /** `ORDER BY ts ASC` over rows in id order, and `sorted(…, key=ts)`: both keep the order of equal keys. */
  function Sort(xs: seq<Item>): seq<Item> {
    if xs == [] then [] else Insert(xs[0], Sort(xs[1..]))
  }

  ghost predicate Sorted(xs: seq<Item>) {
    forall i :: 0 < i < |xs| ==> Leq(xs[i - 1].ts, xs[i].ts)
  }

  /** The items with one timestamp, in order. */
  function At(xs: seq<Item>, ts: string): seq<Item> {
    if xs == [] then [] else (if xs[0].ts == ts then [xs[0]] else []) + At(xs[1..], ts)
  }

  lemma {:induction false} InsertSorts(x: Item, ys: seq<Item>)
    requires Sorted(ys)
    ensures Sorted(Insert(x, ys))
    ensures ys != [] && Leq(ys[0].ts, x.ts) ==> Leq(ys[0].ts, Insert(x, ys)[0].ts)
    ensures forall ts :: At(Insert(x, ys), ts) == (if x.ts == ts then [x] else []) + At(ys, ts)
  {
    if ys == [] || Leq(x.ts, ys[0].ts) {
      assert ([x] + ys)[1..] == ys;
      if ys != [] { Total(ys[0].ts, x.ts); }
    } else {
      InsertSorts(x, ys[1..]);
      Total(x.ts, ys[0].ts);
      var rest := Insert(x, ys[1..]);
      assert ([ys[0]] + rest)[1..] == rest;
      if |ys| > 1 { assert Leq(ys[0].ts, ys[1].ts); }
      Total(ys[0].ts, ys[0].ts);
    }
  }

  /** The sort is sorted and stable: it keeps the order of the items with equal timestamps. */
  lemma {:induction false} SortIsStable(xs: seq<Item>)
    ensures Sorted(Sort(xs))
    ensures forall ts :: At(Sort(xs), ts) == At(xs, ts)
  {
    if xs == [] {
    } else {
      SortIsStable(xs[1..]);
      InsertSorts(xs[0], Sort(xs[1..]));
    }
  }

  lemma {:induction false} HeadIsLeast(xs: seq<Item>, ts: string)
    requires Sorted(xs) && At(xs, ts) != []
    ensures Leq(xs[0].ts, ts)
  {
    Total(xs[0].ts, xs[0].ts);
    if xs[0].ts != ts {
      HeadIsLeast(xs[1..], ts);
      assert Leq(xs[0].ts, xs[1].ts);
      Transitive(xs[0].ts, xs[1].ts, ts);
    }
  }

  lemma {:induction false} SortedUnique(a: seq<Item>, b: seq<Item>)
    requires Sorted(a) && Sorted(b) && forall ts :: At(a, ts) == At(b, ts)
    ensures a == b
  {
    if b != [] { assert At(b, b[0].ts) == At(a, b[0].ts); }
    if a != [] {
      assert At(a, a[0].ts) == At(b, a[0].ts);
      HeadIsLeast(b, a[0].ts);
      assert At(a, b[0].ts) == At(b, b[0].ts);
      HeadIsLeast(a, b[0].ts);
      Total(a[0].ts, b[0].ts);
      assert a[0] == At(a, a[0].ts)[0] == At(b, a[0].ts)[0] == b[0];
      forall ts ensures At(a[1..], ts) == At(b[1..], ts) {
        var n := if a[0].ts == ts then 1 else 0;
        assert At(a[1..], ts) == At(a, ts)[n..] && At(b[1..], ts) == At(b, ts)[n..];
      }
      SortedUnique(a[1..], b[1..]);
      assert a == [a[0]] + a[1..] && b == [b[0]] + b[1..];
    }
  }

  ghost predicate SameOrderOfEquals(r: seq<Item>, xs: seq<Item>) {
    forall ts :: At(r, ts) == At(xs, ts)
  }

  /** There is no other stable sort: being sorted and keeping equal items in order says it all. */
  lemma StableSortUnique(xs: seq<Item>, r: seq<Item>)
    ensures r == Sort(xs) <==> Sorted(r) && SameOrderOfEquals(r, xs)
  {
    SortIsStable(xs);
    if Sorted(r) && SameOrderOfEquals(r, xs) {
      forall ts ensures At(r, ts) == At(Sort(xs), ts) {
        assert At(r, ts) == At(xs, ts);
      }
      SortedUnique(r, Sort(xs));
    }
  }

  // ----- Merging -----

  function Merge(xs: seq<Item>, ys: seq<Item>): seq<Item> {
    if xs == [] then ys
    else if ys == [] then xs
    else if Leq(xs[0].ts, ys[0].ts) then [xs[0]] + Merge(xs[1..], ys)
    else [ys[0]] + Merge(xs, ys[1..])
  }

  lemma {:induction false} InsertMerge(x: Item, s: seq<Item>, t: seq<Item>)
    ensures Merge(Insert(x, s), t) == Insert(x, Merge(s, t))
    decreases |s| + |t|
  {
    if t == [] {
    } else if s == [] || Leq(x.ts, s[0].ts) {
      assert ([x] + s)[1..] == s;
      if !Leq(x.ts, t[0].ts) {
        Total(t[0].ts, x.ts);
        if s != [] { Transitive(t[0].ts, x.ts, s[0].ts); }
        InsertMerge(x, s, t[1..]);
        assert s == [] ==> Merge(s, t[1..]) == t[1..];
        assert ([t[0]] + Merge(s, t[1..]))[1..] == Merge(s, t[1..]);
      }
    } else {
      var rest := Insert(x, s[1..]);
      assert ([s[0]] + rest)[1..] == rest;
      if Leq(s[0].ts, t[0].ts) {
        InsertMerge(x, s[1..], t);
        assert ([s[0]] + Merge(s[1..], t))[1..] == Merge(s[1..], t);
      } else {
        Total(t[0].ts, s[0].ts);
        Total(s[0].ts, x.ts);
        Transitive(t[0].ts, s[0].ts, x.ts);
        InsertMerge(x, s, t[1..]);
        assert ([t[0]] + Merge(s, t[1..]))[1..] == Merge(s, t[1..]);
      }
    }
  }

  /** Sorting a concatenation merges the sorts of its parts. */
  lemma {:induction false} SortConcat(a: seq<Item>, b: seq<Item>)
    ensures Sort(a + b) == Merge(Sort(a), Sort(b))
  {
    if a == [] {
      assert a + b == b;
    } else {
      assert (a + b)[1..] == a[1..] + b;
      SortConcat(a[1..], b);
      InsertMerge(a[0], Sort(a[1..]), Sort(b));
    }
  }

  lemma {:induction false} SortOfSorted(xs: seq<Item>)
    requires Sorted(xs)
    ensures Sort(xs) == xs
  {
    if xs == [] {
    } else {
      SortOfSorted(xs[1..]);
      if |xs| > 1 { assert Leq(xs[0].ts, xs[1].ts); }
    }
  }

  /** The first `n` items of a merge come from the first `n` of each side. */
  lemma {:induction false} TakeMerge(xs: seq<Item>, ys: seq<Item>, n: nat, m: nat, k: nat)
    requires n <= m && n <= k
    ensures Take(Merge(xs, ys), n) == Take(Merge(Take(xs, m), Take(ys, k)), n)
    decreases n
  {
    if n == 0 || xs == [] || ys == [] {
    } else {
      TakeTail(xs, m);
      TakeTail(ys, k);
      if Leq(xs[0].ts, ys[0].ts) {
        TakeMerge(xs[1..], ys, n - 1, m - 1, k);
        TakeCons(xs[0], Merge(xs[1..], ys), n);
        TakeCons(xs[0], Merge(Take(xs[1..], m - 1), Take(ys, k)), n);
      } else {
        TakeMerge(xs, ys[1..], n - 1, m, k - 1);
        TakeCons(ys[0], Merge(xs, ys[1..]), n);
        TakeCons(ys[0], Merge(Take(xs, m), Take(ys[1..], k - 1)), n);
      }
    }
  }

  lemma TakeTail(xs: seq<Item>, n: nat)
    requires n > 0 && xs != []
    ensures Take(xs, n) != [] && Take(xs, n)[0] == xs[0] && Take(xs, n)[1..] == Take(xs[1..], n - 1)
  {
  }

  lemma TakeCons(x: Item, xs: seq<Item>, n: nat)
    requires n > 0
    ensures Take([x] + xs, n) == [x] + Take(xs, n - 1)
  {
  }

  // ----- The query -----

  /** The filters of the query; an empty string means no filter. */
  datatype Query = Query(hostname: string, deviceId: string, since: string)

  predicate Wanted(q: Query, x: Item) {
    && (q.hostname != "" ==> x.hostname == q.hostname)
    && (q.deviceId != "" ==> x.deviceId == q.deviceId)
    && (q.since != "" ==> Leq(q.since, x.ts))
  }

  function Where(q: Query, xs: seq<Item>): seq<Item> {
    if xs == [] then [] else (if Wanted(q, xs[0]) then [xs[0]] else []) + Where(q, xs[1..])
  }

  /** SQLite's `LIMIT`: a negative limit is none. */
  function SqlLimit(xs: seq<Item>, limit: int): seq<Item> {
    if limit < 0 then xs else Take(xs, limit)
  }

  /** `xs[:limit]`: a negative limit counts from the end. */
  function Slice(xs: seq<Item>, limit: int): seq<Item> {
    if limit >= 0 then Take(xs, limit) else if |xs| + limit <= 0 then [] else xs[..|xs| + limit]
  }

  function GetTimeline(events: seq<Item>, alerts: seq<Item>, q: Query, limit: int): seq<Item> {
    var eventRows := SqlLimit(Sort(Where(q, events)), limit);
    var alertRows := SqlLimit(Sort(Where(q, alerts)), limit);
    Slice(Sort(eventRows + alertRows), limit)
  }

  /**
    Cutting events and alerts to the limit before they are merged loses nothing: the timeline is
    the cut of the stable sort of all matching events and alerts, for a negative limit too.
   */
  lemma TimelineIsTruncatedSort(events: seq<Item>, alerts: seq<Item>, q: Query, limit: int)
    ensures GetTimeline(events, alerts, q, limit) == Slice(Sort(Where(q, events) + Where(q, alerts)), limit)
  {
    var e, a := Sort(Where(q, events)), Sort(Where(q, alerts));
    SortIsStable(Where(q, events));
    SortIsStable(Where(q, alerts));
    SortOfSorted(SqlLimit(e, limit));
    SortOfSorted(SqlLimit(a, limit));
    SortConcat(SqlLimit(e, limit), SqlLimit(a, limit));
    SortConcat(Where(q, events), Where(q, alerts));
    if limit >= 0 {
      TakeMerge(e, a, limit, limit, limit);
    }
  }

  // ----- What the timeline holds -----

  /** What the caller asked for; an empty string asks for anything. */
  ghost predicate AskedFor(q: Query, x: Item) {
    && (q.hostname == "" || x.hostname == q.hostname)
    && (q.deviceId == "" || x.deviceId == q.deviceId)
    && (q.since == "" || x.ts == q.since || Less(q.since, x.ts))
  }

  lemma {:induction false} WhereKeeps(q: Query, xs: seq<Item>, x: Item)
    ensures multiset(Where(q, xs))[x] == if AskedFor(q, x) then multiset(xs)[x] else 0
  {
    if xs == [] {
    } else {
      WhereKeeps(q, xs[1..], x);
      Total(q.since, xs[0].ts);
      assert xs == [xs[0]] + xs[1..];
    }
  }

  lemma {:induction false} InsertKeeps(x: Item, ys: seq<Item>)
    ensures multiset(Insert(x, ys)) == multiset([x]) + multiset(ys)
  {
    if ys == [] || Leq(x.ts, ys[0].ts) {
    } else {
      InsertKeeps(x, ys[1..]);
      assert ys == [ys[0]] + ys[1..];
    }
  }

  lemma {:induction false} SortKeeps(xs: seq<Item>)
    ensures multiset(Sort(xs)) == multiset(xs)
  {
    if xs == [] {
    } else {
      SortKeeps(xs[1..]);
      InsertKeeps(xs[0], Sort(xs[1..]));
      assert xs == [xs[0]] + xs[1..];
    }
  }

  lemma {:induction false} SortedPair(xs: seq<Item>, i: nat, j: nat)
    requires Sorted(xs) && i <= j < |xs|
    ensures Leq(xs[i].ts, xs[j].ts)
  {
    if i == j {
      Total(xs[i].ts, xs[i].ts);
    } else {
      SortedPair(xs, i, j - 1);
      Transitive(xs[i].ts, xs[j - 1].ts, xs[j].ts);
    }
  }

  /** `kept` is the earliest part, at most `limit` items long, and `rest` is not empty only if it is full. */
  ghost predicate Earliest(kept: seq<Item>, rest: seq<Item>, limit: nat) {
    && Sorted(kept) && |kept| <= limit && (rest != [] ==> |kept| == limit)
    && forall x, y :: x in kept && y in rest ==> Leq(x.ts, y.ts)
  }

  lemma CutIsEarliest(xs: seq<Item>, limit: nat)
    requires Sorted(xs)
    ensures Earliest(Take(xs, limit), xs[Min(limit, |xs|)..], limit)
  {
    var n := Min(limit, |xs|);
    forall x, y | x in xs[..n] && y in xs[n..] ensures Leq(x.ts, y.ts) {
      var i :| 0 <= i < n && xs[..n][i] == x;
      var j :| 0 <= j < |xs| - n && xs[n..][j] == y;
      SortedPair(xs, i, n + j);
    }
  }

  lemma SortHoldsWhatWasAskedFor(events: seq<Item>, alerts: seq<Item>, q: Query, x: Item)
    ensures multiset(Sort(Where(q, events) + Where(q, alerts)))[x]
            == if AskedFor(q, x) then multiset(events)[x] + multiset(alerts)[x] else 0
  {
    SortKeeps(Where(q, events) + Where(q, alerts));
    WhereKeeps(q, events, x);
    WhereKeeps(q, alerts, x);
  }

  lemma CutKeeps(xs: seq<Item>, limit: nat, x: Item)
    ensures multiset(Take(xs, limit))[x] + multiset(xs[Min(limit, |xs|)..])[x] == multiset(xs)[x]
  {
    var n := Min(limit, |xs|);
    assert xs == xs[..n] + xs[n..];
  }

  /**
    The timeline holds what was asked for and nothing else, each row as often as it is stored, in
    order of time; what a limit cuts off is not earlier than anything it keeps.
   */
  lemma TimelineHoldsWhatWasAskedFor(events: seq<Item>, alerts: seq<Item>, q: Query, limit: nat) returns (rest: seq<Item>)
    ensures Earliest(GetTimeline(events, alerts, q, limit), rest, limit)
    ensures forall x :: multiset(GetTimeline(events, alerts, q, limit))[x] + multiset(rest)[x]
                        == if AskedFor(q, x) then multiset(events)[x] + multiset(alerts)[x] else 0
  {
    var sorted := Sort(Where(q, events) + Where(q, alerts));
    rest := sorted[Min(limit, |sorted|)..];
    TimelineIsTruncatedSort(events, alerts, q, limit);
    SortIsStable(Where(q, events) + Where(q, alerts));
    CutIsEarliest(sorted, limit);
    forall x
      ensures multiset(Take(sorted, limit))[x] + multiset(rest)[x]
              == if AskedFor(q, x) then multiset(events)[x] + multiset(alerts)[x] else 0
    {
      CutKeeps(sorted, limit, x);
      SortHoldsWhatWasAskedFor(events, alerts, q, x);
    }
  }
}
