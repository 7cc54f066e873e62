/**
  Alert deduplication by requests that run at the same time (server/alert_manager.py over
  `get_recent_alert` and `insert_alert` of server/database.py).

  A handler reads the clock for its cutoff before it takes the lock, looks for a recent alert in one
  lock section and inserts in another, where it reads the clock again.  So two handlers can both
  look before either inserts.  As in DeliveryProtocol, a step whose handler is elsewhere does
  nothing.
 */
module ConcurrentAlerts {
  import Alerts
  import opened Data

  type Key = Alerts.Key
  type AlertRow = Alerts.AlertRow

  /**
    `base` and `purged` are history: how many alerts had been inserted, and how many purges made,
    when the handler looked.
   */
  datatype Handler =
    | Idle
    | Checking(key: Key, severity: string, checkedAt: int)
    | Passed(key: Key, severity: string, checkedAt: int, base: nat, purged: nat)

  /**
    `live` and `handlers` are the running system.  The rest is history: `ever` is every alert ever
    inserted, `bases` what its handler had as `base`, and `cutoffs` those of every purge made.
   */
  datatype State = State(live: seq<AlertRow>, handlers: seq<Handler>, ever: seq<AlertRow>, bases: seq<nat>, cutoffs: seq<int>)

  datatype Step =
    | ReadClock(who: nat, key: Key, severity: string, now: int)
    | Look(who: nat)
    | Insert(who: nat, now: int)
    | Purge(cutoff: int, now: int)

  function Start(k: nat): State {
    State([], seq(k, _ => Idle), [], [], [])
  }

  function Do(s: State, step: Step, window: int): State {
    match step
    case ReadClock(i, key, severity, now) =>
      if i < |s.handlers| && s.handlers[i].Idle? then
        s.(handlers := s.handlers[i := Checking(key, severity, now)])
      else s
    case Look(i) =>
      if i < |s.handlers| && s.handlers[i].Checking? then
        s.(handlers := s.handlers[i := AfterLook(s, s.handlers[i], window)])
      else s
    case Insert(i, now) =>
      if i < |s.handlers| && s.handlers[i].Passed? then
        var row := Alerts.AlertRow(now, s.handlers[i].key, s.handlers[i].severity);
        s.(live := s.live + [row], handlers := s.handlers[i := Idle],
           ever := s.ever + [row], bases := s.bases + [s.handlers[i].base])
      else s
    case Purge(cutoff, now) => s.(live := Alerts.PurgeAlerts(s.live, cutoff), cutoffs := s.cutoffs + [cutoff])
  }

  function AfterLook(s: State, h: Handler, window: int): Handler
    requires h.Checking?
  {
    if Alerts.HasRecent(s.live, h.key, h.checkedAt - window) then Idle
    else Passed(h.key, h.severity, h.checkedAt, |s.ever|, |s.cutoffs|)
  }

  function Run(s: State, steps: seq<Step>, window: int): State {
    if steps == [] then s else Do(Run(s, steps[..|steps| - 1], window), steps[|steps| - 1], window)
  }

  /**
    A handler that inserts does not read an earlier time than before it looked, and no purge made
    before it looked reached into the window before its insertion.
   */
  ghost predicate InsertsFairly(s: State, step: Step, window: int) {
    step.Insert? && step.who < |s.handlers| && s.handlers[step.who].Passed? ==>
      var h := s.handlers[step.who];
      && h.checkedAt <= step.now
      && forall i :: 0 <= i < h.purged && i < |s.cutoffs| ==> s.cutoffs[i] <= step.now - window
  }

  ghost predicate Fair(s: State, steps: seq<Step>, window: int) {
    forall n :: 0 <= n < |steps| ==> InsertsFairly(Run(s, steps[..n], window), steps[n], window)
  }

  // ----- Who looked before an alert was inserted -----

  /** The alerts with index `n` or more whose handlers had looked before the `n`-th was inserted. */
  function Late(bases: seq<nat>, n: nat): nat {
    if |bases| <= n then 0
    else Late(bases[..|bases| - 1], n) + if bases[|bases| - 1] <= n then 1 else 0
  }

  /** The handlers that had looked by then and have not inserted yet. */
  function Waiting(handlers: seq<Handler>, n: nat): nat {
    if handlers == [] then 0
    else Waiting(handlers[1..], n) + if handlers[0].Passed? && handlers[0].base <= n then 1 else 0
  }

  function Counts(h: Handler, n: nat): nat {
    if h.Passed? && h.base <= n then 1 else 0
  }

  lemma {:induction false} WaitingUpdate(hs: seq<Handler>, i: nat, h: Handler, n: nat)
    requires i < |hs|
    ensures Waiting(hs[i := h], n) == Waiting(hs, n) - Counts(hs[i], n) + Counts(h, n)
  {
    if i == 0 {
      assert hs[i := h][1..] == hs[1..];
    } else {
      assert hs[i := h][1..] == hs[1..][i - 1 := h];
      WaitingUpdate(hs[1..], i - 1, h, n);
    }
  }

  lemma {:induction false} WaitingBound(hs: seq<Handler>, n: nat)
    ensures Waiting(hs, n) <= |hs|
  {
    if hs == [] {
    } else {
      WaitingBound(hs[1..], n);
    }
  }

  /** Every alert and every handler that had looked before the `n`-th alert was a handler then. */
  ghost predicate Few(s: State) {
    && |s.bases| == |s.ever|
    && (forall n :: 0 <= n < |s.ever| ==> Late(s.bases, n) + Waiting(s.handlers, n) <= |s.handlers|)
  }

  lemma FewKept(s: State, step: Step, window: int)
    requires Few(s)
    ensures Few(Do(s, step, window))
  {
    var t := Do(s, step, window);
    forall n | 0 <= n < |t.ever| ensures Late(t.bases, n) + Waiting(t.handlers, n) <= |t.handlers| {
      if !step.Purge? && step.who < |s.handlers| {
        WaitingUpdate(s.handlers, step.who, t.handlers[step.who], n);
        assert s.handlers[step.who := t.handlers[step.who]] == t.handlers;
      }
      if t.bases != s.bases {
        assert t.bases[..|s.bases|] == s.bases;
        WaitingBound(s.handlers, n);
      }
    }
  }

  // ----- Looking finds what is recent -----

  /** An alert with this key that was inserted before `base` is out of the window at time `now`. */
  ghost predicate Clear(ever: seq<AlertRow>, key: Key, base: nat, now: int, window: int) {
    forall n :: 0 <= n < base && n < |ever| && ever[n].key == key ==> now - ever[n].createdAt > window
  }

  /** Older than what some of the first `purged` purges kept. */
  ghost predicate Purged(cutoffs: seq<int>, purged: nat, a: AlertRow) {
    exists i :: 0 <= i < purged && i < |cutoffs| && a.createdAt < cutoffs[i]
  }

  /** An alert that a handler did not find was out of its window, or purged before it looked. */
  ghost predicate Missed(s: State, h: Handler, window: int)
    requires h.Passed?
  {
    && h.base <= |s.ever| && h.purged <= |s.cutoffs|
    && forall n :: 0 <= n < h.base && s.ever[n].key == h.key
         ==> h.checkedAt - s.ever[n].createdAt > window || Purged(s.cutoffs, h.purged, s.ever[n])
  }

  ghost predicate Seen(s: State, window: int) {
    && (forall a :: a in s.ever ==> a in s.live || Purged(s.cutoffs, |s.cutoffs|, a))
    && (forall h :: h in s.handlers && h.Passed? ==> Missed(s, h, window))
    && |s.bases| == |s.ever|
    && (forall m :: 0 <= m < |s.ever| ==>
          s.bases[m] <= m && Clear(s.ever, s.ever[m].key, s.bases[m], s.ever[m].createdAt, window))
  }

  lemma LookMisses(s: State, h: Handler, window: int)
    requires Seen(s, window) && h.Checking? && AfterLook(s, h, window).Passed?
    ensures Missed(s, AfterLook(s, h, window), window)
  {
    forall n | 0 <= n < |s.ever| && s.ever[n].key == h.key
      ensures h.checkedAt - s.ever[n].createdAt > window || Purged(s.cutoffs, |s.cutoffs|, s.ever[n])
    {
      assert s.ever[n] in s.ever;
    }
  }

  lemma StillMissed(s: State, t: State, h: Handler, window: int)
    requires h.Passed? && Missed(s, h, window) && s.ever <= t.ever && s.cutoffs <= t.cutoffs
    ensures Missed(t, h, window)
  {
    forall n | 0 <= n < h.base && t.ever[n].key == h.key
      ensures h.checkedAt - t.ever[n].createdAt > window || Purged(t.cutoffs, h.purged, t.ever[n])
    {
      assert t.ever[n] == s.ever[n];
      if Purged(s.cutoffs, h.purged, s.ever[n]) {
        var i :| 0 <= i < h.purged && i < |s.cutoffs| && s.ever[n].createdAt < s.cutoffs[i];
        assert t.cutoffs[i] == s.cutoffs[i];
      }
    }
  }

  lemma HandlersSeen(s: State, step: Step, window: int, h: Handler)
    requires Seen(s, window) && h in Do(s, step, window).handlers && h.Passed?
    ensures Missed(Do(s, step, window), h, window)
  {
    var t := Do(s, step, window);
    var j :| 0 <= j < |t.handlers| && t.handlers[j] == h;
    assert s.handlers[j] in s.handlers;
    if h != s.handlers[j] {
      LookMisses(s, s.handlers[j], window);
    }
    StillMissed(s, t, h, window);
  }

  /** A handler that inserts fairly is clear of everything inserted before it looked. */
  lemma InsertIsClear(s: State, step: Step, window: int)
    requires Seen(s, window) && InsertsFairly(s, step, window)
    requires step.Insert? && step.who < |s.handlers| && s.handlers[step.who].Passed?
    ensures var h := s.handlers[step.who];
            h.base <= |s.ever| && Clear(s.ever, h.key, h.base, step.now, window)
  {
    var h := s.handlers[step.who];
    assert h in s.handlers && Missed(s, h, window);
    forall n | 0 <= n < h.base && s.ever[n].key == h.key ensures step.now - s.ever[n].createdAt > window {
      if Purged(s.cutoffs, h.purged, s.ever[n]) {
        var i :| 0 <= i < h.purged && i < |s.cutoffs| && s.ever[n].createdAt < s.cutoffs[i];
      }
    }
  }

  lemma RowsSeen(s: State, step: Step, window: int, m: nat)
    requires Seen(s, window) && InsertsFairly(s, step, window) && m < |Do(s, step, window).ever|
    ensures var t := Do(s, step, window);
            && |t.bases| == |t.ever| && t.bases[m] <= m
            && Clear(t.ever, t.ever[m].key, t.bases[m], t.ever[m].createdAt, window)
  {
    if m == |s.ever| {
      InsertIsClear(s, step, window);
    }
  }

  lemma EverSeen(s: State, step: Step, window: int, a: AlertRow)
    requires Seen(s, window) && a in Do(s, step, window).ever
    ensures var t := Do(s, step, window);
            a in t.live || Purged(t.cutoffs, |t.cutoffs|, a)
  {
    var t := Do(s, step, window);
    if a in s.ever && Purged(s.cutoffs, |s.cutoffs|, a) {
      var i :| 0 <= i < |s.cutoffs| && a.createdAt < s.cutoffs[i];
      assert t.cutoffs[i] == s.cutoffs[i];
    } else if step.Purge? {
      Alerts.PurgedMember(s.live, step.cutoff, a);
      assert t.cutoffs[|s.cutoffs|] == step.cutoff;
    }
  }

  lemma SeenKept(s: State, step: Step, window: int)
    requires Seen(s, window) && InsertsFairly(s, step, window)
    ensures Seen(Do(s, step, window), window)
  {
    var t := Do(s, step, window);
    forall a | a in t.ever ensures a in t.live || Purged(t.cutoffs, |t.cutoffs|, a) { EverSeen(s, step, window, a); }
    forall h | h in t.handlers && h.Passed? ensures Missed(t, h, window) { HandlersSeen(s, step, window, h); }
    forall m | 0 <= m < |t.ever|
      ensures t.bases[m] <= m && Clear(t.ever, t.ever[m].key, t.bases[m], t.ever[m].createdAt, window)
    {
      RowsSeen(s, step, window, m);
    }
  }

  lemma FairBefore(s: State, steps: seq<Step>, n: nat, window: int)
    requires Fair(s, steps, window) && n <= |steps|
    ensures Fair(s, steps[..n], window)
    ensures n < |steps| ==> InsertsFairly(Run(s, steps[..n], window), steps[n], window)
  {
    forall m | 0 <= m < n ensures InsertsFairly(Run(s, steps[..n][..m], window), steps[..n][m], window) {
      assert steps[..n][..m] == steps[..m];
    }
  }

  lemma {:induction false} AlwaysKept(k: nat, steps: seq<Step>, window: int)
    requires Fair(Start(k), steps, window)
    ensures var s := Run(Start(k), steps, window);
            Few(s) && Seen(s, window) && |s.handlers| == k
  {
    if steps == [] {
    } else {
      var n := |steps| - 1;
      FairBefore(Start(k), steps, n, window);
      AlwaysKept(k, steps[..n], window);
      FewKept(Run(Start(k), steps[..n], window), steps[n], window);
      SeenKept(Run(Start(k), steps[..n], window), steps[n], window);
    }
  }

  // ----- A clock that does not go back -----

  /** The clock does not go back, and a purge keeps what is at most `retention` seconds old. */
  ghost predicate Timely(steps: seq<Step>, retention: int) {
    && (forall i, j :: 0 <= i < j < |steps| && !steps[i].Look? && !steps[j].Look? ==> steps[i].now <= steps[j].now)
    && (forall i :: 0 <= i < |steps| && steps[i].Purge? ==> steps[i].cutoff <= steps[i].now - retention)
  }

  /** Every reading of the clock so far is at most `now`. */
  ghost predicate UpTo(s: State, now: int, retention: int) {
    && (forall h :: h in s.handlers && !h.Idle? ==> h.checkedAt <= now)
    && (forall i :: 0 <= i < |s.cutoffs| ==> s.cutoffs[i] <= now - retention)
  }

  lemma {:induction false} TimelyUpTo(k: nat, steps: seq<Step>, window: int, retention: int, now: int)
    requires Timely(steps, retention)
    requires forall i :: 0 <= i < |steps| && !steps[i].Look? ==> steps[i].now <= now
    ensures UpTo(Run(Start(k), steps, window), now, retention)
  {
    if steps == [] {
    } else {
      var n := |steps| - 1;
      TimelyUpTo(k, steps[..n], window, retention, now);
      UpToKept(Run(Start(k), steps[..n], window), steps[n], window, now, retention);
    }
  }

  lemma UpToKept(s: State, step: Step, window: int, now: int, retention: int)
    requires UpTo(s, now, retention) && (!step.Look? ==> step.now <= now)
    requires step.Purge? ==> step.cutoff <= step.now - retention
    ensures UpTo(Do(s, step, window), now, retention)
  {
    var t := Do(s, step, window);
    forall h | h in t.handlers && !h.Idle? ensures h.checkedAt <= now {
      var j :| 0 <= j < |t.handlers| && t.handlers[j] == h;
      assert s.handlers[j] in s.handlers;
    }
  }

  /** Then handlers insert fairly, if purges keep the window. */
  lemma TimelyIsFair(k: nat, steps: seq<Step>, window: int, retention: int)
    requires Timely(steps, retention) && retention >= window
    ensures Fair(Start(k), steps, window)
  {
    forall n | 0 <= n < |steps| ensures InsertsFairly(Run(Start(k), steps[..n], window), steps[n], window) {
      if steps[n].Insert? {
        TimelyUpTo(k, steps[..n], window, retention, steps[n].now);
        var s := Run(Start(k), steps[..n], window);
        assert forall i :: 0 <= i < |s.handlers| ==> s.handlers[i] in s.handlers;
      }
    }
  }

  // ----- How many alerts a window can hold -----

  /** The first alert that a span counts. */
  lemma {:induction false} FirstInSpan(ever: seq<AlertRow>, key: Key, start: int, span: nat) returns (n: nat)
    requires Alerts.InSpan(ever, key, start, span) > 0
    ensures n < |ever| && Alerts.Matches(ever[n], key, start, span)
    ensures Alerts.InSpan(ever[..n], key, start, span) == 0
  {
    var last := |ever| - 1;
    if Alerts.InSpan(ever[..last], key, start, span) > 0 {
      n := FirstInSpan(ever[..last], key, start, span);
      assert ever[..last][..n] == ever[..n];
    } else {
      n := last;
    }
  }

  /** The handler of an alert in one window with an earlier one had looked before that was inserted. */
  lemma LookedBefore(s: State, key: Key, start: int, window: nat, n: nat, m: nat)
    requires Seen(s, window) && n <= m < |s.ever|
    requires Alerts.Matches(s.ever[n], key, start, window) && Alerts.Matches(s.ever[m], key, start, window)
    ensures s.bases[m] <= n
  {
    assert s.bases[m] <= m && Clear(s.ever, s.ever[m].key, s.bases[m], s.ever[m].createdAt, window);
  }

  lemma {:induction false} SpanIsLate(ever: seq<AlertRow>, bases: seq<nat>, key: Key, start: int, span: nat, n: nat)
    requires |bases| == |ever| && n <= |ever| && Alerts.InSpan(ever[..n], key, start, span) == 0
    requires forall m :: n <= m < |ever| && Alerts.Matches(ever[m], key, start, span) ==> bases[m] <= n
    ensures Alerts.InSpan(ever, key, start, span) <= Late(bases, n)
  {
    if n == |ever| {
      assert ever[..n] == ever;
    } else {
      var last := |ever| - 1;
      assert ever[..last][..n] == ever[..n];
      SpanIsLate(ever[..last], bases[..last], key, start, span, n);
    }
  }

  /**
    Over every interleaving of `k` handlers with purges, on any clock, in which the handlers insert
    fairly, no window holds more than `k` alerts with one host, device and rule.
   */
  lemma OnePerHandler(k: nat, steps: seq<Step>, window: nat, key: Key, start: int)
    requires Fair(Start(k), steps, window)
    ensures Alerts.InSpan(Run(Start(k), steps, window).ever, key, start, window) <= k
  {
    var s := Run(Start(k), steps, window);
    AlwaysKept(k, steps, window);
    if Alerts.InSpan(s.ever, key, start, window) > 0 {
      var n := FirstInSpan(s.ever, key, start, window);
      forall m | n <= m < |s.ever| && Alerts.Matches(s.ever[m], key, start, window) ensures s.bases[m] <= n {
        LookedBefore(s, key, start, window, n, m);
      }
      SpanIsLate(s.ever, s.bases, key, start, window, n);
    }
  }

  lemma {:induction false} SplitSpan(ever: seq<AlertRow>, key: Key, start: int, first: nat, span: nat)
    requires first < span
    ensures Alerts.InSpan(ever, key, start, span)
            == Alerts.InSpan(ever, key, start, first) + Alerts.InSpan(ever, key, start + first + 1, span - first - 1)
  {
    if ever == [] {
    } else {
      SplitSpan(ever[..|ever| - 1], key, start, first, span);
    }
  }

  lemma {:induction false} LongerSpan(ever: seq<AlertRow>, key: Key, start: int, span: nat, longer: nat)
    requires span <= longer
    ensures Alerts.InSpan(ever, key, start, span) <= Alerts.InSpan(ever, key, start, longer)
  {
    if ever == [] {
    } else {
      LongerSpan(ever[..|ever| - 1], key, start, span, longer);
    }
  }

  lemma {:induction false} ManyWindows(ever: seq<AlertRow>, key: Key, start: int, span: nat, window: nat, k: nat, n: nat)
    requires forall first :: Alerts.InSpan(ever, key, first, window) <= k
    requires span <= window + Alerts.Gaps(n, window + 1)
    ensures Alerts.InSpan(ever, key, start, span) <= Alerts.Gaps(n + 1, k)
    decreases n
  {
    if span <= window {
      LongerSpan(ever, key, start, span, window);
    } else {
      SplitSpan(ever, key, start, window, span);
      ManyWindows(ever, key, start + window + 1, span - window - 1, window, k, n - 1);
    }
  }

  lemma WindowsIn(span: nat, d: nat)
    requires d > 0
    ensures span <= d - 1 + Alerts.Gaps(span / d, d)
  {
    Alerts.GapsProduct(span / d, d);
  }

  lemma SpanBound(ever: seq<AlertRow>, key: Key, start: int, span: nat, window: nat, k: nat)
    requires forall first :: Alerts.InSpan(ever, key, first, window) <= k
    ensures Alerts.InSpan(ever, key, start, span) <= (span / (window + 1) + 1) * k
  {
    var n := span / (window + 1);
    WindowsIn(span, window + 1);
    ManyWindows(ever, key, start, span, window, k, n);
    Alerts.GapsProduct(n + 1, k);
  }

  /** So in any span of `span` seconds there are at most `k` for each window it touches. */
  lemma RateBound(k: nat, steps: seq<Step>, window: nat, key: Key, start: int, span: nat)
    requires Fair(Start(k), steps, window)
    ensures Alerts.InSpan(Run(Start(k), steps, window).ever, key, start, span) <= (span / (window + 1) + 1) * k
  {
    var ever := Run(Start(k), steps, window).ever;
    forall first ensures Alerts.InSpan(ever, key, first, window) <= k {
      OnePerHandler(k, steps, window, key, first);
    }
    SpanBound(ever, key, start, span, window, k);
  }

  // ----- The bound is reached -----

  /** `k` handlers that all read the clock, then all look, then all insert, at one moment. */
  function AllAtOnce(k: nat, key: Key, severity: string): seq<Step> {
    Reads(k, key, severity) + Looks(k) + Inserts(k)
  }

  function Reads(n: nat, key: Key, severity: string): seq<Step> {
    seq(n, (i: nat) => ReadClock(i, key, severity, 0))
  }

  function Looks(n: nat): seq<Step> {
    seq(n, (i: nat) => Look(i))
  }

  function Inserts(n: nat): seq<Step> {
    seq(n, (i: nat) => Insert(i, 0))
  }

  /** The first `n` handlers have made a step that the others have not. */
  function Halfway(k: nat, n: nat, done: Handler, todo: Handler): (hs: seq<Handler>)
    ensures |hs| == k && forall i :: 0 <= i < k ==> hs[i] == if i < n then done else todo
  {
    seq(k, i => if i < n then done else todo)
  }

  lemma OneFurther(k: nat, n: nat, done: Handler, todo: Handler)
    requires n < k
    ensures Halfway(k, n, done, todo)[n := done] == Halfway(k, n + 1, done, todo)
    ensures Halfway(k, k, todo, done) == Halfway(k, 0, done, todo)
  {
  }

  lemma {:induction false} RunConcat(s: State, a: seq<Step>, b: seq<Step>, window: int)
    ensures Run(s, a + b, window) == Run(Run(s, a, window), b, window)
  {
    if b == [] {
      assert a + b == a;
    } else {
      assert (a + b)[..|a + b| - 1] == a + b[..|b| - 1];
      RunConcat(s, a, b[..|b| - 1], window);
    }
  }

  lemma {:induction false} AllRead(k: nat, n: nat, key: Key, severity: string, window: int)
    requires n <= k
    ensures Run(Start(k), Reads(n, key, severity), window)
            == State([], Halfway(k, n, Checking(key, severity, 0), Idle), [], [], [])
  {
    if n == 0 {
      assert Start(k).handlers == Halfway(k, 0, Checking(key, severity, 0), Idle);
    } else {
      AllRead(k, n - 1, key, severity, window);
      OneFurther(k, n - 1, Checking(key, severity, 0), Idle);
      assert Reads(n, key, severity)[..n - 1] == Reads(n - 1, key, severity);
    }
  }

  lemma {:induction false} AllLook(k: nat, n: nat, key: Key, severity: string, window: int)
    requires n <= k
    ensures Run(State([], Halfway(k, k, Checking(key, severity, 0), Idle), [], [], []), Looks(n), window)
            == State([], Halfway(k, n, Passed(key, severity, 0, 0, 0), Checking(key, severity, 0)), [], [], [])
  {
    if n == 0 {
      assert Halfway(k, k, Checking(key, severity, 0), Idle)
             == Halfway(k, 0, Passed(key, severity, 0, 0, 0), Checking(key, severity, 0));
    } else {
      AllLook(k, n - 1, key, severity, window);
      OneFurther(k, n - 1, Passed(key, severity, 0, 0, 0), Checking(key, severity, 0));
      assert Looks(n)[..n - 1] == Looks(n - 1);
    }
  }

  lemma {:induction false} AllInsert(k: nat, n: nat, key: Key, severity: string, window: int)
    requires n <= k
    ensures var s := Run(State([], Halfway(k, k, Passed(key, severity, 0, 0, 0), Checking(key, severity, 0)), [], [], []), Inserts(n), window);
            && s.handlers == Halfway(k, n, Idle, Passed(key, severity, 0, 0, 0))
            && s.ever == Repeat(n, Alerts.AlertRow(0, key, severity))
  {
    var row := Alerts.AlertRow(0, key, severity);
    if n == 0 {
      assert Halfway(k, k, Passed(key, severity, 0, 0, 0), Checking(key, severity, 0))
             == Halfway(k, 0, Idle, Passed(key, severity, 0, 0, 0));
    } else {
      AllInsert(k, n - 1, key, severity, window);
      OneFurther(k, n - 1, Idle, Passed(key, severity, 0, 0, 0));
      assert Inserts(n)[..n - 1] == Inserts(n - 1);
      assert Repeat(n, row) == Repeat(n - 1, row) + [row];
    }
  }

  lemma {:induction false} CopiesInSpan(n: nat, row: AlertRow, span: nat)
    ensures Alerts.InSpan(Repeat(n, row), row.key, row.createdAt, span) == n
  {
    if n == 0 {
    } else {
      CopiesInSpan(n - 1, row, span);
      assert Repeat(n, row)[..n - 1] == Repeat(n - 1, row);
    }
  }

  lemma AtOneMoment(k: nat, key: Key, severity: string, window: nat)
    ensures Timely(AllAtOnce(k, key, severity), window)
  {
    var steps := AllAtOnce(k, key, severity);
    forall i | 0 <= i < |steps| ensures (steps[i].Look? || steps[i].now == 0) && !steps[i].Purge? {
      assert i < k ==> steps[i] == Reads(k, key, severity)[i];
    }
  }

  /** The bound is reached for every `k`: handlers that all look before any inserts repeat an alert at once. */
  lemma BoundReached(k: nat, key: Key, severity: string, window: nat)
    ensures Timely(AllAtOnce(k, key, severity), window) && Fair(Start(k), AllAtOnce(k, key, severity), window)
    ensures Alerts.InSpan(Run(Start(k), AllAtOnce(k, key, severity), window).ever, key, 0, window) == k
  {
    AtOneMoment(k, key, severity, window);
    TimelyIsFair(k, AllAtOnce(k, key, severity), window, window);
    var s := Start(k);
    RunConcat(s, Reads(k, key, severity) + Looks(k), Inserts(k), window);
    RunConcat(s, Reads(k, key, severity), Looks(k), window);
    AllRead(k, k, key, severity, window);
    AllLook(k, k, key, severity, window);
    AllInsert(k, k, key, severity, window);
    CopiesInSpan(k, Alerts.AlertRow(0, key, severity), window);
  }

  /** A handler's steps with nothing in between are one firing of the sequential model. */
  lemma UninterruptedFiring(s: State, i: nat, key: Key, severity: string, checkedAt: int, insertedAt: int, window: int)
    requires i < |s.handlers| && s.handlers[i].Idle?
    ensures var t := Do(Do(Do(s, ReadClock(i, key, severity, checkedAt), window), Look(i), window),
                        Insert(i, insertedAt), window);
            && t.handlers == s.handlers
            && Alerts.State(t.live, t.ever)
               == Alerts.Do(Alerts.State(s.live, s.ever), Alerts.Fire(key, severity, checkedAt, insertedAt), window)
  {
    var t := Do(Do(Do(s, ReadClock(i, key, severity, checkedAt), window), Look(i), window), Insert(i, insertedAt), window);
    assert t.handlers == s.handlers;
  }
}
