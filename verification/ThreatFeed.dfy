/**
  The lazily loaded threat feed (server/detection/threat_feed.py): double-checked locking with one
  lock around the first load and another around the feed itself, as interleaved steps of any number
  of lookups and explicit reloads.  A thread that waits for a lock that is taken has no step.
 */
module ThreatFeed {
  import opened Data

  type Feed = set<string>

  /** Where a thread is.  `first` tells a load on first use, under the load lock, from an explicit reload. */
  datatype Thread =
    | Starting(device: string)                                   // `_ensure_loaded`: first look at `_loaded`, no lock
    | AwaitingLoadLock(device: string)
    | Rechecking(device: string)                                 // holds the load lock
    | Fetching(device: string, first: bool)                      // `reload`: reading the sources
    | AwaitingInstall(device: string, first: bool, feed: Feed)   // waits for the feed lock
    | Installing(device: string, first: bool, feed: Feed)        // holds the feed lock
    | Leaving(device: string)                                    // about to release the load lock
    | AwaitingLookup(device: string)                             // waits for the feed lock
    | LookingUp(device: string)                                  // holds the feed lock
    | Answered(device: string, malicious: bool)
    | Reloaded
    | Failed

  /**
    The second line is history: every feed installed, how many were when a lookup was answered, and
    how many first loads were started, installed a feed and failed.
   */
  datatype State = State(
    threads: seq<Thread>, loaded: bool, known: Feed, loadLock: Option<nat>, feedLock: Option<nat>,
    installed: seq<Feed>, answeredAt: map<nat, nat>, fetches: nat, loads: nat, failures: nat)

  /** `lookups` callers and `reloads` explicit reloads. */
  function Start(lookups: seq<string>, reloads: nat): State {
    State(seq(|lookups|, i requires 0 <= i < |lookups| => Starting(lookups[i])) + seq(reloads, _ => Fetching("", false)),
          false, {}, None, None, [], map[], 0, 0, 0)
  }

  predicate Finished(t: Thread) {
    t.Answered? || t.Reloaded? || t.Failed?
  }

  predicate Enabled(s: State, i: nat) {
    && i < |s.threads|
    && !Finished(s.threads[i])
    && (s.threads[i].AwaitingLoadLock? ==> s.loadLock.None?)
    && (s.threads[i].AwaitingInstall? || s.threads[i].AwaitingLookup? ==> s.feedLock.None?)
  }

  /** One step of thread `i`; `source` is what reading the sources gives, `None` an exception. */
  datatype Step = Step(i: nat, source: Option<Feed>)

  /** Where a thread that can take a step gets to. */
  function Next(t: Thread, loaded: bool, known: Feed, source: Option<Feed>): Thread {
    match t
    case Starting(d) => if loaded then AwaitingLookup(d) else AwaitingLoadLock(d)
    case AwaitingLoadLock(d) => Rechecking(d)
    case Rechecking(d) => if loaded then Leaving(d) else Fetching(d, true)
    case Fetching(d, first) => if source.Some? then AwaitingInstall(d, first, source.value) else Failed
    case AwaitingInstall(d, first, feed) => Installing(d, first, feed)
    case Installing(d, first, feed) => if first then Leaving(d) else Reloaded
    case Leaving(d) => AwaitingLookup(d)
    case AwaitingLookup(d) => LookingUp(d)
    case LookingUp(d) => Answered(d, d in known)
    case _ => t
  }

  /** Between deciding to load on first use and having installed the feed. */
  predicate Loading(t: Thread) {
    (t.Fetching? || t.AwaitingInstall? || t.Installing?) && t.first
  }

  predicate HoldsLoadLock(t: Thread) {
    t.Rechecking? || t.Leaving? || Loading(t)
  }

  predicate HoldsFeedLock(t: Thread) {
    t.Installing? || t.LookingUp?
  }

  /** A lock is taken on entering its section and released on leaving it, by an exception too. */
  function LockAfter(lock: Option<nat>, i: nat, before: bool, after: bool): Option<nat> {
    if after then Some(i) else if before then None else lock
  }

  function Do(s: State, step: Step): State {
    var i := step.i;
    if !Enabled(s, i) then s
    else
      var t := s.threads[i];
      var u := Next(t, s.loaded, s.known, step.source);
      State(s.threads[i := u],
            s.loaded || t.Installing?,
            if t.Installing? then t.feed else s.known,
            LockAfter(s.loadLock, i, HoldsLoadLock(t), HoldsLoadLock(u)),
            LockAfter(s.feedLock, i, HoldsFeedLock(t), HoldsFeedLock(u)),
            if t.Installing? then s.installed + [t.feed] else s.installed,
            if u.Answered? then s.answeredAt[i := |s.installed|] else s.answeredAt,
            s.fetches + (if t.Rechecking? && Loading(u) then 1 else 0),
            s.loads + (if t.Installing? && t.first then 1 else 0),
            s.failures + (if Loading(t) && u.Failed? then 1 else 0))
  }

  function Run(s: State, steps: seq<Step>): State {
    if steps == [] then s else Do(Run(s, steps[..|steps| - 1]), steps[|steps| - 1])
  }

  // ----- Who holds which lock -----

  ghost predicate LocksKept(s: State) {
    && (forall i :: 0 <= i < |s.threads| ==> (HoldsLoadLock(s.threads[i]) <==> s.loadLock == Some(i)))
    && (forall i :: 0 <= i < |s.threads| ==> (HoldsFeedLock(s.threads[i]) <==> s.feedLock == Some(i)))
    && (s.loadLock.Some? ==> s.loadLock.value < |s.threads|)
    && (s.feedLock.Some? ==> s.feedLock.value < |s.threads|)
  }

  /** Is a first load under way?  Only the holder of the load lock can be at it. */
  predicate UnderWay(s: State) {
    s.loadLock.Some? && s.loadLock.value < |s.threads| && Loading(s.threads[s.loadLock.value])
  }

  ghost predicate LoadsKept(s: State) {
    && s.fetches == s.loads + s.failures + (if UnderWay(s) then 1 else 0)
    && s.loads + (if UnderWay(s) then 1 else 0) <= 1
    && (s.loads > 0 ==> s.loaded)
  }

  /** The answer of thread `i` is about the feed that had been installed last when it was given. */
  ghost predicate UpToDate(s: State, i: nat)
    requires i < |s.threads| && s.threads[i].Answered?
  {
    && i in s.answeredAt && 0 < s.answeredAt[i] <= |s.installed|
    && (s.threads[i].malicious <==> s.threads[i].device in s.installed[s.answeredAt[i] - 1])
  }

  /** A thread that is past loading, or has an answer, finds a feed installed. */
  ghost predicate ThreadSound(s: State, i: nat)
    requires i < |s.threads|
  {
    var t := s.threads[i];
    && (t.Leaving? || t.AwaitingLookup? || t.LookingUp? || t.Answered? ==> s.loaded)
    && (t.Answered? ==> UpToDate(s, i))
  }

  ghost predicate FeedKept(s: State) {
    && (s.loaded <==> s.installed != [])
    && (s.loaded ==> s.known == s.installed[|s.installed| - 1])
    && (forall i :: 0 <= i < |s.threads| ==> ThreadSound(s, i))
  }

  lemma LocksStep(s: State, step: Step)
    requires LocksKept(s)
    ensures LocksKept(Do(s, step))
  {
    if Enabled(s, step.i) {
      var t := s.threads[step.i];
      var u := Next(t, s.loaded, s.known, step.source);
      SectionEntry(t, s.loaded, s.known, step.source);
      OwnersKept(s.loadLock, step.i, HoldsLoadLock(t), HoldsLoadLock(u), |s.threads|);
      OwnersKept(s.feedLock, step.i, HoldsFeedLock(t), HoldsFeedLock(u), |s.threads|);
    }
  }

  /** A section is entered only from the place where its lock is awaited. */
  lemma SectionEntry(t: Thread, loaded: bool, known: Feed, source: Option<Feed>)
    ensures var u := Next(t, loaded, known, source);
            && (HoldsLoadLock(u) && !HoldsLoadLock(t) ==> t.AwaitingLoadLock?)
            && (HoldsFeedLock(u) && !HoldsFeedLock(t) ==> t.AwaitingInstall? || t.AwaitingLookup?)
  {
  }

  lemma OwnersKept(lock: Option<nat>, i: nat, before: bool, after: bool, n: nat)
    requires i < n && (before <==> lock == Some(i)) && (after && !before ==> lock == None)
    ensures var now := LockAfter(lock, i, before, after);
            && (after <==> now == Some(i))
            && forall j: nat :: j != i ==> (now == Some(j) <==> lock == Some(j))
  {
  }

  lemma LoadsStep(s: State, step: Step)
    requires LocksKept(s) && LoadsKept(s)
    ensures LoadsKept(Do(s, step))
  {
    LocksStep(s, step);
    if Enabled(s, step.i) {
      var t := s.threads[step.i];
      var u := Next(t, s.loaded, s.known, step.source);
      if HoldsLoadLock(t) || HoldsLoadLock(u) {
        HolderLoads(s, step.i);
        HolderLoads(Do(s, step), step.i);
      } else {
        assert Do(s, step).loadLock == s.loadLock;
        assert s.loadLock.Some? ==> s.loadLock.value != step.i;
      }
    }
  }

  lemma HolderLoads(s: State, i: nat)
    requires LocksKept(s) && i < |s.threads|
    ensures HoldsLoadLock(s.threads[i]) ==> (UnderWay(s) <==> Loading(s.threads[i]))
    ensures s.loadLock == None ==> !UnderWay(s)
  {
  }

  lemma FeedStep(s: State, step: Step)
    requires FeedKept(s)
    ensures FeedKept(Do(s, step))
  {
    var t := Do(s, step);
    forall i | 0 <= i < |t.threads| ensures ThreadSound(t, i) {
      assert ThreadSound(s, i);
    }
  }

  ghost predicate Kept(s: State) {
    LocksKept(s) && LoadsKept(s) && FeedKept(s)
  }

  lemma StartKept(lookups: seq<string>, reloads: nat)
    ensures Kept(Start(lookups, reloads))
  {
    var s := Start(lookups, reloads);
    assert forall i :: 0 <= i < |s.threads| ==> s.threads[i].Starting? || s.threads[i] == Fetching("", false);
  }

  lemma {:induction false} AlwaysKept(lookups: seq<string>, reloads: nat, steps: seq<Step>)
    ensures Kept(Run(Start(lookups, reloads), steps))
  {
    if steps == [] {
      StartKept(lookups, reloads);
    } else {
      var before := steps[..|steps| - 1];
      AlwaysKept(lookups, reloads, before);
      var s := Run(Start(lookups, reloads), before);
      LocksStep(s, steps[|steps| - 1]);
      LoadsStep(s, steps[|steps| - 1]);
      FeedStep(s, steps[|steps| - 1]);
    }
  }

  /**
    Over every interleaving of lookups and reloads, at most one first load succeeds, each other one
    that was started failed, and no lookup is answered before a feed was installed: the answer is
    about the feed that had been installed last when it was given.
   */
  lemma LoadedAtMostOnce(lookups: seq<string>, reloads: nat, steps: seq<Step>)
    ensures var s := Run(Start(lookups, reloads), steps);
            && s.loads <= 1
            && s.fetches <= s.failures + 1
            && forall i :: 0 <= i < |s.threads| && s.threads[i].Answered? ==> s.loaded && UpToDate(s, i)
  {
    AlwaysKept(lookups, reloads, steps);
    var s := Run(Start(lookups, reloads), steps);
    forall i | 0 <= i < |s.threads| && s.threads[i].Answered? ensures s.loaded && UpToDate(s, i) {
      assert ThreadSound(s, i);
    }
  }

  /** Some step read this feed from the sources. */
  ghost predicate WasRead(steps: seq<Step>, feed: Feed) {
    exists n :: 0 <= n < |steps| && steps[n].source == Some(feed)
  }

  /** Every feed that is installed, or about to be, was read. */
  ghost predicate AllRead(s: State, steps: seq<Step>) {
    && (forall feed :: feed in s.installed ==> WasRead(steps, feed))
    && (forall i :: 0 <= i < |s.threads| && (s.threads[i].AwaitingInstall? || s.threads[i].Installing?)
          ==> WasRead(steps, s.threads[i].feed))
  }

  lemma ReadStep(s: State, steps: seq<Step>, step: Step)
    requires AllRead(s, steps)
    ensures AllRead(Do(s, step), steps + [step])
  {
    var all := steps + [step];
    forall feed | WasRead(steps, feed) ensures WasRead(all, feed) {
      var n :| 0 <= n < |steps| && steps[n].source == Some(feed);
      assert all[n] == steps[n];
    }
    assert all[|steps|] == step;
  }

  lemma {:induction false} AlwaysRead(lookups: seq<string>, reloads: nat, steps: seq<Step>)
    ensures AllRead(Run(Start(lookups, reloads), steps), steps)
  {
    if steps == [] {
      var s := Start(lookups, reloads);
      assert forall i :: 0 <= i < |s.threads| ==> s.threads[i].Starting? || s.threads[i] == Fetching("", false);
    } else {
      var before := steps[..|steps| - 1];
      AlwaysRead(lookups, reloads, before);
      ReadStep(Run(Start(lookups, reloads), before), before, steps[|steps| - 1]);
      assert steps == before + [steps[|steps| - 1]];
    }
  }

  /** The feed in use is the one installed last, and every one installed was read from the sources. */
  lemma FeedComesFromSources(lookups: seq<string>, reloads: nat, steps: seq<Step>)
    ensures var s := Run(Start(lookups, reloads), steps);
            && (forall feed :: feed in s.installed ==> WasRead(steps, feed))
            && (s.installed != [] ==> s.loaded && s.known == s.installed[|s.installed| - 1])
  {
    AlwaysKept(lookups, reloads, steps);
    AlwaysRead(lookups, reloads, steps);
  }

  /** The two locks never block everyone: while a thread is unfinished, some thread has a step. */
  lemma NeverDeadlocked(lookups: seq<string>, reloads: nat, steps: seq<Step>)
    ensures var s := Run(Start(lookups, reloads), steps);
            (forall i :: 0 <= i < |s.threads| ==> Finished(s.threads[i])) || exists i :: Enabled(s, i)
  {
    AlwaysKept(lookups, reloads, steps);
    var s := Run(Start(lookups, reloads), steps);
    if i :| 0 <= i < |s.threads| && !Finished(s.threads[i]) {
      if s.feedLock.Some? {
        assert Enabled(s, s.feedLock.value);
      } else if s.loadLock.Some? {
        assert Enabled(s, s.loadLock.value);
      } else {
        assert Enabled(s, i);
      }
    }
  }

  // ----- Every schedule ends -----

  /** How many steps a thread can still take. */
  function Remaining(t: Thread): nat {
    match t
    case Starting(_) => 9
    case AwaitingLoadLock(_) => 8
    case Rechecking(_) => 7
    case Fetching(_, _) => 6
    case AwaitingInstall(_, _, _) => 5
    case Installing(_, _, _) => 4
    case Leaving(_) => 3
    case AwaitingLookup(_) => 2
    case LookingUp(_) => 1
    case _ => 0
  }

  function AllRemaining(ts: seq<Thread>): nat {
    if ts == [] then 0 else Remaining(ts[0]) + AllRemaining(ts[1..])
  }

  lemma {:induction false} RemainingUpdate(ts: seq<Thread>, i: nat, t: Thread)
    requires i < |ts|
    ensures AllRemaining(ts[i := t]) == AllRemaining(ts) - Remaining(ts[i]) + Remaining(t)
  {
    if i == 0 {
      assert ts[i := t][1..] == ts[1..];
    } else {
      assert ts[i := t][1..] == ts[1..][i - 1 := t];
      RemainingUpdate(ts[1..], i - 1, t);
    }
  }

  lemma StepDescends(s: State, step: Step)
    requires Enabled(s, step.i)
    ensures AllRemaining(Do(s, step).threads) < AllRemaining(s.threads)
  {
    var t := s.threads[step.i];
    RemainingUpdate(s.threads, step.i, Next(t, s.loaded, s.known, step.source));
    NextDescends(t, s.loaded, s.known, step.source);
  }

  lemma NextDescends(t: Thread, loaded: bool, known: Feed, source: Option<Feed>)
    requires !Finished(t)
    ensures Remaining(Next(t, loaded, known, source)) < Remaining(t)
  {
  }

  lemma {:induction false} AllRemainingBound(ts: seq<Thread>)
    ensures AllRemaining(ts) <= 9 * |ts|
  {
    if ts == [] {
    } else {
      AllRemainingBound(ts[1..]);
    }
  }

  /** Every step of the schedule is one that its thread could take. */
  ghost predicate Effective(s: State, steps: seq<Step>) {
    forall n :: 0 <= n < |steps| ==> Enabled(Run(s, steps[..n]), steps[n].i)
  }

  lemma EffectivePrefix(s: State, steps: seq<Step>, n: nat)
    requires Effective(s, steps) && n <= |steps|
    ensures Effective(s, steps[..n])
  {
    forall m | 0 <= m < n ensures Enabled(Run(s, steps[..n][..m]), steps[..n][m].i) {
      assert steps[..n][..m] == steps[..m];
    }
  }

  lemma {:induction false} EffectiveLength(s: State, steps: seq<Step>)
    requires Effective(s, steps)
    ensures |steps| + AllRemaining(Run(s, steps).threads) <= AllRemaining(s.threads)
  {
    if steps == [] {
    } else {
      var n := |steps| - 1;
      EffectivePrefix(s, steps, n);
      EffectiveLength(s, steps[..n]);
      StepDescends(Run(s, steps[..n]), steps[n]);
    }
  }

  /** No schedule of effective steps is longer than nine steps a thread: everyone gets an answer or an error. */
  lemma EveryScheduleEnds(lookups: seq<string>, reloads: nat, steps: seq<Step>)
    requires Effective(Start(lookups, reloads), steps)
    ensures |steps| <= 9 * (|lookups| + reloads)
  {
    EffectiveLength(Start(lookups, reloads), steps);
    AllRemainingBound(Start(lookups, reloads).threads);
  }
}
