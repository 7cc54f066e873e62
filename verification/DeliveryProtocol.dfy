/**
  The delivery protocol of agent/transport.py as interleaved steps.

  Every queue call takes the queue's lock on its own, so `enqueue` is three steps (size check,
  eviction of the oldest row, put) and `_flush` is three (peek, post, commit), and the steps of
  any number of enqueuers and flushers may be interleaved.  There is one flusher, the loop's
  thread, until `stop` flushes while that thread may still be posting.  A crash may fall anywhere:
  it loses the program counters and keeps the rows.  Each operation of the model is total (a step
  whose process is elsewhere does nothing), so every list of steps is a run.
 */
module DeliveryProtocol {
  import opened Data
  import opened DeliveryQueue

  const BATCH_SIZE: nat := 100

  datatype Enqueuer =
    | Idle
    | Evicting(event: Json)  // saw a full queue, has not yet evicted
    | Putting(event: Json)   // about to put

  /** `meanwhile` is history: the number of rows of `batch` in what others have committed since the peek. */
  datatype Flusher =
    | Resting
    | Posting(start: nat, batch: seq<Json>, meanwhile: nat)                   // peeked, waiting for the server
    | Committing(start: nat, batch: seq<Json>, meanwhile: nat, attempt: nat)  // posted, has not yet committed

  /** A finished post of the events with put numbers `lo..hi`. */
  datatype Attempt = Attempt(lo: nat, hi: nat, ok: bool)

  /**
    `queue`, `enqueuers` and `flushers` are the running system.  The rest is history: `puts` is
    everything ever put, `attempts` every finished post, `committed` those whose commit was made,
    `torn` the indices of those whose commit a crash prevented, `evicted` the number of rows that
    evictions removed, and `overlapped` the number of rows of committed batches that other flushers
    had committed between peek and commit.
   */
  datatype State = State(
    queue: seq<Json>, enqueuers: seq<Enqueuer>, flushers: seq<Flusher>,
    puts: seq<Json>, attempts: seq<Attempt>, committed: seq<Attempt>, torn: set<int>, evicted: nat, overlapped: nat)
  {
    /** The number of rows ever removed; wherever the invariant holds, the put number of the front row. */
    function Head(): int {
      |puts| - |queue|
    }
  }

  datatype Step =
    | CheckSize(who: nat, event: Json)
    | Evict(who: nat)
    | Put(who: nat)
    | Peek(who: nat)
    | PostSucceeds(who: nat)
    | PostFails(who: nat)
    | Commit(who: nat)
    | Crash

  function Start(stored: seq<Json>, k: nat, f: nat): State {
    State(stored, seq(k, _ => Idle), seq(f, _ => Resting), stored, [], [], {}, 0, 0)
  }

  function Do(s: State, step: Step, max: nat): State {
    match step
    case CheckSize(i, event) =>
      if i < |s.enqueuers| && s.enqueuers[i].Idle? then
        s.(enqueuers := s.enqueuers[i := if |s.queue| >= max then Evicting(event) else Putting(event)])
      else s
    case Evict(i) =>
      if i < |s.enqueuers| && s.enqueuers[i].Evicting? then
        s.(queue := Drop(s.queue, 1), enqueuers := s.enqueuers[i := Putting(s.enqueuers[i].event)],
           evicted := s.evicted + Min(1, |s.queue|))
      else s
    case Put(i) =>
      if i < |s.enqueuers| && s.enqueuers[i].Putting? then
        s.(queue := s.queue + [s.enqueuers[i].event], puts := s.puts + [s.enqueuers[i].event],
           enqueuers := s.enqueuers[i := Idle])
      else s
    case Peek(i) =>
      if i < |s.flushers| && s.flushers[i].Resting? && s.queue != [] && s.Head() >= 0 then
        s.(flushers := s.flushers[i := Posting(s.Head(), Take(s.queue, BATCH_SIZE), 0)])
      else s
    case PostSucceeds(i) =>
      if i < |s.flushers| && s.flushers[i].Posting? then
        var f := s.flushers[i];
        s.(flushers := s.flushers[i := Committing(f.start, f.batch, f.meanwhile, |s.attempts|)],
           attempts := s.attempts + [Finished(f, true)])
      else s
    case PostFails(i) =>
      if i < |s.flushers| && s.flushers[i].Posting? then
        s.(flushers := s.flushers[i := Resting], attempts := s.attempts + [Finished(s.flushers[i], false)])
      else s
    case Commit(i) =>
      if i < |s.flushers| && s.flushers[i].Committing? then
        var f := s.flushers[i];
        s.(queue := Drop(s.queue, |f.batch|),
           flushers := AfterCommit(s.flushers, i, Finished(f, true)),
           committed := s.committed + [Finished(f, true)],
           overlapped := s.overlapped + Min(|f.batch|, f.meanwhile))
      else s
    case Crash =>
      s.(enqueuers := seq(|s.enqueuers|, _ => Idle), flushers := seq(|s.flushers|, _ => Resting),
         torn := s.torn + set f | f in s.flushers && f.Committing? :: f.attempt as int)
  }

  function Finished(f: Flusher, ok: bool): Attempt
    requires !f.Resting?
  {
    Attempt(f.start, f.start + |f.batch|, ok)
  }

  /** Flusher `i` rests; the others have been overtaken by what it committed. */
  function AfterCommit(flushers: seq<Flusher>, i: nat, a: Attempt): seq<Flusher> {
    seq(|flushers|, j requires 0 <= j < |flushers| => if j == i then Resting else Overtaken(flushers[j], a))
  }

  function Overtaken(f: Flusher, a: Attempt): Flusher {
    if f.Resting? then f else f.(meanwhile := f.meanwhile + Common(a, f.start, f.start + |f.batch|))
  }

  /** The part of `lo..hi` that is in the range of `a`. */
  function Common(a: Attempt, lo: nat, hi: nat): nat {
    var l, h := if lo < a.lo then a.lo else lo, Min(hi, a.hi);
    if l < h then h - l else 0
  }

  function Run(s: State, steps: seq<Step>, max: nat): State {
    if steps == [] then s else Do(Run(s, steps[..|steps| - 1], max), steps[|steps| - 1], max)
  }

  /** A crash keeps what is on disk and nothing else: every enqueuer and every flusher starts anew. */
  lemma CrashKeepsRows(s: State, max: nat)
    ensures var t := Do(s, Crash, max);
            && t.queue == s.queue && t.puts == s.puts && t.attempts == s.attempts
            && |t.enqueuers| == |s.enqueuers| && (forall e :: e in t.enqueuers ==> e.Idle?)
            && |t.flushers| == |s.flushers| && (forall f :: f in t.flushers ==> f.Resting?)
            && forall i :: i in t.torn <==> i in s.torn || exists f :: f in s.flushers && f.Committing? && f.attempt == i
  {
  }

  // ----- The rows are always the latest part of everything ever put -----

  ghost predicate Latest(queue: seq<Json>, puts: seq<Json>) {
    |queue| <= |puts| && queue == puts[|puts| - |queue|..]
  }

  /** A batch in flight is a range of the put history that was at the front, or is. */
  ghost predicate InHistory(f: Flusher, head: int, puts: seq<Json>) {
    !f.Resting? ==>
      && f.batch != []
      && f.start <= head
      && f.start + |f.batch| <= |puts|
      && f.batch == puts[f.start..f.start + |f.batch|]
  }

  ghost predicate Shape(s: State) {
    Latest(s.queue, s.puts) && forall f :: f in s.flushers ==> InHistory(f, s.Head(), s.puts)
  }

  lemma LatestKept(queue: seq<Json>, puts: seq<Json>, n: nat, event: Json)
    requires Latest(queue, puts)
    ensures Latest(Drop(queue, n), puts) && Latest(queue + [event], puts + [event])
  {
    var h := |puts| - |queue|;
    assert (puts + [event])[h..] == puts[h..] + [event];
    if n <= |queue| { assert puts[h..][n..] == puts[h + n..]; }
  }

  lemma BatchOfPuts(s: State)
    requires Shape(s) && s.queue != []
    ensures InHistory(Posting(s.Head(), Take(s.queue, BATCH_SIZE), 0), s.Head(), s.puts)
  {
  }

  lemma InHistoryLater(f: Flusher, head: int, puts: seq<Json>, head': int, more: seq<Json>)
    requires InHistory(f, head, puts) && head <= head'
    ensures InHistory(f, head', puts + more)
  {
    if !f.Resting? {
      var lo, hi := f.start, f.start + |f.batch|;
      assert (puts + more)[lo..hi] == puts[lo..hi];
    }
  }

  lemma LatestAlways(s: State, step: Step, max: nat)
    requires Latest(s.queue, s.puts)
    ensures Latest(Do(s, step, max).queue, Do(s, step, max).puts)
  {
    match step
    case Evict(i) => LatestKept(s.queue, s.puts, 1, Null);
    case Put(i) =>
      if i < |s.enqueuers| && s.enqueuers[i].Putting? {
        LatestKept(s.queue, s.puts, 0, s.enqueuers[i].event);
      }
    case Commit(i) =>
      if i < |s.flushers| && s.flushers[i].Committing? {
        LatestKept(s.queue, s.puts, |s.flushers[i].batch|, Null);
      }
    case _ =>
  }

  lemma OnlyPutsMore(s: State, step: Step, max: nat) returns (more: seq<Json>)
    requires Latest(s.queue, s.puts)
    ensures Do(s, step, max).puts == s.puts + more && s.Head() <= Do(s, step, max).Head()
  {
    var t := Do(s, step, max);
    more := t.puts[|s.puts|..];
  }

  lemma ShapeKept(s: State, step: Step, max: nat)
    requires Shape(s)
    ensures Shape(Do(s, step, max))
  {
    var t := Do(s, step, max);
    LatestAlways(s, step, max);
    var more := OnlyPutsMore(s, step, max);
    forall g | g in t.flushers ensures InHistory(g, t.Head(), t.puts) {
      var f := Before(s, step, max, g);
      InHistoryLater(f, s.Head(), s.puts, t.Head(), more);
    }
  }

  /** Every flusher after a step rests or has the range of one that was in history before. */
  lemma Before(s: State, step: Step, max: nat, g: Flusher) returns (f: Flusher)
    requires Shape(s) && g in Do(s, step, max).flushers
    ensures InHistory(f, s.Head(), s.puts)
    ensures !g.Resting? ==> !f.Resting? && f.start == g.start && f.batch == g.batch
  {
    var t := Do(s, step, max);
    var j :| 0 <= j < |t.flushers| && t.flushers[j] == g;
    f := g;
    if g.Resting? {
    } else if step == Peek(j) && t != s {
      BatchOfPuts(s);
    } else if !step.Crash? {
      f := s.flushers[j];
      assert f in s.flushers;
    }
  }

  // ----- Loss accounting -----

  /** Was the event with put number `i` in a post that succeeded? */
  ghost predicate Acknowledged(attempts: seq<Attempt>, i: int) {
    exists a :: a in attempts && a.ok && a.lo <= i < a.hi
  }

  /** How many of the first `n` events ever put were in no successful post. */
  ghost function Unacknowledged(attempts: seq<Attempt>, n: nat): nat {
    if n == 0 then 0
    else Unacknowledged(attempts, n - 1) + if Acknowledged(attempts, n - 1) then 0 else 1
  }

  lemma {:induction false} UnacknowledgedGrows(attempts: seq<Attempt>, m: nat, n: nat)
    requires m <= n
    ensures Unacknowledged(attempts, m) <= Unacknowledged(attempts, n) <= Unacknowledged(attempts, m) + (n - m)
  {
    if m >= n {
    } else {
      UnacknowledgedGrows(attempts, m, n - 1);
    }
  }

  lemma {:induction false} MoreAttempts(fewer: seq<Attempt>, more: seq<Attempt>, n: nat)
    requires forall a :: a in fewer ==> a in more
    ensures Unacknowledged(more, n) <= Unacknowledged(fewer, n)
  {
    if n == 0 {
    } else {
      MoreAttempts(fewer, more, n - 1);
    }
  }

  /** Nothing at or beyond `lo` is acknowledged when no attempt reaches beyond it. */
  lemma {:induction false} NoneBeyond(attempts: seq<Attempt>, lo: nat, hi: nat)
    requires lo <= hi && forall a :: a in attempts ==> a.hi <= lo
    ensures Unacknowledged(attempts, hi) == Unacknowledged(attempts, lo) + (hi - lo)
  {
    if lo >= hi {
    } else {
      NoneBeyond(attempts, lo, hi - 1);
    }
  }

  lemma OneMoreAcknowledges(attempts: seq<Attempt>, a: Attempt, i: int)
    ensures Acknowledged(attempts + [a], i) <==> Acknowledged(attempts, i) || (a.ok && a.lo <= i < a.hi)
  {
    assert forall b :: b in attempts + [a] <==> b in attempts || b == a;
  }

  /** A successful post that lies before `n` settles everything in it that was unsettled. */
  lemma {:induction false} Settles(attempts: seq<Attempt>, a: Attempt, n: nat)
    requires a.ok && a.lo <= a.hi <= n
    ensures Unacknowledged(attempts + [a], n)
            == Unacknowledged(attempts, n) - (Unacknowledged(attempts, a.hi) - Unacknowledged(attempts, a.lo))
    decreases n
  {
    if a.hi < n {
      Settles(attempts, a, n - 1);
      OneMoreAcknowledges(attempts, a, n - 1);
    } else {
      SettlesWithin(attempts, a, n);
    }
  }

  lemma {:induction false} SettlesWithin(attempts: seq<Attempt>, a: Attempt, n: nat)
    requires a.ok && n <= a.hi
    ensures Unacknowledged(attempts + [a], n) == Unacknowledged(attempts, if n < a.lo then n else a.lo)
  {
    if n == 0 {
    } else {
      SettlesWithin(attempts, a, n - 1);
      OneMoreAcknowledges(attempts, a, n - 1);
    }
  }

  /** A post takes from a range no more than the two have in common. */
  lemma {:induction false} TakesCommon(attempts: seq<Attempt>, a: Attempt, lo: nat, hi: nat)
    requires lo <= hi
    ensures Unacknowledged(attempts + [a], hi) - Unacknowledged(attempts + [a], lo)
            >= Unacknowledged(attempts, hi) - Unacknowledged(attempts, lo) - Common(a, lo, hi)
  {
    if lo >= hi {
    } else {
      TakesCommon(attempts, a, lo, hi - 1);
      OneMoreAcknowledges(attempts, a, hi - 1);
    }
  }

  /** Of a batch in flight, no more is already in a committed batch than others committed since the peek. */
  ghost predicate Counted(f: Flusher, committed: seq<Attempt>) {
    !f.Resting? ==>
      var hi := f.start + |f.batch|;
      |f.batch| - (Unacknowledged(committed, hi) - Unacknowledged(committed, f.start)) <= f.meanwhile
  }

  ghost predicate Posted(f: Flusher, attempts: seq<Attempt>) {
    f.Committing? ==> Finished(f, true) in attempts
  }

  /** Evictions and overlaps pay for every removed row that is in no committed batch. */
  ghost predicate LossPaid(s: State) {
    && Shape(s)
    && Unacknowledged(s.committed, s.Head()) <= s.evicted + s.overlapped
    && (forall a :: a in s.committed ==> a in s.attempts && a.ok && a.hi <= s.Head())
    && (forall f :: f in s.flushers ==> Counted(f, s.committed) && Posted(f, s.attempts))
  }

  /** What one commit adds to the rows that are removed but in no committed batch. */
  lemma CommitPays(s: State, i: nat, max: nat)
    requires LossPaid(s) && i < |s.flushers| && s.flushers[i].Committing?
    ensures var t := Do(s, Commit(i), max);
            && t.Head() >= 0 && Finished(s.flushers[i], true).hi <= t.Head()
            && Unacknowledged(t.committed, t.Head()) <= t.evicted + t.overlapped
  {
    var f := s.flushers[i];
    var a, head := Finished(f, true), Do(s, Commit(i), max).Head();
    assert f in s.flushers && InHistory(f, s.Head(), s.puts) && Counted(f, s.committed);
    Settles(s.committed, a, head);
    UnacknowledgedGrows(s.committed, s.Head(), head);
    UnacknowledgedGrows(s.committed, a.lo, a.hi);
  }

  lemma CountedAfterCommit(f: Flusher, committed: seq<Attempt>, a: Attempt)
    requires Counted(f, committed)
    ensures Counted(Overtaken(f, a), committed + [a])
  {
    if !f.Resting? {
      TakesCommon(committed, a, f.start, f.start + |f.batch|);
    }
  }

  lemma FlusherPaidAfterCommit(s: State, i: nat, max: nat, g: Flusher)
    requires LossPaid(s) && i < |s.flushers| && s.flushers[i].Committing? && g in Do(s, Commit(i), max).flushers
    ensures Counted(g, s.committed + [Finished(s.flushers[i], true)]) && Posted(g, s.attempts)
  {
    var flushers := Do(s, Commit(i), max).flushers;
    var j :| 0 <= j < |flushers| && flushers[j] == g;
    assert s.flushers[j] in s.flushers;
    CountedAfterCommit(s.flushers[j], s.committed, Finished(s.flushers[i], true));
  }

  lemma CommitKeepsPaid(s: State, i: nat, max: nat)
    requires LossPaid(s) && i < |s.flushers| && s.flushers[i].Committing?
    ensures LossPaid(Do(s, Commit(i), max))
  {
    var t := Do(s, Commit(i), max);
    ShapeKept(s, Commit(i), max);
    CommitPays(s, i, max);
    assert Posted(s.flushers[i], s.attempts) by { assert s.flushers[i] in s.flushers; }
    forall g | g in t.flushers ensures Counted(g, t.committed) && Posted(g, t.attempts) {
      FlusherPaidAfterCommit(s, i, max, g);
    }
  }

  /** The other steps leave what is committed alone. */
  lemma OtherStepKeepsPaid(s: State, step: Step, max: nat)
    requires LossPaid(s) && !step.Commit?
    ensures LossPaid(Do(s, step, max))
  {
    var t := Do(s, step, max);
    ShapeKept(s, step, max);
    UnacknowledgedGrows(s.committed, s.Head(), t.Head());
    assert forall a :: a in s.attempts ==> a in t.attempts;
    forall g | g in t.flushers ensures Counted(g, t.committed) && Posted(g, t.attempts) {
      FlusherStillPaid(s, step, max, g);
    }
  }

  lemma FlusherStillPaid(s: State, step: Step, max: nat, g: Flusher)
    requires LossPaid(s) && !step.Commit? && g in Do(s, step, max).flushers
    ensures Counted(g, s.committed) && Posted(g, Do(s, step, max).attempts)
  {
    var t := Do(s, step, max);
    var j :| 0 <= j < |t.flushers| && t.flushers[j] == g;
    if g.Resting? {
    } else if step == Peek(j) && t != s {
      NoneBeyond(s.committed, g.start, g.start + |g.batch|);
    } else if !step.Crash? {
      assert s.flushers[j] in s.flushers;
    }
  }

  lemma {:induction false} LossPaidAlways(stored: seq<Json>, k: nat, f: nat, steps: seq<Step>, max: nat)
    ensures LossPaid(Run(Start(stored, k, f), steps, max))
  {
    if steps == [] {
      assert stored[0..] == stored;
    } else {
      var before, last := steps[..|steps| - 1], steps[|steps| - 1];
      LossPaidAlways(stored, k, f, before, max);
      var s := Run(Start(stored, k, f), before, max);
      match last
      case Commit(i) => if i < |s.flushers| && s.flushers[i].Committing? { CommitKeepsPaid(s, i, max); }
      case _ => OtherStepKeepsPaid(s, last, max);
    }
  }

  /**
    Whatever the interleaving of enqueuers and flushers and the crashes, the pending rows are the
    latest part of everything ever put, in order, and the events that were removed without ever
    being in a successful post are at most as many as evictions and overlapping flushes account for.
   */
  lemma LossBound(stored: seq<Json>, k: nat, f: nat, steps: seq<Step>, max: nat)
    ensures var s := Run(Start(stored, k, f), steps, max);
            && 0 <= s.Head() <= |s.puts|
            && s.queue == s.puts[s.Head()..]
            && Unacknowledged(s.attempts, s.Head()) <= s.evicted + s.overlapped
  {
    LossPaidAlways(stored, k, f, steps, max);
    var s := Run(Start(stored, k, f), steps, max);
    MoreAttempts(s.committed, s.attempts, s.Head());
  }

  lemma {:induction false} NoOverlap(stored: seq<Json>, k: nat, steps: seq<Step>, max: nat)
    ensures var s := Run(Start(stored, k, 1), steps, max);
            |s.flushers| == 1 && s.overlapped == 0 && (!s.flushers[0].Resting? ==> s.flushers[0].meanwhile == 0)
  {
    if steps == [] {
    } else {
      NoOverlap(stored, k, steps[..|steps| - 1], max);
    }
  }

  /** With one flush at a time, evictions alone pay for every loss. */
  lemma OneFlusherLossBound(stored: seq<Json>, k: nat, steps: seq<Step>, max: nat)
    ensures var s := Run(Start(stored, k, 1), steps, max);
            s.Head() >= 0 && Unacknowledged(s.attempts, s.Head()) <= s.evicted
  {
    LossBound(stored, k, 1, steps, max);
    NoOverlap(stored, k, steps, max);
  }

  lemma {:induction false} NoneUnacknowledged(attempts: seq<Attempt>, n: nat, i: nat)
    requires Unacknowledged(attempts, n) == 0 && i < n
    ensures Acknowledged(attempts, i)
  {
    if i == n - 1 {
    } else {
      NoneUnacknowledged(attempts, n - 1, i);
    }
  }

  /** At least once: where nothing was evicted, an event that left the queue was acknowledged. */
  lemma AtLeastOnce(stored: seq<Json>, k: nat, steps: seq<Step>, max: nat, i: nat)
    requires Run(Start(stored, k, 1), steps, max).evicted == 0
    requires i < Run(Start(stored, k, 1), steps, max).Head()
    ensures Acknowledged(Run(Start(stored, k, 1), steps, max).attempts, i)
  {
    OneFlusherLossBound(stored, k, steps, max);
    var s := Run(Start(stored, k, 1), steps, max);
    NoneUnacknowledged(s.attempts, s.Head(), i);
  }

  /** Is the event with put number `i` in the batch in flight? */
  ghost predicate InBatch(f: Flusher, i: int)
    requires !f.Resting?
  {
    f.start <= i < f.start + |f.batch|
  }

  /**
    `commit` deletes the oldest rows, not the posted ones.  It removes rows of the flusher's own
    batch only, exactly when nothing was removed since the peek, or no row is pending beyond the batch, or none at all.
   */
  lemma CommitRemovesOnlyItsBatch(s: State, i: nat, max: nat)
    requires Shape(s) && i < |s.flushers| && s.flushers[i].Committing?
    ensures var f := s.flushers[i];
            (forall n :: s.Head() <= n < Do(s, Commit(i), max).Head() ==> InBatch(f, n))
            <==> s.Head() == f.start || |s.puts| <= f.start + |f.batch| || s.queue == []
  {
    var f, t := s.flushers[i], Do(s, Commit(i), max);
    assert f in s.flushers && InHistory(f, s.Head(), s.puts);
    if s.Head() != f.start && |s.puts| > f.start + |f.batch| && s.queue != [] {
      assert s.Head() <= t.Head() - 1 && !InBatch(f, t.Head() - 1);
    }
  }

  // ----- No acknowledged event is sent again -----

  /** Every attempt is a non-empty range of the put history. */
  ghost predicate Ranges(attempts: seq<Attempt>, n: int) {
    forall j :: 0 <= j < |attempts| ==> attempts[j].lo < attempts[j].hi <= n
  }

  /** An attempt that was acknowledged and not torn lies before every later attempt. */
  ghost predicate Increasing(attempts: seq<Attempt>, torn: set<int>) {
    forall i, j :: 0 <= i < j < |attempts| && attempts[i].ok && i !in torn ==> attempts[i].hi <= attempts[j].lo
  }

  /** Such an attempt, other than the one with index `open`, ends at or before `mark`. */
  ghost predicate Settled(attempts: seq<Attempt>, torn: set<int>, mark: int, open: int) {
    forall i :: 0 <= i < |attempts| && attempts[i].ok && i !in torn && i != open ==> attempts[i].hi <= mark
  }

  /** The front of the queue when the one flusher peeked its batch; the front now when it has none. */
  function Mark(s: State): int
    requires |s.flushers| == 1
  {
    if s.flushers[0].Resting? then s.Head() else s.flushers[0].start
  }

  /** The index of the attempt that waits for its commit, if there is one. */
  function Open(s: State): int
    requires |s.flushers| == 1
  {
    if s.flushers[0].Committing? then s.flushers[0].attempt else -1
  }

  /**
    With one flusher, acknowledged attempts lie before every later attempt, before the batch in
    flight and before the front of the queue, unless they are torn.
   */
  ghost predicate InOrder(s: State) {
    && Shape(s) && |s.flushers| == 1
    && (forall j :: j in s.torn ==> 0 <= j < |s.attempts|)
    && Ranges(s.attempts, |s.puts|)
    && Increasing(s.attempts, s.torn)
    && Settled(s.attempts, s.torn, Mark(s), Open(s))
    && (s.flushers[0].Committing? ==>
          && s.flushers[0].attempt < |s.attempts|
          && s.attempts[s.flushers[0].attempt] == Finished(s.flushers[0], true))
  }

  lemma SettledLater(attempts: seq<Attempt>, torn: set<int>, mark: int, open: int, torn': set<int>, mark': int, open': int)
    requires Settled(attempts, torn, mark, open)
    requires torn <= torn' && mark <= mark'
    requires 0 <= open < |attempts| && open != open' && open !in torn' ==> attempts[open].hi <= mark'
    ensures Settled(attempts, torn', mark', open')
  {
  }

  lemma InOrderKept(s: State, step: Step, max: nat)
    requires InOrder(s)
    ensures InOrder(Do(s, step, max))
  {
    ShapeKept(s, step, max);
    if (step == PostSucceeds(0) || step == PostFails(0)) && s.flushers[0].Posting? {
      PostKeepsOrder(s, step, max);
    } else {
      OtherKeepsOrder(s, step, max);
    }
  }

  /** The other steps add no attempt and do not move the mark back. */
  lemma OtherKeepsOrder(s: State, step: Step, max: nat)
    requires InOrder(s) && Shape(Do(s, step, max))
    requires !((step == PostSucceeds(0) || step == PostFails(0)) && s.flushers[0].Posting?)
    ensures InOrder(Do(s, step, max))
  {
    var t := Do(s, step, max);
    MarkMovesOn(s, step, max);
    assert t.attempts == s.attempts && s.torn <= t.torn && |s.puts| <= |t.puts|;
    SettledLater(s.attempts, s.torn, Mark(s), Open(s), t.torn, Mark(t), Open(t));
  }

  lemma MarkMovesOn(s: State, step: Step, max: nat)
    requires InOrder(s)
    requires !((step == PostSucceeds(0) || step == PostFails(0)) && s.flushers[0].Posting?)
    ensures var t := Do(s, step, max);
            && |t.flushers| == 1 && Mark(s) <= Mark(t)
            && (0 <= Open(s) && Open(s) != Open(t) && Open(s) !in t.torn
                ==> Open(s) < |s.attempts| && s.attempts[Open(s)].hi <= Mark(t))
  {
    assert s.flushers[0] in s.flushers && InHistory(s.flushers[0], s.Head(), s.puts);
  }

  lemma PostKeepsOrder(s: State, step: Step, max: nat)
    requires InOrder(s) && s.flushers[0].Posting? && (step == PostSucceeds(0) || step == PostFails(0))
    requires Shape(Do(s, step, max))
    ensures InOrder(Do(s, step, max))
  {
    var a := Finished(s.flushers[0], step.PostSucceeds?);
    assert s.flushers[0] in s.flushers && InHistory(s.flushers[0], s.Head(), s.puts);
    assert Do(s, step, max).attempts == s.attempts + [a];
    OneMoreAttempt(s.attempts, s.torn, Mark(s), a);
    if step.PostFails? {
      SettledLater(s.attempts + [a], s.torn, Mark(s), -1, s.torn, s.Head(), -1);
    }
  }

  lemma OneMoreAttempt(attempts: seq<Attempt>, torn: set<int>, mark: int, a: Attempt)
    requires Increasing(attempts, torn) && Settled(attempts, torn, mark, -1) && a.lo == mark
    ensures Increasing(attempts + [a], torn)
    ensures Settled(attempts + [a], torn, mark, |attempts|)
    ensures !a.ok ==> Settled(attempts + [a], torn, mark, -1)
  {
    var all := attempts + [a];
    forall i, j | 0 <= i < j < |all| && all[i].ok && i !in torn ensures all[i].hi <= all[j].lo {
      assert all[i] == attempts[i];
      if j < |attempts| { assert all[j] == attempts[j]; }
    }
  }

  lemma {:induction false} InOrderAlways(stored: seq<Json>, k: nat, steps: seq<Step>, max: nat)
    ensures InOrder(Run(Start(stored, k, 1), steps, max))
  {
    if steps == [] {
      assert stored[0..] == stored;
    } else {
      InOrderAlways(stored, k, steps[..|steps| - 1], max);
      InOrderKept(Run(Start(stored, k, 1), steps[..|steps| - 1], max), steps[|steps| - 1], max);
    }
  }

  /**
    An acknowledged event is attempted again only when a crash fell between that post and its
    commit: any other successful post lies wholly before every later attempt.
   */
  lemma OnlyTornPostsAreResent(stored: seq<Json>, k: nat, steps: seq<Step>, max: nat, i: nat, j: nat)
    requires i < j < |Run(Start(stored, k, 1), steps, max).attempts|
    requires Run(Start(stored, k, 1), steps, max).attempts[i].ok
    ensures var s := Run(Start(stored, k, 1), steps, max);
            s.attempts[i].hi <= s.attempts[j].lo || i in s.torn
  {
    InOrderAlways(stored, k, steps, max);
  }

  lemma OnlyCrashTears(s: State, step: Step, max: nat)
    requires !step.Crash?
    ensures Do(s, step, max).torn == s.torn
  {
  }

  lemma {:induction false} CrashFreeIsUntorn(stored: seq<Json>, k: nat, f: nat, steps: seq<Step>, max: nat)
    requires Crash !in steps
    ensures Run(Start(stored, k, f), steps, max).torn == {}
  {
    if steps == [] {
    } else {
      var before := steps[..|steps| - 1];
      CrashFreeIsUntorn(stored, k, f, before, max);
      assert steps[|steps| - 1] in steps;
      OnlyCrashTears(Run(Start(stored, k, f), before, max), steps[|steps| - 1], max);
    }
  }

  /** Without crashes the successful posts are disjoint, strictly increasing ranges of the put history. */
  lemma CrashFreePostsIncrease(stored: seq<Json>, k: nat, steps: seq<Step>, max: nat)
    requires Crash !in steps
    ensures var a := Run(Start(stored, k, 1), steps, max).attempts;
            forall i, j :: 0 <= i < j < |a| && a[i].ok ==> a[i].lo < a[i].hi <= a[j].lo < a[j].hi
  {
    InOrderAlways(stored, k, steps, max);
    CrashFreeIsUntorn(stored, k, 1, steps, max);
  }

  // ----- The queue bound -----

  /** How many enqueuers have passed the size check (or evicted) and not yet put. */
  function Poised(enqueuers: seq<Enqueuer>): nat {
    if enqueuers == [] then 0
    else Poised(enqueuers[1..]) + if enqueuers[0].Putting? then 1 else 0
  }

  lemma {:induction false} PoisedUpdate(es: seq<Enqueuer>, i: nat, e: Enqueuer)
    requires i < |es|
    ensures Poised(es[i := e]) == Poised(es) - (if es[i].Putting? then 1 else 0) + (if e.Putting? then 1 else 0)
  {
    if i == 0 {
      assert es[i := e][1..] == es[1..];
    } else {
      assert es[i := e][1..] == es[1..][i - 1 := e];
      PoisedUpdate(es[1..], i - 1, e);
    }
  }

  lemma {:induction false} PoisedBound(es: seq<Enqueuer>)
    ensures Poised(es) <= |es|
    ensures (forall e :: e in es ==> e.Idle?) ==> Poised(es) == 0
  {
    if es == [] {
    } else {
      PoisedBound(es[1..]);
      assert es[0] in es;
    }
  }

  /** A queue bound that already counts the puts that enqueuers are committed to. */
  ghost predicate Bounded(s: State, bound: int) {
    |s.queue| + Poised(s.enqueuers) <= bound
  }

  lemma BoundedKept(s: State, step: Step, max: nat, bound: int)
    requires Bounded(s, bound) && max > 0 && max + |s.enqueuers| - 1 <= bound
    ensures Bounded(Do(s, step, max), bound) && |Do(s, step, max).enqueuers| == |s.enqueuers|
  {
    var t := Do(s, step, max);
    match step
    case CheckSize(i, event) =>
      if i < |s.enqueuers| && s.enqueuers[i].Idle? {
        PoisedUpdate(s.enqueuers, i, t.enqueuers[i]);
        PoisedBound(t.enqueuers);
      }
    case Evict(i) =>
      if i < |s.enqueuers| && s.enqueuers[i].Evicting? {
        PoisedUpdate(s.enqueuers, i, t.enqueuers[i]);
        PoisedBound(t.enqueuers);
      }
    case Put(i) =>
      if i < |s.enqueuers| && s.enqueuers[i].Putting? {
        PoisedUpdate(s.enqueuers, i, Idle);
      }
    case Crash => PoisedBound(t.enqueuers);
    case _ =>
  }

  /**
    With `k` enqueuers the queue never exceeds `max + k - 1` rows, or what it held when the file
    was opened, if that was more.
   */
  lemma {:induction false} QueueBound(stored: seq<Json>, k: nat, f: nat, steps: seq<Step>, max: nat)
    requires k > 0 && max > 0
    ensures var s, bound := Run(Start(stored, k, f), steps, max), Largest(|stored|, max + k - 1);
            |s.enqueuers| == k && Bounded(s, bound) && |s.queue| <= bound
  {
    if steps == [] {
      PoisedBound(Start(stored, k, f).enqueuers);
    } else {
      var before := steps[..|steps| - 1];
      QueueBound(stored, k, f, before, max);
      BoundedKept(Run(Start(stored, k, f), before, max), steps[|steps| - 1], max, Largest(|stored|, max + k - 1));
    }
  }

  function Largest(m: nat, n: nat): nat {
    if m < n then n else m
  }

  function Checks(n: nat, event: Json): seq<Step> {
    seq(n, (i: nat) => CheckSize(i, event))
  }

  function Puts(n: nat): seq<Step> {
    seq(n, (i: nat) => Put(i))
  }

  /** `CheckSize` by each of the enqueuers `0..n`, then `Put` by each of them. */
  function Stampede(n: nat, event: Json): seq<Step> {
    Checks(n, event) + Puts(n)
  }

  /** The first `n` enqueuers have made a step that the others have not. */
  ghost predicate Halfway(es: seq<Enqueuer>, n: nat, done: Enqueuer, todo: Enqueuer) {
    forall i :: 0 <= i < |es| ==> es[i] == if i < n then done else todo
  }

  lemma {:induction false} AllCheck(s: State, n: nat, event: Json, max: nat)
    requires n <= |s.enqueuers| && Halfway(s.enqueuers, 0, Idle, Idle) && |s.queue| < max
    ensures var t := Run(s, Checks(n, event), max);
            && t.queue == s.queue && |t.enqueuers| == |s.enqueuers|
            && Halfway(t.enqueuers, n, Putting(event), Idle)
  {
    if n == 0 {
    } else {
      AllCheck(s, n - 1, event, max);
      assert Checks(n, event)[..n - 1] == Checks(n - 1, event);
    }
  }

  lemma {:induction false} AllPut(s: State, n: nat, event: Json, max: nat)
    requires n <= |s.enqueuers| && Halfway(s.enqueuers, |s.enqueuers|, Putting(event), Idle)
    ensures var t := Run(s, Puts(n), max);
            && |t.queue| == |s.queue| + n && |t.enqueuers| == |s.enqueuers|
            && Halfway(t.enqueuers, n, Idle, Putting(event))
  {
    if n == 0 {
    } else {
      AllPut(s, n - 1, event, max);
      assert Puts(n)[..n - 1] == Puts(n - 1);
    }
  }

  lemma {:induction false} RunConcat(s: State, a: seq<Step>, b: seq<Step>, max: nat)
    ensures Run(s, a + b, max) == Run(Run(s, a, max), b, max)
  {
    if b == [] {
      assert a + b == a;
    } else {
      assert (a + b)[..|a + b| - 1] == a + b[..|b| - 1];
      RunConcat(s, a, b[..|b| - 1], max);
    }
  }

  /** The bound is reached: `k` enqueuers that all check one row below the limit fill it exactly. */
  lemma QueueBoundReached(stored: seq<Json>, k: nat, f: nat, event: Json, max: nat)
    requires k > 0 && |stored| + 1 == max
    ensures |Run(Start(stored, k, f), Stampede(k, event), max).queue| == max + k - 1
  {
    var s := Start(stored, k, f);
    AllCheck(s, k, event, max);
    AllPut(Run(s, Checks(k, event), max), k, event, max);
    RunConcat(s, Checks(k, event), Puts(k), max);
  }

  // ----- Two flushes at once -----

  /** Two flushers that both peek before either commits, and both post successfully. */
  const BOTH_FLUSH: seq<Step> := [Peek(0), Peek(1), PostSucceeds(0), PostSucceeds(1), Commit(0), Commit(1)]

  lemma RunOneMore(s: State, steps: seq<Step>, n: nat, max: nat)
    requires n < |steps|
    ensures Run(s, steps[..n + 1], max) == Do(Run(s, steps[..n], max), steps[n], max)
  {
    assert steps[..n + 1][..n] == steps[..n];
  }

  lemma BothPeeked(stored: seq<Json>, k: nat, max: nat)
    requires stored != []
    ensures var f := Posting(0, Take(stored, BATCH_SIZE), 0);
            Run(Start(stored, k, 2), BOTH_FLUSH[..2], max) == Start(stored, k, 2).(flushers := [f, f])
  {
    var f := Posting(0, Take(stored, BATCH_SIZE), 0);
    RunOneMore(Start(stored, k, 2), BOTH_FLUSH, 0, max);
    RunOneMore(Start(stored, k, 2), BOTH_FLUSH, 1, max);
    assert Start(stored, k, 2).flushers[0 := f][1 := f] == [f, f];
  }

  lemma BothPosted(stored: seq<Json>, k: nat, max: nat)
    requires stored != []
    ensures var batch := Take(stored, BATCH_SIZE);
            var a := Attempt(0, |batch|, true);
            Run(Start(stored, k, 2), BOTH_FLUSH[..4], max)
            == Start(stored, k, 2).(flushers := [Committing(0, batch, 0, 0), Committing(0, batch, 0, 1)], attempts := [a, a])
  {
    BothPeeked(stored, k, max);
    RunOneMore(Start(stored, k, 2), BOTH_FLUSH, 2, max);
    RunOneMore(Start(stored, k, 2), BOTH_FLUSH, 3, max);
  }

  lemma BothFlushed(stored: seq<Json>, k: nat, max: nat)
    requires stored != []
    ensures var n := Min(BATCH_SIZE, |stored|);
            var s := Run(Start(stored, k, 2), BOTH_FLUSH, max);
            && s.attempts == [Attempt(0, n, true), Attempt(0, n, true)]
            && s.Head() == Min(2 * n, |stored|)
  {
    BothPosted(stored, k, max);
    RunOneMore(Start(stored, k, 2), BOTH_FLUSH, 4, max);
    RunOneMore(Start(stored, k, 2), BOTH_FLUSH, 5, max);
    assert BOTH_FLUSH[..6] == BOTH_FLUSH;
  }

  /**
    `stop` flushes after a join that may time out, so its flush can overlap the loop's.  Then both
    post the same rows and the second commit deletes rows that nobody posted, as many as it finds
    up to one batch: nothing is lost if and only if one batch holds the whole queue.
   */
  lemma OverlappingFlushes(stored: seq<Json>, k: nat, max: nat)
    ensures var s := Run(Start(stored, k, 2), BOTH_FLUSH, max);
            && s.Head() >= 0
            && Unacknowledged(s.attempts, s.Head())
               == if |stored| <= BATCH_SIZE then 0 else Min(BATCH_SIZE, |stored| - BATCH_SIZE)
  {
    var s := Run(Start(stored, k, 2), BOTH_FLUSH, max);
    LossBound(stored, k, 2, BOTH_FLUSH, max);
    if stored == [] {
      NothingToFlush(k, max);
    } else {
      BothFlushed(stored, k, max);
      var n := Min(BATCH_SIZE, |stored|);
      var a := Attempt(0, n, true);
      SettlesWithin([a], a, n);
      assert [a] + [a] == s.attempts;
      NoneBeyond(s.attempts, n, s.Head());
    }
  }

  lemma NothingToFlush(k: nat, max: nat)
    ensures Run(Start([], k, 2), BOTH_FLUSH, max).Head() == 0
  {
    LossBound([], k, 2, BOTH_FLUSH, max);
    NoPutsWithoutEnqueue([], k, 2, BOTH_FLUSH, max);
  }

  lemma {:induction false} NoPutsWithoutEnqueue(stored: seq<Json>, k: nat, f: nat, steps: seq<Step>, max: nat)
    requires forall step :: step in steps ==> !step.Put?
    ensures Run(Start(stored, k, f), steps, max).puts == stored
  {
    if steps == [] {
    } else {
      assert steps[|steps| - 1] in steps;
      NoPutsWithoutEnqueue(stored, k, f, steps[..|steps| - 1], max);
    }
  }
}
