/**
  Alert deduplication (server/alert_manager.py over the alerts table of server/database.py) and
  what purging old alerts does to it.  Times are whole seconds, as the table stores them.
 */
module Alerts {

  /** The rules by their names, in the order in which they run. */
  datatype Rule =
    | AfterHoursDevice
    | UnknownDevice
    | HighVolumeTransfer
    | RapidCycle
    | CrossAgentDevice
    | HoneypotDevice
    | KnownMaliciousDevice
    | UserUnknownDevice

  /** What an alert is deduplicated by. */
  datatype Key = Key(hostname: string, deviceId: string, rule: Rule)

  /** A row of `alerts`, in id order in the table. */
  datatype AlertRow = AlertRow(createdAt: int, key: Key, severity: string)

  /** Does `get_recent_alert` return a row? */
  predicate HasRecent(alerts: seq<AlertRow>, key: Key, cutoff: int) {
    exists a :: a in alerts && a.key == key && a.createdAt >= cutoff
  }

  /** `DELETE FROM alerts WHERE created_at < cutoff`. */
  function PurgeAlerts(alerts: seq<AlertRow>, cutoff: int): seq<AlertRow> {
    if alerts == [] then []
    else PurgeAlerts(alerts[..|alerts| - 1], cutoff)
         + if alerts[|alerts| - 1].createdAt < cutoff then [] else [alerts[|alerts| - 1]]
  }

  lemma {:induction false} PurgedMember(alerts: seq<AlertRow>, cutoff: int, a: AlertRow)
    ensures a in PurgeAlerts(alerts, cutoff) <==> a in alerts && a.createdAt >= cutoff
  {
    if alerts == [] {
    } else {
      PurgedMember(alerts[..|alerts| - 1], cutoff, a);
      assert alerts == alerts[..|alerts| - 1] + [alerts[|alerts| - 1]];
    }
  }

  datatype Op =
    | Fire(key: Key, severity: string, checkedAt: int, insertedAt: int)  // the two clock readings of one firing
    | Purge(cutoff: int, now: int)

  /** The live table and everything ever inserted into it. */
  datatype State = State(live: seq<AlertRow>, ever: seq<AlertRow>)

  function Do(s: State, op: Op, window: int): State {
    match op
    case Fire(key, severity, checkedAt, insertedAt) =>
      if HasRecent(s.live, key, checkedAt - window) then s
      else
        var row := AlertRow(insertedAt, key, severity);
        State(s.live + [row], s.ever + [row])
    case Purge(cutoff, now) => s.(live := PurgeAlerts(s.live, cutoff))
  }

  function Run(ops: seq<Op>, window: int): State {
    if ops == [] then State([], []) else Do(Run(ops[..|ops| - 1], window), ops[|ops| - 1], window)
  }

  function Begin(op: Op): int {
    if op.Fire? then op.checkedAt else op.now
  }

  function End(op: Op): int {
    if op.Fire? then op.insertedAt else op.now
  }

  /** No firing reads an earlier time when it inserts than when it checked. */
  ghost predicate Forward(ops: seq<Op>) {
    forall op :: op in ops && op.Fire? ==> op.checkedAt <= op.insertedAt
  }

  /** No purge reaches into the window before a later firing's insertion. */
  ghost predicate WindowKept(ops: seq<Op>, window: int) {
    forall i, j :: 0 <= i < j < |ops| && ops[i].Purge? && ops[j].Fire? ==> ops[i].cutoff <= ops[j].insertedAt - window
  }

  /** One operation after the other, on a clock that goes back by at most `back` between two of them. */
  ghost predicate Steady(ops: seq<Op>, back: int) {
    Forward(ops) && forall i, j :: 0 <= i < j < |ops| ==> End(ops[i]) <= Begin(ops[j]) + back
  }

  /** Every purge keeps at least what is at most `retention` seconds old, each with a cutoff of its own. */
  ghost predicate Retain(ops: seq<Op>, retention: int) {
    forall op :: op in ops && op.Purge? ==> op.cutoff <= op.now - retention
  }

  /** Two alerts with the same key are more than the window apart, whether still stored or not. */
  ghost predicate Apart(ever: seq<AlertRow>, window: int) {
    forall i, j :: 0 <= i < j < |ever| && ever[i].key == ever[j].key
      ==> ever[j].createdAt - ever[i].createdAt > window
  }

  ghost predicate Purged(ops: seq<Op>, a: AlertRow) {
    exists i :: 0 <= i < |ops| && ops[i].Purge? && a.createdAt < ops[i].cutoff
  }

  /** What was inserted is still there, or older than what some purge kept. */
  lemma {:induction false} LiveOrPurged(ops: seq<Op>, window: int, a: AlertRow)
    requires a in Run(ops, window).ever
    ensures a in Run(ops, window).live || Purged(ops, a)
  {
    var before, op := ops[..|ops| - 1], ops[|ops| - 1];
    var s := Run(before, window);
    if a in s.ever {
      LiveOrPurged(before, window, a);
      if Purged(before, a) {
        var i :| 0 <= i < |before| && before[i].Purge? && a.createdAt < before[i].cutoff;
        assert ops[i] == before[i];
      } else if op.Purge? {
        PurgedMember(s.live, op.cutoff, a);
      }
    }
  }

  /** A firing that inserts does so more than a window after every alert with its key. */
  lemma InsertedApart(ops: seq<Op>, window: int, a: AlertRow)
    requires ops != [] && ops[|ops| - 1].Fire? && Forward(ops) && WindowKept(ops, window)
    requires var n := |ops| - 1;
             && a in Run(ops[..n], window).ever && a.key == ops[n].key
             && !HasRecent(Run(ops[..n], window).live, ops[n].key, ops[n].checkedAt - window)
    ensures ops[|ops| - 1].insertedAt - a.createdAt > window
  {
    var n := |ops| - 1;
    assert ops[n] in ops;
    LiveOrPurged(ops[..n], window, a);
    if Purged(ops[..n], a) {
      var i :| 0 <= i < n && ops[..n][i].Purge? && a.createdAt < ops[..n][i].cutoff;
      assert ops[i].cutoff <= ops[n].insertedAt - window;
    }
  }

  /**
    Over every sequential run, on any clock, in which no firing inserts at an earlier time than it
    checked and no purge reaches into the window before a later insertion, persisted alerts with
    the same host, device and rule are always more than the window apart.
   */
  lemma {:induction false} AlertsAreApart(ops: seq<Op>, window: int)
    requires Forward(ops) && WindowKept(ops, window)
    ensures Apart(Run(ops, window).ever, window)
  {
    if ops == [] {
    } else {
      var before, op := ops[..|ops| - 1], ops[|ops| - 1];
      var ever := Run(before, window).ever;
      AlertsAreApart(before, window);
      if op.Fire? && !HasRecent(Run(before, window).live, op.key, op.checkedAt - window) {
        forall i | 0 <= i < |ever| && ever[i].key == op.key ensures op.insertedAt - ever[i].createdAt > window {
          InsertedApart(ops, window, ever[i]);
        }
      }
    }
  }

  /** With the retention that the clock's steps back call for, no purge reaches into a window. */
  lemma RetentionKeepsWindow(ops: seq<Op>, window: int, retention: int, back: int)
    requires Steady(ops, back) && Retain(ops, retention) && retention >= window + back
    ensures WindowKept(ops, window)
  {
    forall i, j | 0 <= i < j < |ops| && ops[i].Purge? && ops[j].Fire?
      ensures ops[i].cutoff <= ops[j].insertedAt - window
    {
      assert ops[i] in ops && ops[j] in ops && End(ops[i]) <= Begin(ops[j]) + back;
    }
  }

  lemma {:induction false} EverGrows(ops: seq<Op>, window: int, n: nat)
    requires n <= |ops|
    ensures Run(ops[..n], window).ever <= Run(ops, window).ever
    ensures forall a :: a in Run(ops, window).live ==> a in Run(ops, window).ever
  {
    if ops == [] {
    } else {
      var before := ops[..|ops| - 1];
      if n < |ops| {
        EverGrows(before, window, n);
        assert before[..n] == ops[..n];
      } else {
        EverGrows(before, window, n - 1);
        assert ops[..n] == ops;
      }
      var s := Run(before, window);
      var op := ops[|ops| - 1];
      if op.Purge? {
        forall a | a in PurgeAlerts(s.live, op.cutoff) ensures a in s.live { PurgedMember(s.live, op.cutoff, a); }
      }
    }
  }

  lemma {:induction false} EverBefore(ops: seq<Op>, window: int, now: int)
    requires forall op :: op in ops ==> End(op) <= now
    ensures forall a :: a in Run(ops, window).ever ==> a.createdAt <= now
  {
    if ops == [] {
    } else {
      assert ops[|ops| - 1] in ops;
      EverBefore(ops[..|ops| - 1], window, now);
    }
  }

  /**
    When firing `i` is done, an alert with its key is persisted that is at most one window older
    than its check, and, if the clock did not go back, no later than its own insertion.
   */
  ghost predicate Covered(ops: seq<Op>, window: int, i: nat)
    requires i < |ops| && ops[i].Fire?
  {
    exists a :: a in Run(ops[..i + 1], window).ever && a.key == ops[i].key
                && ops[i].checkedAt - window <= a.createdAt
                && (Steady(ops, 0) ==> a.createdAt <= ops[i].insertedAt)
  }

  /** Every firing is covered, as soon as it is done and from then on, on any clock. */
  lemma EveryFiringIsCovered(ops: seq<Op>, window: int, i: nat)
    requires window >= 0 && i < |ops| && ops[i].Fire? && ops[i].checkedAt <= ops[i].insertedAt
    ensures Covered(ops, window, i)
    ensures Run(ops[..i + 1], window).ever <= Run(ops, window).ever
  {
    var s, op := Run(ops[..i], window), ops[i];
    EverGrows(ops[..i], window, i);
    EverGrows(ops, window, i + 1);
    assert ops[..i + 1][..i] == ops[..i] && op in ops;
    if HasRecent(s.live, op.key, op.checkedAt - window) {
      var a :| a in s.live && a.key == op.key && a.createdAt >= op.checkedAt - window;
      if Steady(ops, 0) {
        EndsBefore(ops, i);
        EverBefore(ops[..i], window, op.checkedAt);
      }
      assert a in Run(ops[..i + 1], window).ever;
    } else {
      assert AlertRow(op.insertedAt, op.key, op.severity) in Run(ops[..i + 1], window).ever;
    }
  }

  lemma EndsBefore(ops: seq<Op>, i: nat)
    requires Steady(ops, 0) && i < |ops|
    ensures forall op :: op in ops[..i] ==> End(op) <= Begin(ops[i])
  {
    forall op | op in ops[..i] ensures End(op) <= Begin(ops[i]) {
      var k :| 0 <= k < i && ops[..i][k] == op;
      assert ops[k] == op;
    }
  }

  predicate Matches(a: AlertRow, key: Key, start: int, span: nat) {
    a.key == key && start <= a.createdAt <= start + span
  }

  /** How many alerts with one key were persisted in the seconds `start` to `start + span`. */
  function InSpan(ever: seq<AlertRow>, key: Key, start: int, span: nat): nat {
    if ever == [] then 0
    else InSpan(ever[..|ever| - 1], key, start, span)
         + if Matches(ever[|ever| - 1], key, start, span) then 1 else 0
  }

  /** The time that `n` gaps of `gap` seconds take. */
  function Gaps(n: nat, gap: nat): nat {
    if n == 0 then 0 else Gaps(n - 1, gap) + gap
  }

  lemma {:induction false} SpanIsSpaced(ever: seq<AlertRow>, key: Key, start: int, span: nat, window: nat, top: int)
    requires Apart(ever, window)
    requires forall i :: 0 <= i < |ever| && Matches(ever[i], key, start, span) ==> ever[i].createdAt <= top
    ensures InSpan(ever, key, start, span) > 0 ==> start + Gaps(InSpan(ever, key, start, span) - 1, window + 1) <= top
  {
    if ever == [] {
    } else {
      var n := |ever| - 1;
      var before := ever[..n];
      if Matches(ever[n], key, start, span) {
        SpanIsSpaced(before, key, start, span, window, ever[n].createdAt - (window + 1));
      } else {
        SpanIsSpaced(before, key, start, span, window, top);
      }
    }
  }

  lemma {:induction false} GapsProduct(n: nat, gap: nat)
    ensures Gaps(n, gap) == n * gap
  {
    if n == 0 {
    } else {
      GapsProduct(n - 1, gap);
      assert (n - 1) * gap + gap == n * gap;
    }
  }

  lemma DivideBound(n: nat, d: nat, span: nat)
    requires d > 0 && n * d <= span
    ensures n <= span / d
  {
    var q := span / d;
    assert span < (q + 1) * d;
    assert n > q ==> n * d >= (q + 1) * d;
  }

  lemma SpacedCount(n: nat, d: nat, span: nat)
    requires n > 0 && d > 0 && Gaps(n - 1, d) <= span
    ensures n <= span / d + 1
  {
    GapsProduct(n - 1, d);
    DivideBound(n - 1, d, span);
  }

  lemma ApartIsRare(ever: seq<AlertRow>, window: nat, key: Key, start: int, span: nat)
    requires Apart(ever, window)
    ensures InSpan(ever, key, start, span) <= span / (window + 1) + 1
  {
    SpanIsSpaced(ever, key, start, span, window, start + span);
    var n := InSpan(ever, key, start, span);
    if n > 0 { SpacedCount(n, window + 1, span); }
  }

  /** So in any span of `span` seconds there are at most `span / (window + 1) + 1` of them. */
  lemma AlertRateBound(ops: seq<Op>, window: nat, key: Key, start: int, span: nat)
    requires Forward(ops) && WindowKept(ops, window)
    ensures InSpan(Run(ops, window).ever, key, start, span) <= span / (window + 1) + 1
  {
    AlertsAreApart(ops, window);
    ApartIsRare(Run(ops, window).ever, window, key, start, span);
  }

  /** An alert, a purge at `now` that keeps `retention` seconds, and the same alert at `again`. */
  function TooSoon(key: Key, retention: int, now: int, again: int): seq<Op> {
    [Fire(key, "LOW", 0, 0), Purge(now - retention, now), Fire(key, "LOW", again, again)]
  }

  lemma AlertPurged(key: Key, retention: int, now: int, again: int, window: nat)
    requires 0 < now - retention
    ensures Run(TooSoon(key, retention, now, again)[..2], window) == State([], [AlertRow(0, key, "LOW")])
  {
    var ops, a := TooSoon(key, retention, now, again), AlertRow(0, key, "LOW");
    assert ops[..2][..1] == ops[..1] && ops[..1][..0] == [];
    assert Run([], window) == State([], []) && [] + [a] == [a];
    assert Run(ops[..1], window) == State([a], [a]);
    assert [a][..0] == [] && PurgeAlerts([a], now - retention) == [];
    assert ops[..2][1] == Purge(now - retention, now);
  }

  lemma AlertRepeated(key: Key, retention: int, now: int, again: int, window: nat)
    requires 0 < now - retention
    ensures Run(TooSoon(key, retention, now, again), window).ever
            == [AlertRow(0, key, "LOW")] + [AlertRow(again, key, "LOW")]
  {
    AlertPurged(key, retention, now, again, window);
    assert |TooSoon(key, retention, now, again)| == 3;
  }

  /**
    A purge that keeps less than the window and what the clock goes back lets the same alert
    through again too soon.
   */
  lemma ShortRetention(window: nat, retention: int, back: nat) returns (ops: seq<Op>)
    requires retention < window + back
    ensures Steady(ops, back) && Retain(ops, retention)
    ensures !Apart(Run(ops, window).ever, window)
  {
    var key := Key("h", "d", RapidCycle);
    var now := if retention < 0 then 0 else retention + 1;
    ops := TooSoon(key, retention, now, now - back);
    AlertRepeated(key, retention, now, now - back, window);
    NotApart(Run(ops, window).ever, window);
  }

  lemma NotApart(ever: seq<AlertRow>, window: int)
    requires |ever| == 2 && ever[0].key == ever[1].key && ever[1].createdAt - ever[0].createdAt <= window
    ensures !Apart(ever, window)
  {
    assert 0 <= 0 < 1 < |ever|;
  }

  /**
    The retention that deduplication needs is exact: on a clock that goes back by at most `back`,
    all runs keep equal alerts apart if and only if purges keep at least one window and `back` more
    (`retention_days` is not checked against it).
   */
  lemma RetentionNeeded(window: nat, retention: int, back: nat)
    ensures (forall ops :: Steady(ops, back) && Retain(ops, retention) ==> Apart(Run(ops, window).ever, window))
            <==> retention >= window + back
  {
    if retention >= window + back {
      forall ops | Steady(ops, back) && Retain(ops, retention) ensures Apart(Run(ops, window).ever, window) {
        RetentionKeepsWindow(ops, window, retention, back);
        AlertsAreApart(ops, window);
      }
    } else {
      var ops := ShortRetention(window, retention, back);
    }
  }
}
