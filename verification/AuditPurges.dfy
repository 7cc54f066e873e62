/**
  What purges leave of the server-side audit chains (`purge_old_records` in server/database.py): on
  any clock, and on one that does not go back.
 */
module AuditPurges {
  import opened Data
  import opened HashChain
  import opened AuditTable

  // ----- What is left of a chain -----

  /** Does row `i` carry the hash of the row before it, the first row the genesis value? */
  ghost predicate Follows(rows: seq<Row>, i: nat)
    requires i < |rows|
  {
    rows[i].prevHash == if i == 0 then GENESIS else rows[i - 1].recordHash
  }

  /** The places of the live rows in the lineage of the last one. */
  function Places(lines: seq<seq<Row>>): (at: seq<nat>)
    ensures |at| == |lines|
    ensures forall i :: 0 <= i < |lines| && lines[i] != [] ==> at[i] == |lines[i]| - 1
  {
    seq(|lines|, i requires 0 <= i < |lines| => if lines[i] == [] then 0 else |lines[i]| - 1)
  }

  /** `live` is part of `line`, in order and with its end; `at` says where in it each row is. */
  ghost predicate PartOf(live: seq<Row>, line: seq<Row>, at: seq<nat>) {
    && |at| == |live| && (live == [] ==> line == []) && (live != [] ==> at[|at| - 1] == |line| - 1)
    && (forall i :: 0 <= i < |at| ==> at[i] < |line| && live[i] == line[at[i]])
    && (forall i, j :: 0 <= i < j < |at| ==> at[i] < at[j])
  }

  lemma LiveIsPart(lines: seq<seq<Row>>, live: seq<Row>)
    requires Ends(lines, live) && Nested(lines)
    ensures PartOf(live, LastOf(lines), Places(lines))
  {
    forall i | 0 <= i < |lines| ensures lines[i] <= LastOf(lines) {
      assert i < |lines| - 1 ==> lines[i] <= lines[|lines| - 1];
    }
  }

  lemma NothingLost(lines: seq<seq<Row>>, live: seq<Row>)
    requires Ends(lines, live) && Nested(lines) && NothingLostYet(lines)
    ensures live == LastOf(lines)
  {
    forall i | 0 <= i < |live| ensures live[i] == LastOf(lines)[i] {
      assert i < |lines| - 1 ==> lines[i] <= lines[|lines| - 1];
    }
  }

  lemma PartErrors(H: Hasher, live: seq<Row>, line: seq<Row>, at: seq<nat>)
    requires PartOf(live, line, at) && Linked(H, AsRecords(line)) && Trusted(H, AsRecords(line))
    ensures Errors(H, AsRecords(live)) == Flatten(Gaps(at))
  {
    DrawnErrors(H, AsRecords(line), at);
    assert Pick(AsRecords(line), at) == AsRecords(live);
  }

  /**
    Over every run, on any clock, a host's live rows are, in order, part of one chain linked from
    the genesis value, the lineage of the last of them, and all of it as long as the host has lost
    no row.  The verifier reports exactly one gap at each live row whose predecessor in that chain
    is not the live row before it, and nothing else.
   */
  lemma LiveRowsArePartOfOneChain(H: Hasher, ops: seq<Op>, host: string)
    requires Trusted(H, Run(H, ops).built)
    ensures var s := Run(H, ops);
            var live, at := HostRows(s.rows, host), Places(s.Lines(host));
            && Linked(H, AsRecords(s.Lineage(host)))
            && PartOf(live, s.Lineage(host), at)
            && (host !in s.purged ==> live == s.Lineage(host))
            && Errors(H, AsRecords(live)) == Flatten(Gaps(at))
  {
    AlwaysSound(H, ops);
    var s := Run(H, ops);
    var lines, live := s.Lines(host), HostRows(s.rows, host);
    assert HostSound(H, s, host);
    LiveIsPart(lines, live);
    TrustedLineage(H, s, host);
    PartErrors(H, live, s.Lineage(host), Places(lines));
    if host !in s.purged { NothingLost(lines, live); }
  }

  /** Does each row carry the hash of the one before it? */
  ghost predicate OneRun(rows: seq<Row>) {
    forall i :: 0 < i < |rows| ==> Follows(rows, i)
  }

  ghost predicate IsSuffix<T>(s: seq<T>, t: seq<T>) {
    |s| <= |t| && s == t[|t| - |s|..]
  }

  lemma RowFollows(H: Hasher, rows: seq<Row>, i: nat)
    requires i < |rows| && Linked(H, AsRecords(rows))
    ensures Follows(rows, i)
  {
    RecordOfRow(rows[i]);
    if i > 0 { RecordOfRow(rows[i - 1]); }
    assert LinkedAt(H, AsRecords(rows), i);
  }

  ghost predicate DistinctHashes(rows: seq<Row>) {
    forall i, j :: 0 <= i < j < |rows| ==> rows[i].recordHash != rows[j].recordHash
  }

  lemma ChainHashesDistinct(H: Hasher, chain: seq<Row>)
    requires Linked(H, AsRecords(chain)) && Trusted(H, AsRecords(chain))
    ensures DistinctHashes(chain) && OneRun(chain)
  {
    forall i, j | 0 <= i < j < |chain| ensures chain[i].recordHash != chain[j].recordHash {
      RecordOfRow(chain[i]);
      RecordOfRow(chain[j]);
      HashesDistinct(H, AsRecords(chain), i + 1, j + 1);
    }
    forall i | 0 < i < |chain| ensures Follows(chain, i) { RowFollows(H, chain, i); }
  }

  /** A part that is one run has no gap inside. */
  lemma {:induction false} OneRunIsDense(live: seq<Row>, line: seq<Row>, at: seq<nat>, i: nat)
    requires PartOf(live, line, at) && DistinctHashes(line) && OneRun(line) && OneRun(live) && i < |at|
    ensures at[i] == |line| - |at| + i
    decreases |at| - i
  {
    if i == |at| - 1 {
    } else {
      OneRunIsDense(live, line, at, i + 1);
      assert Follows(live, i + 1) && Follows(line, at[i + 1]);
      var before := at[i + 1] - 1;
      assert line[at[i]].recordHash == line[before].recordHash;
    }
  }

  lemma SuffixIsOneRun(live: seq<Row>, line: seq<Row>)
    requires IsSuffix(live, line) && OneRun(line)
    ensures OneRun(live)
  {
    var m := |line| - |live|;
    forall i | 0 < i < |live| ensures Follows(live, i) { assert Follows(line, m + i); }
  }

  lemma OneRunIffSuffix(live: seq<Row>, line: seq<Row>, at: seq<nat>)
    requires PartOf(live, line, at) && DistinctHashes(line) && OneRun(line)
    ensures OneRun(live) <==> IsSuffix(live, line)
  {
    if IsSuffix(live, line) {
      SuffixIsOneRun(live, line);
    }
    if OneRun(live) {
      forall i | 0 <= i < |at| ensures at[i] == |line| - |at| + i { OneRunIsDense(live, line, at, i); }
      assert live != [] ==> at[0] == |line| - |at|;
    }
  }

  lemma DistinctPart(live: seq<Row>, line: seq<Row>, at: seq<nat>)
    requires PartOf(live, line, at) && DistinctHashes(line)
    ensures DistinctHashes(live)
  {
    forall i, j | 0 <= i < j < |live| ensures live[i].recordHash != live[j].recordHash {
      assert at[i] < at[j];
    }
  }

  /** What the invariant says of a host's live rows and the lineage of the last of them. */
  lemma LineageOf(H: Hasher, s: State, host: string)
    requires HostSound(H, s, host) && Trusted(H, s.built)
    ensures PartOf(HostRows(s.rows, host), s.Lineage(host), Places(s.Lines(host)))
    ensures DistinctHashes(s.Lineage(host)) && OneRun(s.Lineage(host))
    ensures DistinctHashes(HostRows(s.rows, host))
  {
    LiveIsPart(s.Lines(host), HostRows(s.rows, host));
    TrustedLineage(H, s, host);
    ChainHashesDistinct(H, s.Lineage(host));
    DistinctPart(HostRows(s.rows, host), s.Lineage(host), Places(s.Lines(host)));
  }

  lemma SuffixErrors(H: Hasher, live: seq<Row>, line: seq<Row>)
    requires IsSuffix(live, line) && (live == [] ==> line == [])
    requires Linked(H, AsRecords(line)) && Trusted(H, AsRecords(line))
    ensures Errors(H, AsRecords(live)) == if live == line then [] else [PrevMismatch(0)]
  {
    var m := |line| - |live|;
    assert AsRecords(line)[m..] == AsRecords(live);
    RemovedBeginning(H, AsRecords(line), m);
  }

  lemma HostIsOneRun(H: Hasher, s: State, host: string)
    requires HostSound(H, s, host) && Trusted(H, s.built)
    ensures OneRun(HostRows(s.rows, host)) <==> IsSuffix(HostRows(s.rows, host), s.Lineage(host))
  {
    LineageOf(H, s, host);
    OneRunIffSuffix(HostRows(s.rows, host), s.Lineage(host), Places(s.Lines(host)));
  }

  lemma OneRunErrors(H: Hasher, s: State, host: string)
    requires HostSound(H, s, host) && Trusted(H, s.built) && OneRun(HostRows(s.rows, host))
    ensures Errors(H, AsRecords(HostRows(s.rows, host)))
            == if HostRows(s.rows, host) == s.Lineage(host) then [] else [PrevMismatch(0)]
  {
    HostIsOneRun(H, s, host);
    TrustedLineage(H, s, host);
    LiveIsPart(s.Lines(host), HostRows(s.rows, host));
    SuffixErrors(H, HostRows(s.rows, host), s.Lineage(host));
  }

  /**
    Over every run, a host's live rows are one linked run if and only if they are the latest part
    of that chain; the verifier then reports one gap at most, before the first of them.
   */
  lemma OneRunIffLatestPart(H: Hasher, ops: seq<Op>, host: string)
    requires Trusted(H, Run(H, ops).built)
    ensures var s := Run(H, ops);
            var live, line := HostRows(s.rows, host), s.Lineage(host);
            && (OneRun(live) <==> IsSuffix(live, line))
            && (OneRun(live) ==>
                  Errors(H, AsRecords(live)) == if live == line then [] else [PrevMismatch(0)])
  {
    AlwaysSound(H, ops);
    var s := Run(H, ops);
    assert HostSound(H, s, host);
    HostIsOneRun(H, s, host);
    if OneRun(HostRows(s.rows, host)) { OneRunErrors(H, s, host); }
  }

  // ----- What a purge does to one run -----

  /** No row that the purge deletes lies between two that it keeps. */
  ghost predicate NoHole(rows: seq<Row>, cutoff: int) {
    forall i, j, k :: 0 <= i < j < k < |rows| && rows[i].recordedAt >= cutoff && rows[k].recordedAt >= cutoff
                      ==> rows[j].recordedAt >= cutoff
  }

  lemma OneRunBefore(rows: seq<Row>, n: nat)
    requires OneRun(rows) && DistinctHashes(rows) && n <= |rows|
    ensures OneRun(rows[..n]) && DistinctHashes(rows[..n])
  {
    forall i | 0 < i < n ensures Follows(rows[..n], i) { assert Follows(rows, i); }
  }

  lemma {:induction false} OneRunIffNoHole(rows: seq<Row>, cutoff: int)
    requires OneRun(rows) && DistinctHashes(rows)
    ensures OneRun(PurgeRows(rows, cutoff)) <==> NoHole(rows, cutoff)
  {
    if |rows| <= 1 {
    } else {
      OneRunBefore(rows, |rows| - 1);
      OneRunIffNoHole(rows[..|rows| - 1], cutoff);
      OneRowFurther(rows, cutoff);
    }
  }

  lemma NoHoleFurther(rows: seq<Row>, cutoff: int)
    requires |rows| > 1
    ensures var n := |rows| - 1;
            NoHole(rows, cutoff)
            <==> NoHole(rows[..n], cutoff)
                 && (rows[n].recordedAt >= cutoff > rows[n - 1].recordedAt ==> PurgeRows(rows[..n], cutoff) == [])
  {
    NoHoleLast(rows, cutoff);
    PurgeEmpty(rows[..|rows| - 1], cutoff);
  }

  lemma OneRowFurther(rows: seq<Row>, cutoff: int)
    requires OneRun(rows) && DistinctHashes(rows) && |rows| > 1
    requires OneRun(PurgeRows(rows[..|rows| - 1], cutoff)) <==> NoHole(rows[..|rows| - 1], cutoff)
    ensures OneRun(PurgeRows(rows, cutoff)) <==> NoHole(rows, cutoff)
  {
    var n := |rows| - 1;
    var kept := PurgeRows(rows[..n], cutoff);
    NoHoleFurther(rows, cutoff);
    if rows[n].recordedAt >= cutoff {
      assert PurgeRows(rows, cutoff) == kept + [rows[n]];
      OneRunLast(kept, rows[n]);
      KeptLast(rows, cutoff);
    } else {
      assert PurgeRows(rows, cutoff) == kept + [] == kept;
    }
  }

  lemma KeptLast(rows: seq<Row>, cutoff: int)
    requires OneRun(rows) && DistinctHashes(rows) && |rows| > 1
    ensures var n := |rows| - 1;
            var kept := PurgeRows(rows[..n], cutoff);
            kept != [] ==>
              (rows[n].prevHash == kept[|kept| - 1].recordHash <==> rows[n - 1].recordedAt >= cutoff)
  {
    var n := |rows| - 1;
    var kept := PurgeRows(rows[..n], cutoff);
    assert Follows(rows, n);
    if kept != [] && rows[n - 1].recordedAt < cutoff {
      PurgeMember(rows[..n], cutoff, kept[|kept| - 1]);
      var m :| 0 <= m < n && rows[..n][m] == kept[|kept| - 1];
      assert rows[m].recordHash != rows[n - 1].recordHash;
    }
  }

  lemma OneRunLast(kept: seq<Row>, r: Row)
    ensures OneRun(kept + [r])
            <==> OneRun(kept) && (kept != [] ==> r.prevHash == kept[|kept| - 1].recordHash)
  {
    var all := kept + [r];
    if OneRun(all) {
      forall i | 0 < i < |kept| ensures Follows(kept, i) { assert Follows(all, i); }
      if kept != [] { assert Follows(all, |kept|); }
    }
    if OneRun(kept) && (kept != [] ==> r.prevHash == kept[|kept| - 1].recordHash) {
      forall i | 0 < i < |all| ensures Follows(all, i) {
        if i < |kept| { assert Follows(kept, i); }
      }
    }
  }

  lemma NoHoleLast(rows: seq<Row>, cutoff: int)
    requires |rows| > 1
    ensures var n := |rows| - 1;
            NoHole(rows, cutoff)
            <==> NoHole(rows[..n], cutoff)
                 && (rows[n].recordedAt >= cutoff > rows[n - 1].recordedAt
                     ==> forall i :: 0 <= i < n ==> rows[i].recordedAt < cutoff)
  {
    var n := |rows| - 1;
    var before := rows[..n];
    if NoHole(rows, cutoff) {
      assert forall i :: 0 <= i < n ==> before[i] == rows[i];
    }
    if NoHole(before, cutoff) {
      forall i, j, k | 0 <= i < j < k < |rows| && rows[i].recordedAt >= cutoff && rows[k].recordedAt >= cutoff
                       && (k < n || rows[n - 1].recordedAt >= cutoff)
        ensures rows[j].recordedAt >= cutoff
      {
        var last := if k < n then k else n - 1;
        if j < last { assert before[i] == rows[i] && before[j] == rows[j] && before[last] == rows[last]; }
      }
    }
  }

  /**
    Over every run, on any clock: when a host's live rows are one run, one more purge leaves them
    one run if and only if it deletes none between two that it keeps.
   */
  lemma PurgeKeepsRunIffNoHole(H: Hasher, ops: seq<Op>, host: string, cutoff: int)
    requires Trusted(H, Run(H, ops).built) && OneRun(HostRows(Run(H, ops).rows, host))
    ensures OneRun(HostRows(Run(H, ops + [Op.Purge(cutoff)]).rows, host))
            <==> NoHole(HostRows(Run(H, ops).rows, host), cutoff)
  {
    assert (ops + [Op.Purge(cutoff)])[..|ops|] == ops;
    var s := Run(H, ops);
    AlwaysSound(H, ops);
    assert HostSound(H, s, host);
    LineageOf(H, s, host);
    PurgedHostRows(s.rows, host, cutoff);
    OneRunIffNoHole(HostRows(s.rows, host), cutoff);
  }

  lemma AppendKeepsRun(H: Hasher, s: State, host: string, event: Json, now: int, h: string)
    requires OneRun(HostRows(s.rows, h))
    ensures OneRun(HostRows(Do(H, s, Op.Append(host, event, now)).rows, h))
  {
    var r := NewRow(H, s.rows, host, event, now);
    if h == host && !Recorded(s.rows, r.recordHash) {
      LastRow(s.rows, r, h, 0);
      OneRunLast(HostRows(s.rows, h), r);
    } else if !Recorded(s.rows, r.recordHash) {
      LastRow(s.rows, r, h, 0);
      assert HostRows(s.rows, h) + [] == HostRows(s.rows, h);
    }
  }

  /** No purge of the run deletes a row of the host between two that it keeps. */
  ghost predicate NeverHole(H: Hasher, ops: seq<Op>, host: string) {
    forall n :: 0 <= n < |ops| && ops[n].Purge? ==> NoHole(HostRows(Run(H, ops[..n]).rows, host), ops[n].cutoff)
  }

  /** The host's live rows are one run at every moment. */
  ghost predicate AlwaysOneRun(H: Hasher, ops: seq<Op>, host: string) {
    forall n :: 0 <= n <= |ops| ==> OneRun(HostRows(Run(H, ops[..n]).rows, host))
  }

  lemma PurgeStep(H: Hasher, ops: seq<Op>, host: string, n: nat)
    requires Trusted(H, Run(H, ops).built) && n < |ops| && OneRun(HostRows(Run(H, ops[..n]).rows, host))
    requires ops[n].Purge?
    ensures OneRun(HostRows(Run(H, ops[..n + 1]).rows, host))
            <==> NoHole(HostRows(Run(H, ops[..n]).rows, host), ops[n].cutoff)
  {
    TrustedBefore(H, ops, n);
    assert ops[..n + 1] == ops[..n] + [Op.Purge(ops[n].cutoff)];
    PurgeKeepsRunIffNoHole(H, ops[..n], host, ops[n].cutoff);
  }

  lemma AppendStep(H: Hasher, ops: seq<Op>, host: string, n: nat)
    requires n < |ops| && OneRun(HostRows(Run(H, ops[..n]).rows, host)) && ops[n].Append?
    ensures OneRun(HostRows(Run(H, ops[..n + 1]).rows, host))
  {
    RunOneMore(H, ops, n);
    AppendKeepsRun(H, Run(H, ops[..n]), ops[n].host, ops[n].event, ops[n].now, host);
  }

  lemma StepKeepsRunIffNoHole(H: Hasher, ops: seq<Op>, host: string, n: nat)
    requires Trusted(H, Run(H, ops).built) && n < |ops| && OneRun(HostRows(Run(H, ops[..n]).rows, host))
    ensures OneRun(HostRows(Run(H, ops[..n + 1]).rows, host))
            <==> (ops[n].Purge? ==> NoHole(HostRows(Run(H, ops[..n]).rows, host), ops[n].cutoff))
  {
    if ops[n].Purge? {
      PurgeStep(H, ops, host, n);
    } else {
      AppendStep(H, ops, host, n);
    }
  }

  /**
    Over every run, on any clock, a host's live rows are one linked run at every moment if and only
    if no purge deletes one of them between two that it keeps.
   */
  lemma AlwaysOneRunIffNeverHole(H: Hasher, ops: seq<Op>, host: string)
    requires Trusted(H, Run(H, ops).built)
    ensures AlwaysOneRun(H, ops, host) <==> NeverHole(H, ops, host)
  {
    if AlwaysOneRun(H, ops, host) {
      forall n | 0 <= n < |ops| && ops[n].Purge?
        ensures NoHole(HostRows(Run(H, ops[..n]).rows, host), ops[n].cutoff)
      {
        assert OneRun(HostRows(Run(H, ops[..n + 1]).rows, host));
        StepKeepsRunIffNoHole(H, ops, host, n);
      }
    }
    if NeverHole(H, ops, host) {
      forall n | 0 <= n <= |ops| ensures OneRun(HostRows(Run(H, ops[..n]).rows, host)) { RunUpTo(H, ops, host, n); }
    }
  }

  lemma {:induction false} RunUpTo(H: Hasher, ops: seq<Op>, host: string, n: nat)
    requires Trusted(H, Run(H, ops).built) && NeverHole(H, ops, host) && n <= |ops|
    ensures OneRun(HostRows(Run(H, ops[..n]).rows, host))
  {
    if n == 0 {
    } else {
      RunUpTo(H, ops, host, n - 1);
      StepKeepsRunIffNoHole(H, ops, host, n - 1);
    }
  }

  // ----- A clock that does not go back -----

  /** Nothing is purged, or the server's clock never goes back between two appends. */
  ghost predicate Timely(ops: seq<Op>) {
    || (forall op :: op in ops ==> op.Append?)
    || ClockKept(ops)
  }

  ghost predicate ClockKept(ops: seq<Op>) {
    forall i, j :: 0 <= i < j < |ops| && ops[i].Append? && ops[j].Append? ==> ops[i].now <= ops[j].now
  }

  ghost predicate Sorted(rows: seq<Row>) {
    forall i, j :: 0 <= i < j < |rows| ==> rows[i].recordedAt <= rows[j].recordedAt
  }

  lemma AllPurged(rows: seq<Row>, cutoff: int)
    requires Sorted(rows) && rows != [] && rows[|rows| - 1].recordedAt < cutoff
    ensures PurgeRows(rows, cutoff) == [] && forall i :: 0 <= i < |rows| ==> rows[i].recordedAt < cutoff
  {
    forall i | 0 <= i < |rows| ensures rows[i].recordedAt < cutoff {
      assert i < |rows| - 1 ==> rows[i].recordedAt <= rows[|rows| - 1].recordedAt;
    }
    PurgeEmpty(rows, cutoff);
  }

  lemma LastKept(rows: seq<Row>, cutoff: int, m: nat)
    requires rows != [] && rows[|rows| - 1].recordedAt >= cutoff && m < |rows|
    requires PurgeRows(rows[..|rows| - 1], cutoff) == rows[..|rows| - 1][m..]
    ensures PurgeRows(rows, cutoff) == rows[m..]
  {
  }

  /** Deleting by age from rows in time order deletes the first `m`. */
  lemma {:induction false} PurgeIsDrop(rows: seq<Row>, cutoff: int) returns (m: nat)
    requires Sorted(rows)
    ensures m <= |rows| && PurgeRows(rows, cutoff) == rows[m..]
    ensures forall i :: 0 <= i < m ==> rows[i].recordedAt < cutoff
    ensures forall i :: m <= i < |rows| ==> rows[i].recordedAt >= cutoff
  {
    if rows == [] {
      m := 0;
    } else {
      var n := |rows| - 1;
      if rows[n].recordedAt < cutoff {
        m := |rows|;
        AllPurged(rows, cutoff);
      } else {
        m := PurgeIsDrop(rows[..n], cutoff);
        LastKept(rows, cutoff, m);
      }
    }
  }

  lemma {:induction false} RunTimes(H: Hasher, ops: seq<Op>, now: int)
    requires forall i :: 0 <= i < |ops| && ops[i].Append? ==> ops[i].now <= now
    ensures forall r :: r in Run(H, ops).rows ==> r.recordedAt <= now
  {
    if ops == [] {
    } else {
      RunTimes(H, ops[..|ops| - 1], now);
      var s := Run(H, ops[..|ops| - 1]);
      match ops[|ops| - 1]
      case Append(host, event, at) =>
      case Purge(cutoff) => forall r | r in PurgeRows(s.rows, cutoff) ensures r in s.rows { PurgeMember(s.rows, cutoff, r); }
    }
  }

  lemma {:induction false} RunSorted(H: Hasher, ops: seq<Op>)
    requires ClockKept(ops)
    ensures Sorted(Run(H, ops).rows)
  {
    if ops == [] {
    } else {
      var before := ops[..|ops| - 1];
      RunSorted(H, before);
      match ops[|ops| - 1]
      case Append(host, event, now) => RunTimes(H, before, now);
      case Purge(cutoff) => var m := PurgeIsDrop(Run(H, before).rows, cutoff);
    }
  }

  lemma SortedHasNoHole(rows: seq<Row>, host: string, cutoff: int)
    requires Sorted(rows)
    ensures NoHole(HostRows(rows, host), cutoff)
  {
    HostRowsSorted(rows, host);
  }

  lemma {:induction false} HostRowsSorted(rows: seq<Row>, host: string)
    requires Sorted(rows)
    ensures Sorted(HostRows(rows, host))
  {
    if rows == [] {
    } else {
      var n := |rows| - 1;
      HostRowsSorted(rows[..n], host);
      forall r | r in HostRows(rows[..n], host) ensures r.recordedAt <= rows[n].recordedAt {
        HostRowsMember(rows[..n], host, r);
      }
    }
  }

  /** On such a clock no purge makes a hole. */
  lemma TimelyMakesNoHole(H: Hasher, ops: seq<Op>, host: string)
    requires Timely(ops)
    ensures NeverHole(H, ops, host)
  {
    forall n | 0 <= n < |ops| && ops[n].Purge?
      ensures NoHole(HostRows(Run(H, ops[..n]).rows, host), ops[n].cutoff)
    {
      assert ops[n] in ops;
      assert forall i :: 0 <= i < n ==> ops[..n][i] == ops[i];
      RunSorted(H, ops[..n]);
      SortedHasNoHole(Run(H, ops[..n]).rows, host, ops[n].cutoff);
    }
  }

  /**
    On such a clock, each host's live rows are one linked run, the latest part of a chain linked
    from the genesis value, all of that chain as long as the host has lost no row; the verifier
    reports one gap at most, before the first of them.
   */
  lemma LiveRowsAreOneRun(H: Hasher, ops: seq<Op>, host: string)
    requires Timely(ops) && Trusted(H, Run(H, ops).built)
    ensures var s := Run(H, ops);
            var live, line := HostRows(s.rows, host), s.Lineage(host);
            && Linked(H, AsRecords(line)) && IsSuffix(live, line) && OneRun(live)
            && (host !in s.purged ==> live == line)
            && Errors(H, AsRecords(live)) == if live == line then [] else [PrevMismatch(0)]
  {
    TimelyMakesNoHole(H, ops, host);
    AlwaysOneRunIffNeverHole(H, ops, host);
    assert ops[..|ops|] == ops && OneRun(HostRows(Run(H, ops[..|ops|]).rows, host));
    OneRunIffLatestPart(H, ops, host);
    LiveRowsArePartOfOneChain(H, ops, host);
  }

  /**
    Otherwise a purge can break the run: of the rows appended for one host it deletes, by their
    times, the `j`-th and keeps the `i`-th and the `k`-th.
   */
  lemma ClockBackBreaksRun(H: Hasher, ops: seq<Op>, host: string, i: nat, j: nat, k: nat, cutoff: int)
    requires Trusted(H, Run(H, ops).built)
    requires forall op :: op in ops ==> op.Append? && op.host == host
    requires i < j < k < |ops| && ops[i].Append? && ops[j].Append? && ops[k].Append?
    requires ops[i].now >= cutoff > ops[j].now && ops[k].now >= cutoff
    ensures !OneRun(HostRows(Run(H, ops + [Op.Purge(cutoff)]).rows, host))
  {
    AppendsAreOneRun(H, ops, host);
    PurgeKeepsRunIffNoHole(H, ops, host, cutoff);
    OneHostAppends(H, ops, host);
    HoleInside(HostRows(Run(H, ops).rows, host), i, j, k, cutoff);
  }

  lemma HoleInside(live: seq<Row>, i: nat, j: nat, k: nat, cutoff: int)
    requires i < j < k < |live|
    requires live[i].recordedAt >= cutoff > live[j].recordedAt && live[k].recordedAt >= cutoff
    ensures !NoHole(live, cutoff)
  {
  }

  lemma {:induction false} AppendsAreOneRun(H: Hasher, ops: seq<Op>, host: string)
    requires forall op :: op in ops ==> op.Append?
    ensures OneRun(HostRows(Run(H, ops).rows, host))
  {
    if ops == [] {
    } else {
      var n := |ops| - 1;
      AppendsAreOneRun(H, ops[..n], host);
      assert ops[n] in ops;
      AppendKeepsRun(H, Run(H, ops[..n]), ops[n].host, ops[n].event, ops[n].now, host);
    }
  }

  /** The rows are what these appends recorded, for this host. */
  ghost predicate OneHost(rows: seq<Row>, ops: seq<Op>, host: string) {
    && HostRows(rows, host) == rows && |rows| == |ops|
    && (forall r :: r in rows ==> r.hostname == host)
    && (forall i :: 0 <= i < |ops| && ops[i].Append? ==> rows[i].recordedAt == ops[i].now)
  }

  lemma OneMoreOfHost(rows: seq<Row>, ops: seq<Op>, host: string, r: Row, op: Op)
    requires OneHost(rows, ops, host) && r.hostname == host && op.Append? && r.recordedAt == op.now
    ensures OneHost(rows + [r], ops + [op], host)
    ensures !Twin(rows, r)
  {
    LastRow(rows, r, host, 0);
  }

  /** Appends for one host alone are all stored. */
  lemma {:induction false} OneHostAppends(H: Hasher, ops: seq<Op>, host: string)
    requires Trusted(H, Run(H, ops).built)
    requires forall op :: op in ops ==> op.Append? && op.host == host
    ensures OneHost(Run(H, ops).rows, ops, host)
  {
    if ops == [] {
    } else {
      var before, op := ops[..|ops| - 1], ops[|ops| - 1];
      assert op in ops && ops == before + [op];
      TrustedBefore(H, ops, |ops| - 1);
      OneHostAppends(H, before, host);
      OneHostStep(H, before, host, op);
    }
  }

  lemma OneHostStep(H: Hasher, ops: seq<Op>, host: string, op: Op)
    requires OneHost(Run(H, ops).rows, ops, host) && op.Append? && op.host == host
    requires Trusted(H, Run(H, ops + [op]).built)
    ensures OneHost(Run(H, ops + [op]).rows, ops + [op], host)
  {
    var rows := Run(H, ops).rows;
    AppendAddsUnlessTwin(H, ops, host, op.event, op.now);
    OneMoreOfHost(rows, ops, host, NewRow(H, rows, host, op.event, op.now), op);
  }
}
