/**
  The server-side audit chains (`append_audit_record`, `_tail_server_hash` and `purge_old_records`
  in server/database.py): one table, one hash chain per host, old rows deleted by age.
 */
module AuditTable {
  import opened Data
  import opened HashChain

  /** A row of `audit_chain`.  The table is kept in id order. */
  datatype Row = Row(recordedAt: int, hostname: string, prevHash: string, event: Json, recordHash: string)

  /** What `append_audit_record` hashes. */
  function Body(prev: string, event: Json): Record {
    map["prev_hash" := Str(prev), "event" := event]
  }

  /** A row as the record it stands for. */
  function AsRecord(r: Row): Record {
    Body(r.prevHash, r.event)["record_hash" := Str(r.recordHash)]
  }

  function AsRecords(rows: seq<Row>): (rs: seq<Record>)
    ensures |rs| == |rows|
    ensures forall i :: 0 <= i < |rows| ==> rs[i] == AsRecord(rows[i])
  {
    seq(|rows|, i requires 0 <= i < |rows| => AsRecord(rows[i]))
  }

  lemma RecordOfRow(r: Row)
    ensures Payload(AsRecord(r)) == Body(r.prevHash, r.event)
    ensures PrevHash(AsRecord(r)) == r.prevHash && RecordHash(AsRecord(r)) == r.recordHash
  {
  }

  lemma BodyInjective(p: string, e: Json, q: string, f: Json)
    requires Body(p, e) == Body(q, f)
    ensures p == q && e == f
  {
    assert Body(p, e)["prev_hash"] == Body(q, f)["prev_hash"];
    assert Body(p, e)["event"] == Body(q, f)["event"];
  }

  /** `SELECT * FROM audit_chain WHERE hostname = host ORDER BY id`. */
  function HostRows(rows: seq<Row>, host: string): seq<Row> {
    if rows == [] then []
    else HostRows(rows[..|rows| - 1], host)
         + if rows[|rows| - 1].hostname == host then [rows[|rows| - 1]] else []
  }

  function LastHash(rows: seq<Row>): string {
    if rows == [] then GENESIS else rows[|rows| - 1].recordHash
  }

  function TailHash(rows: seq<Row>, host: string): string {
    LastHash(HostRows(rows, host))
  }

  function NewRow(H: Hasher, rows: seq<Row>, host: string, event: Json, now: int): Row {
    var prev := TailHash(rows, host);
    Row(now, host, prev, event, H(Body(prev, event)))
  }

  /** Would inserting a row with this hash violate the unique constraint? */
  predicate Recorded(rows: seq<Row>, hash: string) {
    exists r :: r in rows && r.recordHash == hash
  }

  /** The table after `append_audit_record`: a violated constraint is swallowed. */
  function AppendRow(H: Hasher, rows: seq<Row>, host: string, event: Json, now: int): seq<Row> {
    var r := NewRow(H, rows, host, event, now);
    if Recorded(rows, r.recordHash) then rows else rows + [r]
  }

  /** `DELETE FROM audit_chain WHERE recorded_at < cutoff`. */
  function PurgeRows(rows: seq<Row>, cutoff: int): seq<Row> {
    if rows == [] then []
    else PurgeRows(rows[..|rows| - 1], cutoff)
         + if rows[|rows| - 1].recordedAt < cutoff then [] else [rows[|rows| - 1]]
  }

  // ----- Runs -----

  datatype Op = Append(host: string, event: Json, now: int) | Purge(cutoff: int)

  /**
    `rows` is the table.  The rest is history: `lines` holds, for each host and each of its live
    rows in order, the lineage of that row, which is every row it was built on, from the genesis
    value to the row itself, deleted since or not; `purged` is the hosts that ever lost a row,
    `built` every record ever built.
   */
  datatype State = State(rows: seq<Row>, lines: map<string, seq<seq<Row>>>, purged: set<string>, built: seq<Record>)
  {
    function Lines(host: string): seq<seq<Row>> {
      if host in lines then lines[host] else []
    }

    /** The lineage of the host's last live row. */
    function Lineage(host: string): seq<Row> {
      LastOf(Lines(host))
    }
  }

  function LastOf(lines: seq<seq<Row>>): seq<Row> {
    if lines == [] then [] else lines[|lines| - 1]
  }

  const EMPTY := State([], map[], {}, [])

  function Do(H: Hasher, s: State, op: Op): State {
    match op
    case Append(host, event, now) =>
      var r := NewRow(H, s.rows, host, event, now);
      var built := s.built + [AsRecord(r)];
      if Recorded(s.rows, r.recordHash) then s.(built := built)
      else
        s.(rows := AppendRow(H, s.rows, host, event, now),
           lines := s.lines[host := s.Lines(host) + [s.Lineage(host) + [r]]],
           built := built)
    case Purge(cutoff) =>
      s.(rows := PurgeRows(s.rows, cutoff),
         lines := map host | host in s.lines :: PurgeLines(s.lines[host], cutoff),
         purged := s.purged + set r | r in s.rows && r.recordedAt < cutoff :: r.hostname)
  }

  /** The lineages of the rows that a purge keeps. */
  function PurgeLines(lines: seq<seq<Row>>, cutoff: int): seq<seq<Row>> {
    if lines == [] then []
    else
      var line := lines[|lines| - 1];
      PurgeLines(lines[..|lines| - 1], cutoff)
      + if line != [] && line[|line| - 1].recordedAt < cutoff then [] else [line]
  }

  function Run(H: Hasher, ops: seq<Op>): State {
    if ops == [] then EMPTY else Do(H, Run(H, ops[..|ops| - 1]), ops[|ops| - 1])
  }

  // ----- Rows by host -----

  lemma {:induction false} HostRowsMember(rows: seq<Row>, host: string, r: Row)
    ensures r in HostRows(rows, host) <==> r in rows && r.hostname == host
  {
    if rows == [] {
    } else {
      HostRowsMember(rows[..|rows| - 1], host, r);
      assert rows == rows[..|rows| - 1] + [rows[|rows| - 1]];
    }
  }

  lemma LastRow(rows: seq<Row>, r: Row, host: string, cutoff: int)
    ensures HostRows(rows + [r], host) == HostRows(rows, host) + if r.hostname == host then [r] else []
    ensures PurgeRows(rows + [r], cutoff) == PurgeRows(rows, cutoff) + if r.recordedAt < cutoff then [] else [r]
  {
    assert (rows + [r])[..|rows|] == rows;
  }

  lemma {:induction false} PurgeMember(rows: seq<Row>, cutoff: int, r: Row)
    ensures r in PurgeRows(rows, cutoff) <==> r in rows && r.recordedAt >= cutoff
  {
    if rows == [] {
    } else {
      PurgeMember(rows[..|rows| - 1], cutoff, r);
      assert rows == rows[..|rows| - 1] + [rows[|rows| - 1]];
    }
  }

  lemma PurgeEmpty(rows: seq<Row>, cutoff: int)
    ensures PurgeRows(rows, cutoff) == [] <==> forall i :: 0 <= i < |rows| ==> rows[i].recordedAt < cutoff
  {
    forall i | 0 <= i < |rows| ensures rows[i] in PurgeRows(rows, cutoff) <==> rows[i].recordedAt >= cutoff {
      PurgeMember(rows, cutoff, rows[i]);
    }
    var kept := PurgeRows(rows, cutoff);
    if kept != [] {
      PurgeMember(rows, cutoff, kept[0]);
      assert kept[0] in rows;
    }
  }

  lemma {:induction false} PurgeShrinks(rows: seq<Row>, cutoff: int)
    ensures |PurgeRows(rows, cutoff)| <= |rows|
  {
    if rows == [] {
    } else {
      PurgeShrinks(rows[..|rows| - 1], cutoff);
    }
  }

  lemma {:induction false} PurgedHostRows(rows: seq<Row>, host: string, cutoff: int)
    ensures HostRows(PurgeRows(rows, cutoff), host) == PurgeRows(HostRows(rows, host), cutoff)
  {
    if rows == [] {
    } else {
      var n := |rows| - 1;
      PurgedHostRows(rows[..n], host, cutoff);
      var kept, live := PurgeRows(rows[..n], cutoff), HostRows(rows[..n], host);
      assert kept + [] == kept && live + [] == live;
      LastRow(kept, rows[n], host, cutoff);
      LastRow(live, rows[n], host, cutoff);
    }
  }

  // ----- The invariant -----

  /** The lineages end in the live rows. */
  ghost predicate Ends(lines: seq<seq<Row>>, live: seq<Row>) {
    |lines| == |live| && forall i :: 0 <= i < |lines| ==> lines[i] != [] && lines[i][|lines[i]| - 1] == live[i]
  }

  /** The lineage of each live row goes on where that of an earlier one ended. */
  ghost predicate Nested(lines: seq<seq<Row>>) {
    forall i, j :: 0 <= i < j < |lines| ==> |lines[i]| < |lines[j]| && lines[i] <= lines[j]
  }

  ghost predicate LineSound(H: Hasher, s: State, line: seq<Row>) {
    Linked(H, AsRecords(line)) && forall r :: r in line ==> AsRecord(r) in s.built
  }

  ghost predicate HostSound(H: Hasher, s: State, host: string) {
    && Ends(s.Lines(host), HostRows(s.rows, host))
    && Nested(s.Lines(host))
    && (forall line :: line in s.Lines(host) ==> LineSound(H, s, line))
    && (host !in s.purged ==> NothingLostYet(s.Lines(host)))
  }

  ghost predicate Sound(H: Hasher, s: State) {
    forall host :: HostSound(H, s, host)
  }

  lemma LineageSound(H: Hasher, s: State, host: string)
    requires HostSound(H, s, host)
    ensures LineSound(H, s, s.Lineage(host))
    ensures LastHash(s.Lineage(host)) == TailHash(s.rows, host)
  {
    if s.Lines(host) == [] {
      assert AsRecords([]) == [];
    } else {
      assert s.Lineage(host) in s.Lines(host);
    }
  }

  lemma AppendLine(lines: seq<seq<Row>>, live: seq<Row>, r: Row)
    requires Ends(lines, live) && Nested(lines)
    ensures Ends(lines + [LastOf(lines) + [r]], live + [r]) && Nested(lines + [LastOf(lines) + [r]])
  {
  }

  lemma LinkedRows(H: Hasher, rows: seq<Row>, r: Row)
    requires Linked(H, AsRecords(rows))
    requires r.prevHash == LastHash(rows) && r.recordHash == H(Body(r.prevHash, r.event))
    ensures Linked(H, AsRecords(rows + [r]))
  {
    RecordOfRow(r);
    if rows != [] { RecordOfRow(rows[|rows| - 1]); }
    LinkedAppend(H, AsRecords(rows), AsRecord(r));
    assert AsRecords(rows + [r]) == AsRecords(rows) + [AsRecord(r)];
  }

  /** What one append that is stored does to its host. */
  lemma AppendedState(H: Hasher, s: State, host: string, event: Json, now: int)
    requires !Recorded(s.rows, NewRow(H, s.rows, host, event, now).recordHash)
    ensures var r := NewRow(H, s.rows, host, event, now);
            var t := Do(H, s, Op.Append(host, event, now));
            && HostRows(t.rows, host) == HostRows(s.rows, host) + [r]
            && t.Lines(host) == s.Lines(host) + [s.Lineage(host) + [r]]
            && t.purged == s.purged && t.built == s.built + [AsRecord(r)]
  {
    var t := Do(H, s, Op.Append(host, event, now));
    assert t.rows[..|t.rows| - 1] == s.rows;
  }

  lemma NewLineSound(H: Hasher, s: State, host: string, event: Json, now: int)
    requires HostSound(H, s, host)
    ensures var r := NewRow(H, s.rows, host, event, now);
            Linked(H, AsRecords(s.Lineage(host) + [r]))
            && forall q :: q in s.Lineage(host) + [r] ==> AsRecord(q) in s.built + [AsRecord(r)]
  {
    LineageSound(H, s, host);
    LinkedRows(H, s.Lineage(host), NewRow(H, s.rows, host, event, now));
  }

  ghost predicate NothingLostYet(lines: seq<seq<Row>>) {
    forall i :: 0 <= i < |lines| ==> |lines[i]| == i + 1
  }

  lemma NothingLostStill(lines: seq<seq<Row>>, r: Row)
    requires NothingLostYet(lines)
    ensures NothingLostYet(lines + [LastOf(lines) + [r]])
  {
  }

  lemma HostAppended(H: Hasher, s: State, t: State, host: string, r: Row)
    requires HostSound(H, s, host)
    requires HostRows(t.rows, host) == HostRows(s.rows, host) + [r]
    requires t.Lines(host) == s.Lines(host) + [s.Lineage(host) + [r]]
    requires t.purged == s.purged && t.built == s.built + [AsRecord(r)]
    requires LineSound(H, t, s.Lineage(host) + [r])
    ensures HostSound(H, t, host)
  {
    AppendLine(s.Lines(host), HostRows(s.rows, host), r);
    if host !in t.purged { NothingLostStill(s.Lines(host), r); }
    forall line | line in t.Lines(host) ensures LineSound(H, t, line) {
      assert line in s.Lines(host) ==> LineSound(H, s, line);
    }
  }

  lemma AppendedHost(H: Hasher, s: State, host: string, event: Json, now: int)
    requires HostSound(H, s, host)
    requires !Recorded(s.rows, NewRow(H, s.rows, host, event, now).recordHash)
    ensures HostSound(H, Do(H, s, Op.Append(host, event, now)), host)
  {
    var r := NewRow(H, s.rows, host, event, now);
    AppendedState(H, s, host, event, now);
    NewLineSound(H, s, host, event, now);
    HostAppended(H, s, Do(H, s, Op.Append(host, event, now)), host, r);
  }

  lemma AppendSound(H: Hasher, s: State, host: string, event: Json, now: int)
    requires Sound(H, s)
    ensures Sound(H, Do(H, s, Op.Append(host, event, now)))
  {
    var r := NewRow(H, s.rows, host, event, now);
    var t := Do(H, s, Op.Append(host, event, now));
    forall h ensures HostSound(H, t, h) {
      assert HostSound(H, s, h);
      if h == host && !Recorded(s.rows, r.recordHash) {
        AppendedHost(H, s, host, event, now);
      } else {
        OtherHost(H, s, t, h, r);
      }
    }
  }

  /** What is appended for one host leaves the others alone. */
  lemma OtherHost(H: Hasher, s: State, t: State, host: string, r: Row)
    requires HostSound(H, s, host)
    requires t.rows == s.rows || (t.rows == s.rows + [r] && r.hostname != host)
    requires t.Lines(host) == s.Lines(host) && t.purged == s.purged && t.built == s.built + [AsRecord(r)]
    ensures HostSound(H, t, host)
  {
    assert t.rows != s.rows ==> t.rows[..|t.rows| - 1] == s.rows;
    forall line | line in t.Lines(host) ensures LineSound(H, t, line) {
      assert LineSound(H, s, line);
    }
  }

  lemma EndsBefore(lines: seq<seq<Row>>, live: seq<Row>, n: nat)
    requires Ends(lines, live) && n <= |lines|
    ensures Ends(lines[..n], live[..n])
  {
  }

  lemma EndsAppend(lines: seq<seq<Row>>, live: seq<Row>, line: seq<Row>, r: Row)
    requires Ends(lines, live) && line != [] && line[|line| - 1] == r
    ensures Ends(lines + [line], live + [r])
  {
  }

  lemma {:induction false} PurgedEnds(lines: seq<seq<Row>>, live: seq<Row>, cutoff: int)
    requires Ends(lines, live)
    ensures Ends(PurgeLines(lines, cutoff), PurgeRows(live, cutoff))
  {
    if lines == [] {
    } else {
      var n := |lines| - 1;
      EndsBefore(lines, live, n);
      PurgedEnds(lines[..n], live[..n], cutoff);
      EndsAppend(PurgeLines(lines[..n], cutoff), PurgeRows(live[..n], cutoff), lines[n], live[n]);
      assert PurgeLines(lines[..n], cutoff) + [] == PurgeLines(lines[..n], cutoff);
      assert PurgeRows(live[..n], cutoff) + [] == PurgeRows(live[..n], cutoff);
    }
  }

  lemma {:induction false} PurgedLine(lines: seq<seq<Row>>, cutoff: int, line: seq<Row>)
    requires line in PurgeLines(lines, cutoff)
    ensures line in lines
  {
    if lines == [] {
    } else if line in PurgeLines(lines[..|lines| - 1], cutoff) {
      PurgedLine(lines[..|lines| - 1], cutoff, line);
    }
  }

  lemma {:induction false} PurgedNested(lines: seq<seq<Row>>, cutoff: int)
    requires Nested(lines)
    ensures Nested(PurgeLines(lines, cutoff))
  {
    if lines == [] {
    } else {
      var n := |lines| - 1;
      PurgedNested(lines[..n], cutoff);
      forall line | line in PurgeLines(lines[..n], cutoff) ensures |line| < |lines[n]| && line <= lines[n] {
        PurgedLine(lines[..n], cutoff, line);
        var i :| 0 <= i < n && lines[i] == line;
      }
      NestedAppend(PurgeLines(lines[..n], cutoff), lines[n]);
    }
  }

  lemma NestedAppend(lines: seq<seq<Row>>, line: seq<Row>)
    requires Nested(lines) && forall l :: l in lines ==> |l| < |line| && l <= line
    ensures Nested(lines + [line])
  {
  }

  lemma LastLineKept(lines: seq<seq<Row>>, line: seq<Row>, cutoff: int)
    requires line == [] || line[|line| - 1].recordedAt >= cutoff
    requires PurgeLines(lines, cutoff) == lines
    ensures PurgeLines(lines + [line], cutoff) == lines + [line]
  {
    assert (lines + [line])[..|lines|] == lines;
  }

  lemma {:induction false} NothingPurged(lines: seq<seq<Row>>, live: seq<Row>, cutoff: int)
    requires Ends(lines, live) && forall r :: r in live ==> r.recordedAt >= cutoff
    ensures PurgeLines(lines, cutoff) == lines
  {
    if lines == [] {
    } else {
      var n := |lines| - 1;
      EndsBefore(lines, live, n);
      NothingPurged(lines[..n], live[..n], cutoff);
      assert live[n] in live && lines[n][|lines[n]| - 1] == live[n];
      LastLineKept(lines[..n], lines[n], cutoff);
      assert lines == lines[..n] + [lines[n]];
    }
  }

  lemma PurgedHost(H: Hasher, s: State, cutoff: int, host: string)
    requires HostSound(H, s, host)
    ensures HostSound(H, Do(H, s, Op.Purge(cutoff)), host)
  {
    var t := Do(H, s, Op.Purge(cutoff));
    var lines, live := s.Lines(host), HostRows(s.rows, host);
    assert t.Lines(host) == PurgeLines(lines, cutoff);
    PurgedHostRows(s.rows, host, cutoff);
    PurgedEnds(lines, live, cutoff);
    PurgedNested(lines, cutoff);
    forall line | line in t.Lines(host) ensures LineSound(H, t, line) {
      PurgedLine(lines, cutoff, line);
      assert LineSound(H, s, line);
    }
    if host !in t.purged {
      forall r | r in live ensures r.recordedAt >= cutoff { HostRowsMember(s.rows, host, r); }
      NothingPurged(lines, live, cutoff);
    }
  }

  /** Over every run the invariant holds, whatever digests and the clock do. */
  lemma {:induction false} AlwaysSound(H: Hasher, ops: seq<Op>)
    ensures Sound(H, Run(H, ops))
  {
    if ops == [] {
    } else {
      var s := Run(H, ops[..|ops| - 1]);
      AlwaysSound(H, ops[..|ops| - 1]);
      match ops[|ops| - 1]
      case Append(host, event, now) => AppendSound(H, s, host, event, now);
      case Purge(cutoff) =>
        forall host ensures HostSound(H, Do(H, s, Op.Purge(cutoff)), host) {
          assert HostSound(H, s, host);
          PurgedHost(H, s, cutoff, host);
        }
    }
  }

  lemma TrustedLineage(H: Hasher, s: State, host: string)
    requires HostSound(H, s, host) && Trusted(H, s.built)
    ensures Linked(H, AsRecords(s.Lineage(host))) && Trusted(H, AsRecords(s.Lineage(host)))
  {
    var line := s.Lineage(host);
    LineageSound(H, s, host);
    forall r | r in AsRecords(line) ensures r in s.built {
      var i :| 0 <= i < |line| && AsRecords(line)[i] == r;
      assert line[i] in line;
    }
  }

  lemma {:induction false} BuiltGrows(H: Hasher, ops: seq<Op>, n: nat)
    requires n <= |ops|
    ensures Run(H, ops[..n]).built <= Run(H, ops).built
  {
    if n == |ops| {
      assert ops[..n] == ops;
    } else {
      BuiltGrows(H, ops[..|ops| - 1], n);
      assert ops[..|ops| - 1][..n] == ops[..n];
    }
  }

  lemma RunOneMore(H: Hasher, ops: seq<Op>, n: nat)
    requires n < |ops|
    ensures Run(H, ops[..n + 1]) == Do(H, Run(H, ops[..n]), ops[n])
  {
    assert ops[..n + 1][..n] == ops[..n];
  }

  lemma TrustedBefore(H: Hasher, ops: seq<Op>, n: nat)
    requires Trusted(H, Run(H, ops).built) && n <= |ops|
    ensures Trusted(H, Run(H, ops[..n]).built)
  {
    BuiltGrows(H, ops, n);
  }

  // ----- Appending -----

  /** A live row that was built on the same hash from the same event for another host. */
  ghost predicate Twin(rows: seq<Row>, r: Row) {
    exists q :: q in rows && q.hostname != r.hostname && q.prevHash == r.prevHash && q.event == r.event
  }

  /** The place of a live row in the lineage of its host's last one. */
  lemma PlaceInLineage(H: Hasher, s: State, q: Row) returns (at: nat)
    requires Sound(H, s) && q in s.rows
    ensures at < |s.Lineage(q.hostname)| && s.Lineage(q.hostname)[at] == q
  {
    var lines, live := s.Lines(q.hostname), HostRows(s.rows, q.hostname);
    assert HostSound(H, s, q.hostname);
    HostRowsMember(s.rows, q.hostname, q);
    var i :| 0 <= i < |live| && live[i] == q;
    at := |lines[i]| - 1;
    assert lines[i] <= lines[|lines| - 1];
  }

  lemma RowHash(H: Hasher, s: State, q: Row)
    requires Sound(H, s) && q in s.rows
    ensures q.recordHash == H(Body(q.prevHash, q.event))
    ensures AsRecord(q) in s.built
  {
    var at := PlaceInLineage(H, s, q);
    assert HostSound(H, s, q.hostname);
    LineageSound(H, s, q.hostname);
    RecordOfRow(q);
    assert LinkedAt(H, AsRecords(s.Lineage(q.hostname)), at);
    assert s.Lineage(q.hostname)[at] in s.Lineage(q.hostname);
  }

  /** No live row is built on the hash its host's chain now ends in. */
  lemma PrevNotTail(H: Hasher, s: State, q: Row)
    requires Sound(H, s) && Trusted(H, s.built) && q in s.rows
    ensures q.prevHash != TailHash(s.rows, q.hostname)
  {
    var at := PlaceInLineage(H, s, q);
    var line := s.Lineage(q.hostname);
    assert HostSound(H, s, q.hostname);
    LineageSound(H, s, q.hostname);
    TrustedLineage(H, s, q.hostname);
    RecordOfRow(q);
    RecordOfRow(line[|line| - 1]);
    assert LinkedAt(H, AsRecords(line), at);
    HashesDistinct(H, AsRecords(line), at, |line|);
  }

  lemma SameHashIsTwin(H: Hasher, s: State, host: string, event: Json, now: int, q: Row)
    requires Sound(H, s) && Trusted(H, s.built + [AsRecord(NewRow(H, s.rows, host, event, now))])
    requires q in s.rows && q.recordHash == NewRow(H, s.rows, host, event, now).recordHash
    ensures q.hostname != host
    ensures q.prevHash == NewRow(H, s.rows, host, event, now).prevHash && q.event == event
  {
    var r := NewRow(H, s.rows, host, event, now);
    RecordOfRow(q);
    RecordOfRow(r);
    RowHash(H, s, q);
    assert NoClash(H, AsRecord(q), AsRecord(r));
    BodyInjective(q.prevHash, q.event, r.prevHash, r.event);
    if q.hostname == host {
      PrevNotTail(H, s, q);
    }
  }

  /** The unique constraint is violated exactly when another host has such a row. */
  lemma RecordedIffTwin(H: Hasher, s: State, host: string, event: Json, now: int)
    requires Sound(H, s) && Trusted(H, s.built + [AsRecord(NewRow(H, s.rows, host, event, now))])
    ensures var r := NewRow(H, s.rows, host, event, now);
            Recorded(s.rows, r.recordHash) <==> Twin(s.rows, r)
  {
    var r := NewRow(H, s.rows, host, event, now);
    if q :| q in s.rows && q.recordHash == r.recordHash {
      SameHashIsTwin(H, s, host, event, now, q);
    }
    if Twin(s.rows, r) {
      var q :| q in s.rows && q.hostname != r.hostname && q.prevHash == r.prevHash && q.event == r.event;
      RowHash(H, s, q);
    }
  }

  /**
    Over every run of appends for many hosts mixed with purges, on any clock, the next append adds
    exactly its row, at the end, unless another host has a live row built on the same hash from the
    same event: then, and only then, the constraint violation is swallowed and nothing is added.
   */
  lemma AppendAddsUnlessTwin(H: Hasher, ops: seq<Op>, host: string, event: Json, now: int)
    requires Trusted(H, Run(H, ops + [Op.Append(host, event, now)]).built)
    ensures var rows := Run(H, ops).rows;
            var r := NewRow(H, rows, host, event, now);
            Run(H, ops + [Op.Append(host, event, now)]).rows == if Twin(rows, r) then rows else rows + [r]
  {
    var all := ops + [Op.Append(host, event, now)];
    assert all[..|ops|] == ops && all[|ops|] == Op.Append(host, event, now);
    AlwaysSound(H, ops);
    RecordedIffTwin(H, Run(H, ops), host, event, now);
  }

  /** Every event is appended for the host it names. */
  ghost predicate OwnHost(ops: seq<Op>) {
    forall op :: op in ops && op.Append? ==> op.host == Field(op.event, "hostname")
  }

  lemma {:induction false} RowsNameTheirHost(H: Hasher, ops: seq<Op>)
    requires OwnHost(ops)
    ensures forall q :: q in Run(H, ops).rows ==> q.hostname == Field(q.event, "hostname")
  {
    if ops == [] {
    } else {
      var before := ops[..|ops| - 1];
      RowsNameTheirHost(H, before);
      assert ops[|ops| - 1] in ops;
      match ops[|ops| - 1]
      case Append(host, event, now) =>
      case Purge(cutoff) =>
        forall q | q in Run(H, ops).rows ensures q in Run(H, before).rows { PurgeMember(Run(H, before).rows, cutoff, q); }
    }
  }

  /** As the server calls it, with events that carry their host, every append adds its row. */
  lemma EveryAppendAddsOneRow(H: Hasher, ops: seq<Op>, host: string, event: Json, now: int)
    requires Trusted(H, Run(H, ops + [Op.Append(host, event, now)]).built)
    requires OwnHost(ops) && host == Field(event, "hostname")
    ensures Run(H, ops + [Op.Append(host, event, now)]).rows
            == Run(H, ops).rows + [NewRow(H, Run(H, ops).rows, host, event, now)]
  {
    AppendAddsUnlessTwin(H, ops, host, event, now);
    RowsNameTheirHost(H, ops);
  }

  /** Without that, two hosts whose chains start with the same event: the second host's record is lost. */
  lemma SharedEventIsLost(H: Hasher, event: Json)
    ensures var s := Run(H, [Op.Append("a", event, 0), Op.Append("b", event, 0)]);
            |s.rows| == 1 && HostRows(s.rows, "b") == []
  {
    var ops := [Op.Append("a", event, 0), Op.Append("b", event, 0)];
    RunOneMore(H, ops, 0);
    RunOneMore(H, ops, 1);
    assert ops[..0] == [] && ops[..2] == ops;
    FirstIsStored(H, event);
    SecondIsLost(H, Run(H, ops[..1]), event);
  }

  lemma FirstIsStored(H: Hasher, event: Json)
    ensures Do(H, EMPTY, Op.Append("a", event, 0)).rows == [NewRow(H, [], "a", event, 0)]
  {
  }

  lemma SecondIsLost(H: Hasher, s: State, event: Json)
    requires s.rows == [NewRow(H, [], "a", event, 0)]
    ensures Do(H, s, Op.Append("b", event, 0)).rows == s.rows && HostRows(s.rows, "b") == []
  {
    OnlyRow(s.rows[0], "b");
    assert s.rows[0] in s.rows && NewRow(H, s.rows, "b", event, 0).recordHash == s.rows[0].recordHash;
  }

  lemma OnlyRow(r: Row, host: string)
    ensures HostRows([r], host) == if r.hostname == host then [r] else []
  {
    assert [r][..0] == [];
  }

  // ----- The table -----

  class AuditChainTable {
    const H: Hasher
    var rows: seq<Row>

    constructor (H: Hasher)
      ensures this.H == H && rows == []
    {
      this.H, this.rows := H, [];
    }

    /** The latest row of the host, searched from the end, as the query orders by id descending. */
    method TailServerHash(host: string) returns (hash: string)
      ensures hash == TailHash(rows, host)
    {
      var i := |rows|;
      assert rows[..i] == rows;
      while i > 0
        invariant 0 <= i <= |rows|
        invariant TailHash(rows, host) == TailHash(rows[..i], host)
      {
        i := i - 1;
        assert rows[..i + 1][..i] == rows[..i];
        if rows[i].hostname == host {
          return rows[i].recordHash;
        }
      }
      return GENESIS;
    }

    /** Appends `event` to the host's chain and returns the hash, whether or not the row went in. */
    method AppendAuditRecord(host: string, event: Json, now: int) returns (hash: string)
      modifies this`rows
      ensures rows == AppendRow(H, old(rows), host, event, now)
      ensures hash == H(Body(TailHash(old(rows), host), event)) && Recorded(rows, hash)
    {
      var prev := TailServerHash(host);
      hash := H(Body(prev, event));
      var r := Row(now, host, prev, event, hash);
      if !Recorded(rows, hash) {
        rows := rows + [r];
        assert r in rows;
      }
    }

    method PurgeOldRecords(cutoff: int) returns (deleted: nat)
      modifies this`rows
      ensures rows == PurgeRows(old(rows), cutoff)
      ensures forall r :: r in rows <==> r in old(rows) && r.recordedAt >= cutoff
      ensures |rows| + deleted == |old(rows)|
    {
      forall r ensures r in PurgeRows(rows, cutoff) <==> r in rows && r.recordedAt >= cutoff { PurgeMember(rows, cutoff, r); }
      PurgeShrinks(rows, cutoff);
      deleted := |rows| - |PurgeRows(rows, cutoff)|;
      rows := PurgeRows(rows, cutoff);
    }
  }
}
