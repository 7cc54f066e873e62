/**
  The agent's hash-chained log file: `LocalAuditLogger` (agent/logger.py), the record encryption of
  agent/crypto.py and the loader of tools/verify_chain.py.
 */
module AuditLog {
  import opened Data
  import opened HashChain

  /** A line of the log file, as JSON parsing sees it. */
  datatype Line = Blank | Unparsable | Parsed(fields: Record)

  // ----- Encryption -----

  /** An authenticated cipher: key, nonce and record to ciphertext with tag, and back. */
  datatype Cipher = Cipher(seal: (string, string, Record) -> string, unseal: (string, string, string) -> Option<Record>)

  ghost predicate Invertible(c: Cipher) {
    forall k, n, r :: c.unseal(k, n, c.seal(k, n, r)) == Some(r)
  }

  /** `decrypt_record`'s result: a record, or the exception it raises. */
  datatype Reading = Ok(record: Record) | ValueError | RuntimeError

  predicate IsEnvelope(fields: Record) {
    "v" in fields && fields["v"] == Num(1)
  }

  function EncryptRecord(c: Cipher, key: string, nonce: string, r: Record): Line {
    Parsed(map["v" := Num(1), "nonce" := Str(nonce), "ct" := Str(c.seal(key, nonce, r))])
  }

  function DecryptRecord(c: Cipher, key: Option<string>, line: Line): Reading {
    match line
    case Blank => ValueError
    case Unparsable => ValueError
    case Parsed(fields) =>
      if !IsEnvelope(fields) then Ok(fields)
      else if key.None? then RuntimeError
      else if "nonce" !in fields || !fields["nonce"].Str? || "ct" !in fields || !fields["ct"].Str? then ValueError
      else match c.unseal(key.value, fields["nonce"].s, fields["ct"].s)
        case None => ValueError
        case Some(r) => Ok(r)
  }

  /**
    What is written is what is read: an encrypted record under its key, and a plaintext record
    under any key or none, unless the record itself looks like an envelope.
   */
  lemma RoundTrip(c: Cipher, key: string, nonce: string, r: Record, any: Option<string>)
    requires Invertible(c)
    ensures DecryptRecord(c, Some(key), EncryptRecord(c, key, nonce, r)) == Ok(r)
    ensures DecryptRecord(c, None, EncryptRecord(c, key, nonce, r)) == RuntimeError
    ensures DecryptRecord(c, None, Parsed(r)) == Ok(r) <==> !IsEnvelope(r)
    ensures !IsEnvelope(r) ==> DecryptRecord(c, any, Parsed(r)) == Ok(r)
  {
    assert c.unseal(key, nonce, c.seal(key, nonce, r)) == Some(r);
  }

  // ----- Loading a log -----

  function OneRecord(c: Cipher, key: Option<string>, line: Line): seq<Record> {
    match DecryptRecord(c, key, line)
    case Ok(r) => [r]
    case _ => []
  }

  /** The records of the lines that can be read, in order. */
  function Records(c: Cipher, key: Option<string>, file: seq<Line>): seq<Record> {
    if file == [] then []
    else Records(c, key, file[..|file| - 1]) + OneRecord(c, key, file[|file| - 1])
  }

  datatype Loaded = Loaded(records: seq<Record>) | Exit

  /** Unreadable lines are skipped with a warning; an encrypted line and no key end the program. */
  method LoadFromFile(c: Cipher, key: Option<string>, file: seq<Line>) returns (loaded: Loaded)
    ensures loaded.Exit? <==> exists line :: line in file && DecryptRecord(c, key, line).RuntimeError?
    ensures loaded.Loaded? ==> loaded.records == Records(c, key, file)
  {
    var records: seq<Record> := [];
    for i := 0 to |file|
      invariant records == Records(c, key, file[..i])
      invariant forall j :: 0 <= j < i ==> !DecryptRecord(c, key, file[j]).RuntimeError?
    {
      assert file[..i + 1][..i] == file[..i];
      if !file[i].Blank? {
        match DecryptRecord(c, key, file[i]) {
          case Ok(r) => records := records + [r];
          case ValueError =>
          case RuntimeError =>
            assert file[i] in file;
            return Exit;
        }
      }
    }
    assert file[..|file|] == file;
    return Loaded(records);
  }

  ghost predicate Readable(c: Cipher, key: Option<string>, file: seq<Line>) {
    forall i :: 0 <= i < |file| ==> DecryptRecord(c, key, file[i]).Ok?
  }

  lemma {:induction false} RecordsOfReadable(c: Cipher, key: Option<string>, file: seq<Line>)
    requires Readable(c, key, file)
    ensures |Records(c, key, file)| == |file|
    ensures forall i :: 0 <= i < |file| ==> DecryptRecord(c, key, file[i]) == Ok(Records(c, key, file)[i])
  {
    if file == [] {
    } else {
      RecordsOfReadable(c, key, file[..|file| - 1]);
    }
  }

  lemma {:induction false} RecordsConcat(c: Cipher, key: Option<string>, a: seq<Line>, b: seq<Line>)
    ensures Records(c, key, a + b) == Records(c, key, a) + Records(c, key, b)
  {
    if b == [] {
      assert a + b == a;
    } else {
      assert (a + b)[..|a + b| - 1] == a + b[..|b| - 1];
      RecordsConcat(c, key, a, b[..|b| - 1]);
    }
  }

  lemma {:induction false} AtMostOneEach(c: Cipher, key: Option<string>, file: seq<Line>)
    ensures |Records(c, key, file)| <= |file|
  {
    if file == [] {
    } else {
      AtMostOneEach(c, key, file[..|file| - 1]);
    }
  }

  /** The file with the lines in `bad` made unreadable. */
  function Damage(file: seq<Line>, bad: set<nat>): seq<Line> {
    seq(|file|, i requires 0 <= i < |file| => if i in bad then Unparsable else file[i])
  }

  /** Two files that start with the same lines, one of which goes on with nothing to read. */
  lemma ShorterLog(c: Cipher, key: Option<string>, start: seq<Line>, end: seq<Line>, bad: seq<Line>)
    requires forall i :: 0 <= i < |bad| ==> bad[i].Unparsable?
    ensures Records(c, key, start + bad) <= Records(c, key, start + end)
  {
    RecordsConcat(c, key, start, bad);
    RecordsConcat(c, key, start, end);
    UnreadableEnd(c, key, bad);
  }

  lemma {:induction false} UnreadableEnd(c: Cipher, key: Option<string>, file: seq<Line>)
    requires forall i :: 0 <= i < |file| ==> file[i].Unparsable?
    ensures Records(c, key, file) == []
  {
    if file == [] {
    } else {
      UnreadableEnd(c, key, file[..|file| - 1]);
    }
  }

  lemma {:induction false} FirstBad(bad: set<nat>, n: nat) returns (m: nat)
    ensures m <= n && (forall i :: 0 <= i < m ==> i !in bad) && (m < n ==> m in bad)
  {
    if n == 0 {
      m := 0;
    } else {
      m := FirstBad(bad, n - 1);
      if m == n - 1 && m !in bad { m := n; }
    }
  }

  lemma DamageSplit(file: seq<Line>, bad: set<nat>, m: nat)
    requires ToTheEnd(file, bad) && m <= |file|
    requires (forall i :: 0 <= i < m ==> i !in bad) && (m < |file| ==> m in bad)
    ensures Damage(file, bad)[..m] == file[..m]
    ensures forall i :: m <= i < |file| ==> Damage(file, bad)[i].Unparsable?
  {
    forall i | m <= i < |file| ensures i in bad { assert m in bad; }
  }

  lemma DamagedTail(c: Cipher, key: Option<string>, file: seq<Line>, bad: set<nat>)
    requires ToTheEnd(file, bad)
    ensures Records(c, key, Damage(file, bad)) <= Records(c, key, file)
  {
    var d := Damage(file, bad);
    var m := FirstBad(bad, |file|);
    DamageSplit(file, bad, m);
    assert d == file[..m] + d[m..] && file == file[..m] + file[m..];
    ShorterLog(c, key, file[..m], file[m..], d[m..]);
  }

  lemma {:induction false} FewerRecords(c: Cipher, key: Option<string>, file: seq<Line>, bad: set<nat>, i: nat, n: nat)
    requires i < n <= |file| && i in bad
    ensures |Records(c, key, Damage(file, bad)[..n])| < n
  {
    var d := Damage(file, bad);
    assert d[..n][..n - 1] == d[..n - 1];
    if n - 1 == i {
      AtMostOneEach(c, key, d[..i]);
    } else {
      FewerRecords(c, key, file, bad, i, n - 1);
    }
  }

  /** A readable line after a damaged one: its record moves up, to position `p`. */
  lemma DamagedMiddle(c: Cipher, key: Option<string>, file: seq<Line>, bad: set<nat>, i: nat, j: nat)
      returns (p: nat)
    requires Readable(c, key, file)
    requires i < j < |file| && i in bad && j !in bad
    ensures p < j && p < |Records(c, key, Damage(file, bad))| && j < |Records(c, key, file)|
    ensures Records(c, key, Damage(file, bad))[p] == Records(c, key, file)[j]
  {
    var d := Damage(file, bad);
    assert |d| == |file| && d == d[..j + 1] + d[j + 1..];
    RecordsOfReadable(c, key, file);
    p := |Records(c, key, d[..j])|;
    FewerRecords(c, key, file, bad, i, j);
    assert d[..j + 1][..j] == d[..j];
    assert Records(c, key, d[..j + 1])[p] == Records(c, key, file)[j];
    RecordsConcat(c, key, d[..j + 1], d[j + 1..]);
  }

  /** Do the lines in `bad` reach to the end of the file, if there are any? */
  ghost predicate ToTheEnd(file: seq<Line>, bad: set<nat>) {
    forall i, j :: i in bad && i < j < |file| ==> j in bad
  }

  lemma PrefixIffToTheEnd(H: Hasher, c: Cipher, key: Option<string>, file: seq<Line>, bad: set<nat>)
    requires Readable(c, key, file)
    requires Trusted(H, Records(c, key, file)) && Linked(H, Records(c, key, file))
    ensures Records(c, key, Damage(file, bad)) <= Records(c, key, file) <==> ToTheEnd(file, bad)
  {
    var chain, drawn := Records(c, key, file), Records(c, key, Damage(file, bad));
    if ToTheEnd(file, bad) {
      DamagedTail(c, key, file, bad);
    } else {
      var i, j :| i in bad && i < j < |file| && j !in bad;
      var p := DamagedMiddle(c, key, file, bad, i, j);
      HashesDistinct(H, chain, p + 1, j + 1);
      assert drawn[p] != chain[p];
    }
  }

  /**
    Lines of an accepted log that the loader has to skip are noticed by the verifier unless
    everything after them is unreadable too.
   */
  lemma SkippedLines(H: Hasher, c: Cipher, key: Option<string>, file: seq<Line>, bad: set<nat>)
    requires Readable(c, key, file)
    requires Trusted(H, Records(c, key, file)) && Accepted(H, Records(c, key, file))
    ensures Accepted(H, Records(c, key, Damage(file, bad))) <==> ToTheEnd(file, bad)
  {
    var chain, drawn := Records(c, key, file), Records(c, key, Damage(file, bad));
    assert Damage(file, bad)[..|file|] == Damage(file, bad);
    forall r | r in drawn ensures r in chain { DrawnFrom(c, key, file, bad, |file|, r); }
    DrawnAcceptedIffPrefix(H, chain, drawn);
    AcceptedIffLinked(H, chain);
    PrefixIffToTheEnd(H, c, key, file, bad);
  }

  lemma {:induction false} DrawnFrom(c: Cipher, key: Option<string>, file: seq<Line>, bad: set<nat>, n: nat, r: Record)
    requires Readable(c, key, file) && n <= |file|
    requires r in Records(c, key, Damage(file, bad)[..n])
    ensures r in Records(c, key, file)
  {
    RecordsOfReadable(c, key, file);
    if n > 0 {
      assert Damage(file, bad)[..n][..n - 1] == Damage(file, bad)[..n - 1];
      if r in Records(c, key, Damage(file, bad)[..n - 1]) {
        DrawnFrom(c, key, file, bad, n - 1, r);
      } else {
        assert r == Records(c, key, file)[n - 1];
      }
    }
  }

  // ----- The logger -----

  /** The record `write` builds on `prev`. */
  function NewRecord(H: Hasher, prev: string, event: Json): Record {
    var body: Record := map["prev_hash" := Str(prev), "event" := event];
    body["record_hash" := Str(H(body))]
  }

  function NewLine(c: Cipher, key: Option<string>, nonce: string, r: Record): Line {
    if key.Some? then EncryptRecord(c, key.value, nonce, r) else Parsed(r)
  }

  function LastLine(file: seq<Line>): Line {
    if file == [] then Blank
    else if file[|file| - 1].Blank? then LastLine(file[..|file| - 1])
    else file[|file| - 1]
  }

  /** The chain head a logger starts from: a last line it cannot read restarts the chain. */
  function TailHash(c: Cipher, key: Option<string>, file: seq<Line>): string {
    match DecryptRecord(c, key, LastLine(file))
    case Ok(r) => if "record_hash" in r then RecordHash(r) else GENESIS
    case _ => GENESIS
  }

  /** The log and its logger; the file outlives the logger object, the key is its environment. */
  datatype Log = Log(file: seq<Line>, prevHash: string, key: Option<string>)

  datatype Op =
    | Write(event: Json, nonce: string, ok: bool)  // `!ok`: OSError before any byte is written
    | Restart
    | SetKey(k: string)                            // switches to encryption once; later keys are ignored

  function Do(H: Hasher, c: Cipher, s: Log, op: Op): Log {
    match op
    case Write(event, nonce, ok) =>
      if ok then
        var r := NewRecord(H, s.prevHash, event);
        s.(file := s.file + [NewLine(c, s.key, nonce, r)], prevHash := RecordHash(r))
      else s
    case Restart => s.(prevHash := TailHash(c, s.key, s.file))
    case SetKey(k) => if s.key.None? then s.(key := Some(k)) else s
  }

  function Run(H: Hasher, c: Cipher, ops: seq<Op>): Log {
    if ops == [] then Log([], GENESIS, None)
    else Do(H, c, Run(H, c, ops[..|ops| - 1]), ops[|ops| - 1])
  }

  class LocalAuditLogger {
    const H: Hasher
    const cipher: Cipher
    var file: seq<Line>
    var prevHash: string

    /** Opens an existing log, or an empty one, and continues its chain. */
    constructor (H: Hasher, cipher: Cipher, file: seq<Line>, key: Option<string>)
      ensures this.H == H && this.cipher == cipher && this.file == file
      ensures prevHash == TailHash(cipher, key, file)
    {
      this.H, this.cipher, this.file := H, cipher, file;
      this.prevHash := GENESIS;
      new;
      LoadTailHash(key);
    }

    method LoadTailHash(key: Option<string>)
      requires prevHash == GENESIS
      modifies this`prevHash
      ensures prevHash == TailHash(cipher, key, file)
    {
      var lastLine := Blank;
      for i := 0 to |file|
        invariant lastLine == LastLine(file[..i])
      {
        assert file[..i + 1][..i] == file[..i];
        if !file[i].Blank? {
          lastLine := file[i];
        }
      }
      assert file[..|file|] == file;
      if !lastLine.Blank? {
        match DecryptRecord(cipher, key, lastLine) {
          case Ok(record) => prevHash := if "record_hash" in record then RecordHash(record) else GENESIS;
          case _ => prevHash := GENESIS;
        }
      }
    }

    /** Appends `event`; nothing changes when the disk write fails. */
    method WriteEvent(event: Json, key: Option<string>, nonce: string, diskOk: bool) returns (hash: Option<string>)
      modifies this
      ensures Log(file, prevHash, key) == Do(H, cipher, old(Log(file, prevHash, key)), Write(event, nonce, diskOk))
      ensures hash == if diskOk then Some(prevHash) else None
      ensures Invertible(cipher) && old(ChainKept(H, cipher, Log(file, prevHash, key)))
              ==> ChainKept(H, cipher, Log(file, prevHash, key))
    {
      ghost var was := Log(file, prevHash, key);
      var record: Record := map["prev_hash" := Str(prevHash), "event" := event];
      var recordHash := H(record);
      record := record["record_hash" := Str(recordHash)];
      var line := if key.Some? then EncryptRecord(cipher, key.value, nonce, record) else Parsed(record);
      if !diskOk {
        return None;
      }
      file := file + [line];
      prevHash := recordHash;
      if Invertible(cipher) && ChainKept(H, cipher, was) { WriteKept(H, cipher, was, event, nonce); }
      return Some(recordHash);
    }

    /**
      What the agent has anchored.  As long as the chain is kept, it is the hash of the last record
      in the file, and the genesis value for an empty file.
     */
    method ChainHead(ghost key: Option<string>) returns (head: string)
      ensures head == prevHash
      ensures ChainKept(H, cipher, Log(file, prevHash, key)) ==>
                && |Records(cipher, key, file)| == |file|
                && head == Before(Records(cipher, key, file), |file|)
    {
      head := prevHash;
      if ChainKept(H, cipher, Log(file, prevHash, key)) { RecordsOfReadable(cipher, key, file); }
    }
  }

  // ----- Every run keeps the chain -----

  ghost predicate ChainKept(H: Hasher, c: Cipher, s: Log) {
    var rs := Records(c, s.key, s.file);
    && Readable(c, s.key, s.file)
    && Linked(H, rs)
    && (forall r :: r in rs ==> "record_hash" in r)
    && s.prevHash == Before(rs, |rs|)
  }

  lemma OneMoreLine(c: Cipher, key: Option<string>, file: seq<Line>, line: Line, r: Record)
    requires Readable(c, key, file) && DecryptRecord(c, key, line) == Ok(r)
    ensures Readable(c, key, file + [line]) && Records(c, key, file + [line]) == Records(c, key, file) + [r]
  {
    assert (file + [line])[..|file|] == file;
  }

  lemma OneMoreRecord(H: Hasher, rs: seq<Record>, prev: string, event: Json)
    requires Linked(H, rs) && prev == Before(rs, |rs|)
    ensures var r := NewRecord(H, prev, event);
            Linked(H, rs + [r]) && RecordHash(r) == Before(rs + [r], |rs| + 1) && "record_hash" in r
  {
    var r := NewRecord(H, prev, event);
    assert Payload(r) == map["prev_hash" := Str(prev), "event" := event];
    LinkedAppend(H, rs, r);
  }

  lemma WriteKept(H: Hasher, c: Cipher, s: Log, event: Json, nonce: string)
    requires Invertible(c) && ChainKept(H, c, s)
    ensures ChainKept(H, c, Do(H, c, s, Write(event, nonce, true)))
  {
    var r := NewRecord(H, s.prevHash, event);
    if s.key.Some? {
      RoundTrip(c, s.key.value, nonce, r, None);
    }
    OneMoreLine(c, s.key, s.file, NewLine(c, s.key, nonce, r), r);
    OneMoreRecord(H, Records(c, s.key, s.file), s.prevHash, event);
  }

  lemma LastLineReadable(c: Cipher, key: Option<string>, file: seq<Line>)
    requires Readable(c, key, file)
    ensures file != [] ==> LastLine(file) == file[|file| - 1]
  {
    if file == [] {
    } else {
      assert DecryptRecord(c, key, file[|file| - 1]).Ok?;
    }
  }

  lemma SetKeyKept(c: Cipher, k: string, file: seq<Line>)
    requires Readable(c, None, file)
    ensures Readable(c, Some(k), file) && Records(c, Some(k), file) == Records(c, None, file)
  {
    forall i | 0 <= i < |file|
      ensures DecryptRecord(c, Some(k), file[i]) == DecryptRecord(c, None, file[i])
    {
      assert DecryptRecord(c, None, file[i]).Ok?;
    }
    RecordsOfReadable(c, None, file);
    RecordsOfReadable(c, Some(k), file);
  }

  lemma {:induction false} ChainAlwaysKept(H: Hasher, c: Cipher, ops: seq<Op>)
    requires Invertible(c)
    ensures ChainKept(H, c, Run(H, c, ops))
  {
    if ops == [] {
    } else {
      ChainAlwaysKept(H, c, ops[..|ops| - 1]);
      var s := Run(H, c, ops[..|ops| - 1]);
      match ops[|ops| - 1]
      case Write(event, nonce, ok) => if ok { WriteKept(H, c, s, event, nonce); }
      case Restart =>
        LastLineReadable(c, s.key, s.file);
        RecordsOfReadable(c, s.key, s.file);
      case SetKey(k) => if s.key.None? { SetKeyKept(c, k, s.file); }
    }
  }

  /**
    Over every run of successful and failed writes, restarts and one switch to encryption, the
    file, read under the current key, is accepted by the verifier and its last record hash is the
    logger's chain head.
   */
  lemma EveryRunIsAccepted(H: Hasher, c: Cipher, ops: seq<Op>)
    requires Invertible(c)
    requires Trusted(H, Records(c, Run(H, c, ops).key, Run(H, c, ops).file))
    ensures var s := Run(H, c, ops);
            var rs := Records(c, s.key, s.file);
            && |rs| == |s.file|
            && Accepted(H, rs)
            && s.prevHash == if rs == [] then GENESIS else RecordHash(rs[|rs| - 1])
  {
    ChainAlwaysKept(H, c, ops);
    var s := Run(H, c, ops);
    RecordsOfReadable(c, s.key, s.file);
    AcceptedIffLinked(H, Records(c, s.key, s.file));
  }

  /**
    A logger that starts under another key, or without one, continues the chain exactly when it
    can read the last line.  Authenticity of the cipher: another key reads the record or nothing.
   */
  lemma OtherKey(H: Hasher, c: Cipher, s: Log, key: Option<string>, event: Json)
    requires ChainKept(H, c, s) && s.file != []
    requires Trusted(H, Records(c, s.key, s.file) + [NewRecord(H, TailHash(c, key, s.file), event)])
    requires DecryptRecord(c, key, LastLine(s.file)).Ok?
             ==> DecryptRecord(c, key, LastLine(s.file)) == DecryptRecord(c, s.key, LastLine(s.file))
    ensures Accepted(H, Records(c, s.key, s.file) + [NewRecord(H, TailHash(c, key, s.file), event)])
            <==> DecryptRecord(c, key, LastLine(s.file)).Ok?
  {
    var rs, tail := Records(c, s.key, s.file), TailHash(c, key, s.file);
    LastLineReadable(c, s.key, s.file);
    RecordsOfReadable(c, s.key, s.file);
    AcceptedIffLinked(H, rs + [NewRecord(H, tail, event)]);
    LinkedHash(H, rs, |rs|);
    assert rs[|rs| - 1] in rs;
    ContinuesIffTail(H, rs, tail, event);
  }

  /** A new record on `prev` continues a linked list exactly when `prev` is the hash it ends in. */
  lemma ContinuesIffTail(H: Hasher, rs: seq<Record>, prev: string, event: Json)
    requires Linked(H, rs)
    ensures Linked(H, rs + [NewRecord(H, prev, event)]) <==> prev == Before(rs, |rs|)
  {
    var r := NewRecord(H, prev, event);
    var all := rs + [r];
    assert Payload(r) == map["prev_hash" := Str(prev), "event" := event];
    assert Before(all, |rs|) == Before(rs, |rs|);
    if prev == Before(rs, |rs|) {
      LinkedAppend(H, rs, r);
    } else {
      assert !LinkedAt(H, all, |rs|);
    }
  }

  // ----- What the log says -----

  /** The events that were written successfully, in order. */
  function Written(ops: seq<Op>): seq<Json> {
    if ops == [] then []
    else
      var op := ops[|ops| - 1];
      Written(ops[..|ops| - 1]) + if op.Write? && op.ok then [op.event] else []
  }

  /** For each of them, whether a key had been set by then. */
  function Keyed(ops: seq<Op>): seq<bool> {
    if ops == [] then []
    else
      var op := ops[|ops| - 1];
      Keyed(ops[..|ops| - 1])
      + if op.Write? && op.ok then [exists i :: 0 <= i < |ops| && ops[i].SetKey?] else []
  }

  /** The record says exactly this event, with its place in the chain. */
  ghost predicate Says(r: Record, event: Json) {
    && r.Keys == {"prev_hash", "event", "record_hash"}
    && r["event"] == event && r["prev_hash"].Str? && r["record_hash"].Str?
  }

  ghost predicate Spelled(c: Cipher, s: Log, ops: seq<Op>) {
    var rs := Records(c, s.key, s.file);
    && |rs| == |s.file| == |Written(ops)| == |Keyed(ops)|
    && (forall i :: 0 <= i < |rs| ==> Says(rs[i], Written(ops)[i]))
    && (forall i :: 0 <= i < |s.file| ==> (DecryptRecord(c, None, s.file[i]).RuntimeError? <==> Keyed(ops)[i]))
    && (s.key.Some? <==> exists i :: 0 <= i < |ops| && ops[i].SetKey?)
  }

  lemma NewRecordSays(H: Hasher, prev: string, event: Json)
    ensures Says(NewRecord(H, prev, event), event) && !IsEnvelope(NewRecord(H, prev, event))
  {
  }

  lemma WriteSpells(H: Hasher, c: Cipher, s: Log, ops: seq<Op>, event: Json, nonce: string)
    requires Invertible(c) && Readable(c, s.key, s.file) && Spelled(c, s, ops)
    ensures Spelled(c, Do(H, c, s, Write(event, nonce, true)), ops + [Write(event, nonce, true)])
  {
    var r := NewRecord(H, s.prevHash, event);
    var line := NewLine(c, s.key, nonce, r);
    NewRecordSays(H, s.prevHash, event);
    RoundTrip(c, if s.key.Some? then s.key.value else "", nonce, r, None);
    OneMoreLine(c, s.key, s.file, line, r);
    WrittenNext(ops, event, nonce);
  }

  lemma WrittenNext(ops: seq<Op>, event: Json, nonce: string)
    ensures var all := ops + [Write(event, nonce, true)];
            var keyed := exists i :: 0 <= i < |ops| && ops[i].SetKey?;
            && Written(all) == Written(ops) + [event] && Keyed(all) == Keyed(ops) + [keyed]
            && ((exists i :: 0 <= i < |all| && all[i].SetKey?) <==> keyed)
  {
    SetKeysIn(ops, Write(event, nonce, true));
    assert (ops + [Write(event, nonce, true)])[..|ops|] == ops;
  }

  lemma SetKeysIn(ops: seq<Op>, op: Op)
    ensures (exists i :: 0 <= i < |ops + [op]| && (ops + [op])[i].SetKey?)
            <==> op.SetKey? || exists i :: 0 <= i < |ops| && ops[i].SetKey?
  {
    var all := ops + [op];
    if op.SetKey? { assert all[|ops|] == op; }
    if i :| 0 <= i < |ops| && ops[i].SetKey? { assert all[i] == ops[i]; }
  }

  lemma OtherSpells(H: Hasher, c: Cipher, s: Log, ops: seq<Op>, op: Op)
    requires ChainKept(H, c, s) && Spelled(c, s, ops) && !(op.Write? && op.ok)
    ensures Spelled(c, Do(H, c, s, op), ops + [op])
  {
    SetKeysIn(ops, op);
    assert (ops + [op])[..|ops|] == ops;
    assert Written(ops + [op]) == Written(ops) && Keyed(ops + [op]) == Keyed(ops);
    if op.SetKey? && s.key.None? { SetKeyKept(c, op.k, s.file); }
  }

  /**
    Over every run the log has exactly one record for each successful write, in order, and says
    exactly what was written; it takes a key to read a line if and only if a key had been set when
    it was written.
   */
  lemma {:induction false} LogSaysWhatWasWritten(H: Hasher, c: Cipher, ops: seq<Op>)
    requires Invertible(c)
    ensures Spelled(c, Run(H, c, ops), ops)
  {
    if ops == [] {
    } else {
      var before, op := ops[..|ops| - 1], ops[|ops| - 1];
      var s := Run(H, c, before);
      LogSaysWhatWasWritten(H, c, before);
      ChainAlwaysKept(H, c, before);
      assert ops == before + [op];
      if op.Write? && op.ok {
        WriteSpells(H, c, s, before, op.event, op.nonce);
      } else {
        OtherSpells(H, c, s, before, op);
      }
    }
  }
}
