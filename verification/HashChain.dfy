/**
  What `verify_chain` (tools/verify_chain.py) establishes about a list of chain records.

  The digest of a record's canonical JSON text is an arbitrary function.  Each theorem names the
  records whose digests must be free of collisions (`Trusted`), so nothing is assumed that a
  concrete hash function could not meet.
 */
module HashChain {
  import opened Data

  type Record = map<string, Json>
  type Hasher = Record -> string

  const GENESIS: string := Zeros(64)

  function Zeros(n: nat): string {
    if n == 0 then "" else "0" + Zeros(n - 1)
  }

  /** The part of a record that is hashed. */
  function Payload(r: Record): Record {
    r - {"record_hash"}
  }

  function PrevHash(r: Record): string {
    Text(r, "prev_hash")
  }

  function RecordHash(r: Record): string {
    Text(r, "record_hash")
  }

  function ComputeHash(H: Hasher, r: Record): string {
    H(Payload(r))
  }

  datatype ChainError =
    | PrevMismatch(idx: nat)  // possible gap or deletion
    | HashMismatch(idx: nat)  // record was tampered with

  // ----- The verifier's loop -----

  /** `prev_hash` as the loop holds it on reaching record `k`: a record without a hash keeps the old one. */
  function Carried(rs: seq<Record>, k: nat): string
    requires k <= |rs|
  {
    if k == 0 then GENESIS
    else if RecordHash(rs[k - 1]) != "" then RecordHash(rs[k - 1])
    else Carried(rs, k - 1)
  }

  /** The errors found at record `k`. */
  function ErrorsAt(H: Hasher, rs: seq<Record>, k: nat): seq<ChainError>
    requires k < |rs|
  {
    (if PrevHash(rs[k]) != Carried(rs, k) then [PrevMismatch(k)] else [])
    + (if ComputeHash(H, rs[k]) != RecordHash(rs[k]) then [HashMismatch(k)] else [])
  }

  /** What the loop finds, record by record. */
  function Found(H: Hasher, rs: seq<Record>): (parts: seq<seq<ChainError>>)
    ensures |parts| == |rs|
    ensures forall k :: 0 <= k < |rs| ==> parts[k] == ErrorsAt(H, rs, k)
  {
    seq(|rs|, k requires 0 <= k < |rs| => ErrorsAt(H, rs, k))
  }

  function Flatten<T>(parts: seq<seq<T>>): seq<T> {
    if parts == [] then [] else Flatten(parts[..|parts| - 1]) + parts[|parts| - 1]
  }

  lemma FlattenNext<T>(parts: seq<seq<T>>, n: nat)
    requires n < |parts|
    ensures Flatten(parts[..n + 1]) == Flatten(parts[..n]) + parts[n]
  {
    assert parts[..n + 1][..n] == parts[..n];
  }

  function Errors(H: Hasher, rs: seq<Record>): seq<ChainError> {
    Flatten(Found(H, rs))
  }

  method VerifyChain(H: Hasher, records: seq<Record>) returns (errors: seq<ChainError>)
    ensures errors == Errors(H, records)
  {
    errors := [];
    var prevHash := GENESIS;
    ghost var found := Found(H, records);
    for idx := 0 to |records|
      invariant prevHash == Carried(records, idx)
      invariant errors == Flatten(found[..idx])
    {
      var record := records[idx];
      var storedPrev := PrevHash(record);
      var storedHash := RecordHash(record);
      var here := [];
      if storedPrev != prevHash {
        here := here + [PrevMismatch(idx)];
      }
      if ComputeHash(H, record) != storedHash {
        here := here + [HashMismatch(idx)];
      }
      errors := errors + here;
      assert here == found[idx];
      FlattenNext(found, idx);
      prevHash := if storedHash != "" then storedHash else prevHash;
    }
    assert found[..|records|] == found;
  }

  predicate Accepted(H: Hasher, rs: seq<Record>) {
    Errors(H, rs) == []
  }

  lemma {:induction false} FlattenEmpty<T>(parts: seq<seq<T>>)
    ensures Flatten(parts) == [] <==> forall k :: 0 <= k < |parts| ==> parts[k] == []
  {
    if parts == [] {
    } else {
      var n := |parts| - 1;
      FlattenEmpty(parts[..n]);
      assert parts == parts[..n] + [parts[n]];
    }
  }

  /** When all parts but `i` and the next one are empty, the whole is those two. */
  lemma {:induction false} FlattenAround<T>(parts: seq<seq<T>>, i: nat)
    requires i < |parts|
    requires forall k :: 0 <= k < |parts| && k != i && k != i + 1 ==> parts[k] == []
    ensures Flatten(parts) == parts[i] + if i + 1 < |parts| then parts[i + 1] else []
  {
    var n := |parts| - 1;
    if i == n {
      FlattenEmpty(parts[..n]);
    } else {
      FlattenAround(parts[..n], i);
    }
  }

  // ----- What is reported -----

  lemma GenesisIsZeros()
    ensures |GENESIS| == 64 && forall i :: 0 <= i < 64 ==> GENESIS[i] == '0'
  {
    ZerosText(64);
  }

  lemma {:induction false} ZerosText(n: nat)
    ensures |Zeros(n)| == n && forall i :: 0 <= i < n ==> Zeros(n)[i] == '0'
  {
    if n == 0 {
    } else {
      ZerosText(n - 1);
    }
  }

  lemma {:induction false} FlattenMember<T>(parts: seq<seq<T>>, x: T)
    ensures x in Flatten(parts) <==> exists k :: 0 <= k < |parts| && x in parts[k]
  {
    if parts == [] {
    } else {
      var n := |parts| - 1;
      FlattenMember(parts[..n], x);
      assert forall k :: 0 <= k < n ==> parts[..n][k] == parts[k];
    }
  }

  /** Record `j` has the last hash before record `k` that is not empty. */
  ghost predicate LastAt(rs: seq<Record>, k: nat, j: int)
    requires k <= |rs|
  {
    0 <= j < k && Text(rs[j], "record_hash") != "" && forall m :: j < m < k ==> Text(rs[m], "record_hash") == ""
  }

  /** `hash` is that hash, or the genesis value when there is none. */
  ghost predicate LastBefore(rs: seq<Record>, k: nat, hash: string)
    requires k <= |rs|
  {
    || (hash == GENESIS && forall m :: 0 <= m < k ==> Text(rs[m], "record_hash") == "")
    || (exists j :: LastAt(rs, k, j) && hash == Text(rs[j], "record_hash"))
  }

  lemma LastStays(rs: seq<Record>, k: nat, hash: string)
    requires k < |rs| && Text(rs[k], "record_hash") == "" && LastBefore(rs, k, hash)
    ensures LastBefore(rs, k + 1, hash)
  {
    if j :| LastAt(rs, k, j) && hash == Text(rs[j], "record_hash") {
      assert LastAt(rs, k + 1, j);
    }
  }

  lemma LastIsHere(rs: seq<Record>, k: nat)
    requires k < |rs| && Text(rs[k], "record_hash") != ""
    ensures LastBefore(rs, k + 1, Text(rs[k], "record_hash"))
  {
    assert LastAt(rs, k + 1, k);
  }

  lemma {:induction false} CarriedIsLast(rs: seq<Record>, k: nat)
    requires k <= |rs|
    ensures LastBefore(rs, k, Carried(rs, k))
  {
    if k == 0 {
    } else if RecordHash(rs[k - 1]) != "" {
      LastIsHere(rs, k - 1);
    } else {
      CarriedIsLast(rs, k - 1);
      LastStays(rs, k - 1, Carried(rs, k - 1));
    }
  }

  lemma LastIsUnique(rs: seq<Record>, k: nat, hash: string, other: string)
    requires k <= |rs| && LastBefore(rs, k, hash) && LastBefore(rs, k, other)
    ensures hash == other
  {
    if i :| LastAt(rs, k, i) && hash == Text(rs[i], "record_hash") {
      var j :| LastAt(rs, k, j) && other == Text(rs[j], "record_hash");
      assert i == j;
    }
  }

  /**
    Of any list of records, trusted or not, record `k` is reported as tampered with if and only if
    the digest of what it says besides its hash is not that hash, and as following a gap if and
    only if its previous hash is not the last one before it; one report never hides the other.
   */
  lemma ReportedIffWrong(H: Hasher, rs: seq<Record>, k: nat, last: string)
    requires k < |rs| && LastBefore(rs, k, last)
    ensures HashMismatch(k) in Errors(H, rs) <==> H(rs[k] - {"record_hash"}) != Text(rs[k], "record_hash")
    ensures PrevMismatch(k) in Errors(H, rs) <==> Text(rs[k], "prev_hash") != last
  {
    var found := Found(H, rs);
    CarriedIsLast(rs, k);
    LastIsUnique(rs, k, last, Carried(rs, k));
    FlattenMember(found, HashMismatch(k));
    FlattenMember(found, PrevMismatch(k));
    assert found[k] == ErrorsAt(H, rs, k);
  }

  /** Reports in the order of the records, the gap before the tampering. */
  function Rank(e: ChainError): nat {
    match e
    case PrevMismatch(idx) => 2 * idx
    case HashMismatch(idx) => 2 * idx + 1
  }

  ghost predicate InOrder(errors: seq<ChainError>, n: nat) {
    && (forall i, j :: 0 <= i < j < |errors| ==> Rank(errors[i]) < Rank(errors[j]))
    && (forall e :: e in errors ==> e.idx < n)
  }

  lemma OnePartFurther(H: Hasher, rs: seq<Record>, n: nat, errors: seq<ChainError>)
    requires n < |rs| && InOrder(errors, n)
    ensures InOrder(errors + ErrorsAt(H, rs, n), n + 1)
  {
    var part := ErrorsAt(H, rs, n);
    assert part == [] || part == [PrevMismatch(n)] || part == [HashMismatch(n)] || part == [PrevMismatch(n), HashMismatch(n)];
    forall e | e in errors ensures Rank(e) < 2 * n {}
    assert forall i :: 0 <= i < |errors| ==> errors[i] in errors;
  }

  lemma {:induction false} PartsInOrder(H: Hasher, rs: seq<Record>, found: seq<seq<ChainError>>, n: nat)
    requires n <= |rs| == |found| && forall k :: 0 <= k < |rs| ==> found[k] == ErrorsAt(H, rs, k)
    ensures InOrder(Flatten(found[..n]), n)
  {
    if n == 0 {
    } else {
      PartsInOrder(H, rs, found, n - 1);
      FlattenNext(found, n - 1);
      OnePartFurther(H, rs, n - 1, Flatten(found[..n - 1]));
    }
  }

  /** Every report is made once, and they come in the order of the records. */
  lemma ReportedInOrder(H: Hasher, rs: seq<Record>)
    ensures InOrder(Errors(H, rs), |rs|)
  {
    PartsInOrder(H, rs, Found(H, rs), |rs|);
    assert Found(H, rs)[..|rs|] == Found(H, rs);
  }

  // ----- What acceptance means -----

  /** Each record carries its own digest and the hash of its predecessor, back to the genesis value. */
  ghost predicate Linked(H: Hasher, rs: seq<Record>) {
    forall i :: 0 <= i < |rs| ==> LinkedAt(H, rs, i)
  }

  ghost predicate LinkedAt(H: Hasher, rs: seq<Record>, i: nat)
    requires i < |rs|
  {
    RecordHash(rs[i]) == ComputeHash(H, rs[i]) && PrevHash(rs[i]) == Before(rs, i)
  }

  function Before(rs: seq<Record>, i: nat): string
    requires i <= |rs|
  {
    if i == 0 then GENESIS else RecordHash(rs[i - 1])
  }

  /** Among these records digests do not collide, and none is empty or the genesis value. */
  ghost predicate Trusted(H: Hasher, rs: seq<Record>) {
    forall r, q :: r in rs && q in rs ==> NoClash(H, r, q)
  }

  ghost predicate NoClash(H: Hasher, r: Record, q: Record) {
    && ComputeHash(H, r) != GENESIS
    && ComputeHash(H, r) != ""
    && (ComputeHash(H, r) == ComputeHash(H, q) ==> Payload(r) == Payload(q))
  }

  /** The verifier accepts exactly the linked lists. */
  lemma AcceptedIffLinked(H: Hasher, rs: seq<Record>)
    requires Trusted(H, rs)
    ensures Accepted(H, rs) <==> Linked(H, rs)
  {
    var found := Found(H, rs);
    FlattenEmpty(found);
    if Accepted(H, rs) {
      forall i | 0 <= i < |rs| ensures LinkedAt(H, rs, i) {
        assert found[i] == [];
        if i > 0 {
          assert found[i - 1] == [] && NoClash(H, rs[i - 1], rs[i - 1]);
        }
      }
    }
    if Linked(H, rs) {
      forall i | 0 <= i < |rs| ensures found[i] == [] {
        assert LinkedAt(H, rs, i);
        LinkedHash(H, rs, i);
      }
    }
  }

  lemma LinkedHash(H: Hasher, rs: seq<Record>, i: nat)
    requires Linked(H, rs) && Trusted(H, rs) && i <= |rs|
    ensures i > 0 ==> Before(rs, i) == ComputeHash(H, rs[i - 1]) && Before(rs, i) != GENESIS
    ensures i > 0 ==> Before(rs, i) != "" && Carried(rs, i) == Before(rs, i)
  {
    if i > 0 {
      assert LinkedAt(H, rs, i - 1) && NoClash(H, rs[i - 1], rs[i - 1]);
    }
  }

  /** Records of linked lists with the same hash have the same content and the same hash before them. */
  lemma SameHash(H: Hasher, a: seq<Record>, i: nat, b: seq<Record>, j: nat)
    requires i < |a| && j < |b| && LinkedAt(H, a, i) && LinkedAt(H, b, j) && NoClash(H, a[i], b[j])
    requires RecordHash(a[i]) == RecordHash(b[j])
    ensures Payload(a[i]) == Payload(b[j]) && Before(a, i) == Before(b, j)
  {
    SamePrev(a[i], b[j]);
  }

  /** Within a linked list no record hash occurs twice, nor does the genesis value. */
  lemma {:induction false} HashesDistinct(H: Hasher, rs: seq<Record>, i: nat, j: nat)
    requires Linked(H, rs) && Trusted(H, rs)
    requires i < j <= |rs|
    ensures Before(rs, i) != Before(rs, j)
  {
    LinkedHash(H, rs, j);
    if i == 0 {
    } else if Before(rs, i) == Before(rs, j) {
      assert NoClash(H, rs[i - 1], rs[j - 1]) && LinkedAt(H, rs, i - 1) && LinkedAt(H, rs, j - 1);
      SameHash(H, rs, i - 1, rs, j - 1);
      HashesDistinct(H, rs, i - 1, j - 1);
    }
  }

  lemma SamePrev(a: Record, b: Record)
    requires Payload(a) == Payload(b)
    ensures PrevHash(a) == PrevHash(b)
  {
    assert PrevHash(a) == PrevHash(Payload(a)) && PrevHash(b) == PrevHash(Payload(b));
  }

  lemma SameRecord(a: Record, b: Record)
    requires Payload(a) == Payload(b) && RecordHash(a) == RecordHash(b) != ""
    ensures a == b
  {
    assert a == Payload(a)["record_hash" := a["record_hash"]];
    assert b == Payload(b)["record_hash" := b["record_hash"]];
  }

  lemma LinkedPrefix(H: Hasher, rs: seq<Record>, n: nat)
    requires Linked(H, rs) && n <= |rs|
    ensures Linked(H, rs[..n])
  {
    forall i | 0 <= i < n ensures LinkedAt(H, rs[..n], i) {
      assert LinkedAt(H, rs, i);
    }
  }

  lemma LinkedAppend(H: Hasher, rs: seq<Record>, r: Record)
    requires Linked(H, rs)
    requires RecordHash(r) == ComputeHash(H, r) && PrevHash(r) == Before(rs, |rs|)
    ensures Linked(H, rs + [r])
  {
    forall i | 0 <= i < |rs + [r]| ensures LinkedAt(H, rs + [r], i) {
      if i < |rs| { assert LinkedAt(H, rs, i); }
    }
  }

  /** Tamper evidence: linked lists that end in the same hash are the same list. */
  lemma {:induction false} SameEnd(H: Hasher, a: seq<Record>, b: seq<Record>)
    requires Linked(H, a) && Linked(H, b) && Trusted(H, a) && Trusted(H, b)
    requires forall r, q :: r in a && q in b ==> NoClash(H, r, q)
    requires Before(a, |a|) == Before(b, |b|)
    ensures a == b
  {
    LinkedHash(H, a, |a|);
    LinkedHash(H, b, |b|);
    if a == [] || b == [] {
    } else {
      var m, n := |a| - 1, |b| - 1;
      assert NoClash(H, a[m], b[n]) && LinkedAt(H, a, m) && LinkedAt(H, b, n);
      SameLast(H, a, m, b, n);
      LinkedPrefix(H, a, m);
      LinkedPrefix(H, b, n);
      SameEnd(H, a[..m], b[..n]);
      assert a == a[..m] + [a[m]] && b == b[..n] + [b[n]];
    }
  }

  lemma SameLast(H: Hasher, a: seq<Record>, m: nat, b: seq<Record>, n: nat)
    requires m < |a| && n < |b| && LinkedAt(H, a, m) && LinkedAt(H, b, n) && NoClash(H, a[m], b[n])
    requires RecordHash(a[m]) == RecordHash(b[n]) != ""
    ensures a[m] == b[n] && Before(a[..m], m) == Before(b[..n], n)
  {
    SameHash(H, a, m, b, n);
    SameRecord(a[m], b[n]);
  }

  /**
    Two record lists the verifier accepts, not empty, that end in the same record hash are
    identical, field by field.
   */
  lemma TamperEvidence(H: Hasher, a: seq<Record>, b: seq<Record>)
    requires Trusted(H, a + b) && Accepted(H, a) && Accepted(H, b)
    requires a != [] && b != [] && RecordHash(a[|a| - 1]) == RecordHash(b[|b| - 1])
    ensures a == b
  {
    AcceptedIffLinked(H, a);
    AcceptedIffLinked(H, b);
    SameEnd(H, a, b);
  }

  /**
    A log whose chain head was anchored, and a later log that is accepted and still contains that
    head: up to the head, which it contains once, the later log is the log that was anchored.
   */
  lemma AnchoredPrefix(H: Hasher, anchored: seq<Record>, log: seq<Record>, i: nat)
    requires Trusted(H, anchored + log) && Accepted(H, anchored) && Accepted(H, log)
    requires anchored != [] && i < |log| && RecordHash(log[i]) == RecordHash(anchored[|anchored| - 1])
    ensures anchored == log[..i + 1]
    ensures forall j :: 0 <= j < |log| && RecordHash(log[j]) == RecordHash(log[i]) ==> j == i
  {
    AcceptedIffLinked(H, anchored);
    AcceptedIffLinked(H, log);
    LinkedPrefix(H, log, i + 1);
    SameEnd(H, anchored, log[..i + 1]);
    forall j | 0 <= j < |log| && RecordHash(log[j]) == RecordHash(log[i]) ensures j == i {
      if j < i { HashesDistinct(H, log, j + 1, i + 1); }
      if i < j { HashesDistinct(H, log, i + 1, j + 1); }
    }
  }

  // ----- Records drawn from a chain -----

  /** The records of the chain at these positions, in this order. */
  function Pick<T>(chain: seq<T>, at: seq<nat>): (drawn: seq<T>)
    requires forall i :: 0 <= i < |at| ==> at[i] < |chain|
    ensures |drawn| == |at|
    ensures forall i :: 0 <= i < |at| ==> drawn[i] == chain[at[i]]
  {
    seq(|at|, i requires 0 <= i < |at| => chain[at[i]])
  }

  /** The position that follows the one drawn before `at[i]`. */
  function Expected(at: seq<nat>, i: nat): nat
    requires i <= |at|
  {
    if i == 0 then 0 else at[i - 1] + 1
  }

  /** One gap wherever a record does not follow the one drawn before it. */
  function Gaps(at: seq<nat>): (parts: seq<seq<ChainError>>)
    ensures |parts| == |at|
    ensures forall i :: 0 <= i < |at| ==> parts[i] == if at[i] == Expected(at, i) then [] else [PrevMismatch(i)]
  {
    seq(|at|, i requires 0 <= i < |at| => if at[i] == Expected(at, i) then [] else [PrevMismatch(i)])
  }

  lemma CarriedIsBefore(H: Hasher, chain: seq<Record>, at: seq<nat>, i: nat)
    requires Linked(H, chain) && Trusted(H, chain) && i < |at|
    requires forall k :: 0 <= k < |at| ==> at[k] < |chain|
    ensures Carried(Pick(chain, at), i) == Before(chain, Expected(at, i))
  {
    LinkedHash(H, chain, Expected(at, i));
  }

  lemma BeforeInjective(H: Hasher, rs: seq<Record>, i: nat, j: nat)
    requires Linked(H, rs) && Trusted(H, rs) && i <= |rs| && j <= |rs|
    ensures Before(rs, i) == Before(rs, j) <==> i == j
  {
    if i < j {
      HashesDistinct(H, rs, i, j);
    } else if j < i {
      HashesDistinct(H, rs, j, i);
    }
  }

  lemma DrawnErrorsAt(H: Hasher, chain: seq<Record>, at: seq<nat>, i: nat)
    requires Linked(H, chain) && Trusted(H, chain) && i < |at|
    requires forall k :: 0 <= k < |at| ==> at[k] < |chain|
    ensures ErrorsAt(H, Pick(chain, at), i) == Gaps(at)[i]
  {
    assert LinkedAt(H, chain, at[i]);
    CarriedIsBefore(H, chain, at, i);
    BeforeInjective(H, chain, at[i], Expected(at, i));
  }

  /**
    Of records drawn from a linked list, with any omission, reordering or repetition, the verifier
    reports exactly one gap at each that does not follow, in the list, the one drawn before it.
   */
  lemma DrawnErrors(H: Hasher, chain: seq<Record>, at: seq<nat>)
    requires Linked(H, chain) && Trusted(H, chain)
    requires forall k :: 0 <= k < |at| ==> at[k] < |chain|
    ensures Errors(H, Pick(chain, at)) == Flatten(Gaps(at))
  {
    var found := Found(H, Pick(chain, at));
    forall i | 0 <= i < |at| ensures found[i] == Gaps(at)[i] {
      DrawnErrorsAt(H, chain, at, i);
    }
    assert found == Gaps(at);
  }

  lemma {:induction false} Positions(chain: seq<Record>, drawn: seq<Record>) returns (at: seq<nat>)
    requires forall r :: r in drawn ==> r in chain
    ensures forall i :: 0 <= i < |at| ==> at[i] < |chain|
    ensures Pick(chain, at) == drawn
  {
    if drawn == [] {
      at := [];
    } else {
      var n := |drawn| - 1;
      var before := Positions(chain, drawn[..n]);
      assert drawn[n] in chain;
      var j :| 0 <= j < |chain| && chain[j] == drawn[n];
      at := before + [j];
      assert drawn == drawn[..n] + [drawn[n]];
    }
  }

  lemma {:induction false} NoGaps(at: seq<nat>, n: nat)
    requires n <= |at| && forall i :: 0 <= i < |at| ==> at[i] == Expected(at, i)
    ensures forall i :: 0 <= i < n ==> at[i] == i
  {
    if n == 0 {
    } else {
      NoGaps(at, n - 1);
    }
  }

  /**
    Records drawn from an accepted chain, with any omission, reordering or repetition, are accepted
    if and only if they are a prefix of it.
   */
  lemma DrawnAcceptedIffPrefix(H: Hasher, chain: seq<Record>, drawn: seq<Record>)
    requires Trusted(H, chain) && Accepted(H, chain)
    requires forall r :: r in drawn ==> r in chain
    ensures Accepted(H, drawn) <==> drawn <= chain
  {
    AcceptedIffLinked(H, chain);
    if drawn <= chain {
      PrefixAccepted(H, chain, |drawn|);
      assert chain[..|drawn|] == drawn;
    }
    if Accepted(H, drawn) { AcceptedIsPrefix(H, chain, drawn); }
  }

  lemma DenseIsPrefix(chain: seq<Record>, at: seq<nat>)
    requires forall i :: 0 <= i < |at| ==> at[i] < |chain|
    requires Flatten(Gaps(at)) == []
    ensures Pick(chain, at) <= chain
  {
    FlattenEmpty(Gaps(at));
    forall i | 0 <= i < |at| ensures at[i] == Expected(at, i) { assert Gaps(at)[i] == []; }
    NoGaps(at, |at|);
    if at != [] { assert at[|at| - 1] == |at| - 1; }
  }

  lemma AcceptedIsPrefix(H: Hasher, chain: seq<Record>, drawn: seq<Record>)
    requires Trusted(H, chain) && Linked(H, chain) && Accepted(H, drawn)
    requires forall r :: r in drawn ==> r in chain
    ensures drawn <= chain
  {
    var at := Positions(chain, drawn);
    DrawnErrors(H, chain, at);
    DenseIsPrefix(chain, at);
  }

  lemma PrefixAccepted(H: Hasher, chain: seq<Record>, n: nat)
    requires Trusted(H, chain) && Linked(H, chain) && n <= |chain|
    ensures Accepted(H, chain[..n])
  {
    LinkedPrefix(H, chain, n);
    AcceptedIffLinked(H, chain[..n]);
  }

  // ----- Where the verifier puts the blame -----

  /**
    A record of a linked list that now stands at `i` of `ts` is clean when the hash before it is
    still the one that was before it.
   */
  lemma Unharmed(H: Hasher, rs: seq<Record>, j: nat, ts: seq<Record>, i: nat)
    requires Linked(H, rs) && Trusted(H, rs) && j < |rs| && i < |ts| && ts[i] == rs[j]
    requires i == 0 <==> j == 0
    requires i > 0 ==> RecordHash(ts[i - 1]) == RecordHash(rs[j - 1])
    ensures ErrorsAt(H, ts, i) == []
  {
    assert LinkedAt(H, rs, j);
    LinkedHash(H, rs, j);
  }

  /**
    Changing what one record says is reported at that record and nowhere else: as tampering, and as
    a gap too if its previous hash was changed.
   */
  lemma ChangedRecord(H: Hasher, rs: seq<Record>, i: nat, r: Record)
    requires Trusted(H, rs + [r]) && Accepted(H, rs) && i < |rs|
    requires RecordHash(r) == RecordHash(rs[i]) && Payload(r) != Payload(rs[i])
    ensures Errors(H, rs[i := r])
            == (if PrevHash(r) != PrevHash(rs[i]) then [PrevMismatch(i)] else []) + [HashMismatch(i)]
  {
    AcceptedIffLinked(H, rs);
    var found := Found(H, rs[i := r]);
    forall k | 0 <= k < |rs| && k != i ensures found[k] == [] { ChangedElsewhere(H, rs, i, r, k); }
    FlattenAround(found, i);
    ChangedHere(H, rs, i, r);
  }

  lemma ChangedElsewhere(H: Hasher, rs: seq<Record>, i: nat, r: Record, k: nat)
    requires Trusted(H, rs + [r]) && Linked(H, rs) && i < |rs| && k < |rs| && k != i
    requires RecordHash(r) == RecordHash(rs[i])
    ensures ErrorsAt(H, rs[i := r], k) == []
  {
    assert Trusted(H, rs) by { assert forall q :: q in rs ==> q in rs + [r]; }
    Unharmed(H, rs, k, rs[i := r], k);
  }

  lemma ChangedHere(H: Hasher, rs: seq<Record>, i: nat, r: Record)
    requires Trusted(H, rs + [r]) && Linked(H, rs) && i < |rs|
    requires RecordHash(r) == RecordHash(rs[i]) && Payload(r) != Payload(rs[i])
    ensures ErrorsAt(H, rs[i := r], i)
            == (if PrevHash(r) != PrevHash(rs[i]) then [PrevMismatch(i)] else []) + [HashMismatch(i)]
  {
    assert NoClash(H, r, rs[i]) && LinkedAt(H, rs, i);
    LinkedHash(H, rs, i);
    if i > 0 { assert RecordHash(rs[i := r][i - 1]) == RecordHash(rs[i - 1]); }
  }

  /** The positions `0..n` but for `i`. */
  function AllBut(n: nat, i: nat): (at: seq<nat>)
    requires i < n
    ensures |at| == n - 1 && forall k :: 0 <= k < |at| ==> at[k] == if k < i then k else k + 1
  {
    seq(n - 1, (k: nat) => if k < i then k else k + 1)
  }

  lemma PickAllBut<T>(s: seq<T>, i: nat)
    requires i < |s|
    ensures Pick(s, AllBut(|s|, i)) == s[..i] + s[i + 1..]
  {
  }

  lemma GapOfRemoved(n: nat, i: nat)
    requires i < n
    ensures Flatten(Gaps(AllBut(n, i))) == if i < n - 1 then [PrevMismatch(i)] else []
  {
    var at := AllBut(n, i);
    var gaps := Gaps(at);
    forall k | 0 <= k < |at| && k != i ensures gaps[k] == [] {
      assert at[k] == Expected(at, k);
    }
    if i < n - 1 {
      assert at[i] != Expected(at, i);
      FlattenAround(gaps, i);
    } else {
      FlattenEmpty(gaps);
    }
  }

  /** Removing one record gives one error, at its successor; removing the last one gives none. */
  lemma RemovedRecord(H: Hasher, rs: seq<Record>, i: nat)
    requires Trusted(H, rs) && Accepted(H, rs) && i < |rs|
    ensures Errors(H, rs[..i] + rs[i + 1..]) == if i < |rs| - 1 then [PrevMismatch(i)] else []
  {
    AcceptedIffLinked(H, rs);
    DrawnErrors(H, rs, AllBut(|rs|, i));
    GapOfRemoved(|rs|, i);
    PickAllBut(rs, i);
  }

  /**
    Replacing one record's hash, by the empty string too, gives an error there and one at the
    successor, if there is one.
   */
  lemma ReplacedHash(H: Hasher, rs: seq<Record>, i: nat, r: Record)
    requires Trusted(H, rs) && Accepted(H, rs) && i < |rs|
    requires Payload(r) == Payload(rs[i]) && RecordHash(r) != RecordHash(rs[i])
    ensures Errors(H, rs[i := r])
            == [HashMismatch(i)] + if i < |rs| - 1 then [PrevMismatch(i + 1)] else []
  {
    AcceptedIffLinked(H, rs);
    var found := Found(H, rs[i := r]);
    forall k | 0 <= k < |rs| && k != i && k != i + 1 ensures found[k] == [] { ReplacedElsewhere(H, rs, i, r, k); }
    FlattenAround(found, i);
    ReplacedHere(H, rs, i, r);
    if i < |rs| - 1 { ReplacedBefore(H, rs, i, r); }
  }

  lemma ReplacedElsewhere(H: Hasher, rs: seq<Record>, i: nat, r: Record, k: nat)
    requires Trusted(H, rs) && Linked(H, rs) && i < |rs| && k < |rs| && k != i && k != i + 1
    ensures ErrorsAt(H, rs[i := r], k) == []
  {
    Unharmed(H, rs, k, rs[i := r], k);
  }

  lemma ReplacedHere(H: Hasher, rs: seq<Record>, i: nat, r: Record)
    requires Trusted(H, rs) && Linked(H, rs) && i < |rs|
    requires Payload(r) == Payload(rs[i]) && RecordHash(r) != RecordHash(rs[i])
    ensures Carried(rs[i := r], i) == Before(rs, i)
    ensures ErrorsAt(H, rs[i := r], i) == [HashMismatch(i)]
  {
    SamePrev(r, rs[i]);
    LinkedHash(H, rs, i);
    assert i > 0 ==> rs[i := r][i - 1] == rs[i - 1];
    assert LinkedAt(H, rs, i);
  }

  lemma ReplacedBefore(H: Hasher, rs: seq<Record>, i: nat, r: Record)
    requires Trusted(H, rs) && Linked(H, rs) && i + 1 < |rs|
    requires Payload(r) == Payload(rs[i]) && RecordHash(r) != RecordHash(rs[i])
    ensures ErrorsAt(H, rs[i := r], i + 1) == [PrevMismatch(i + 1)]
  {
    ReplacedHere(H, rs, i, r);
    HashesDistinct(H, rs, i, i + 1);
    assert LinkedAt(H, rs, i + 1);
    assert rs[i := r][i + 1] == rs[i + 1];
  }

  /** The positions `m..n`. */
  function AllFrom(m: nat, n: nat): (at: seq<nat>)
    requires m <= n
    ensures |at| == n - m && forall k :: 0 <= k < |at| ==> at[k] == m + k
  {
    seq(n - m, (k: nat) => m + k)
  }

  lemma PickAllFrom<T>(s: seq<T>, m: nat)
    requires m <= |s|
    ensures Pick(s, AllFrom(m, |s|)) == s[m..]
  {
  }

  lemma GapOfBeginning(m: nat, n: nat)
    requires m <= n
    ensures Flatten(Gaps(AllFrom(m, n))) == if m == 0 || m == n then [] else [PrevMismatch(0)]
  {
    if m == 0 || m == n {
      FlattenEmpty(Gaps(AllFrom(m, n)));
    } else {
      FlattenAround(Gaps(AllFrom(m, n)), 0);
    }
  }

  /** Removing a proper, non-empty beginning gives one error, at the first record that is left. */
  lemma RemovedBeginning(H: Hasher, rs: seq<Record>, m: nat)
    requires Trusted(H, rs) && Linked(H, rs) && m <= |rs|
    ensures Errors(H, rs[m..]) == if m == 0 || m == |rs| then [] else [PrevMismatch(0)]
  {
    DrawnErrors(H, rs, AllFrom(m, |rs|));
    GapOfBeginning(m, |rs|);
    PickAllFrom(rs, m);
  }
}
