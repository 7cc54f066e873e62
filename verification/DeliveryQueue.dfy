/** The agent's durable retry queue (agent/retry_queue.py). */
module DeliveryQueue {
  import opened Data

  /** One row of the `retry_queue` table. */
  datatype Row = Row(id: nat, payload: Json)

  ghost predicate Ascending(rows: seq<Row>) {
    forall i, j :: 0 <= i < j < |rows| ==> rows[i].id < rows[j].id
  }

  function Payloads(rows: seq<Row>): (ps: seq<Json>)
    ensures |ps| == |rows|
    ensures forall i :: 0 <= i < |rows| ==> ps[i] == rows[i].payload
  {
    seq(|rows|, i requires 0 <= i < |rows| => rows[i].payload)
  }

  /** `DELETE FROM retry_queue WHERE id IN ids`. */
  function DeleteIds(rows: seq<Row>, ids: set<nat>): seq<Row> {
    if rows == [] then []
    else (if rows[0].id in ids then [] else [rows[0]]) + DeleteIds(rows[1..], ids)
  }

  /** Deleting by id removes exactly the rows the ids were selected from: the oldest `n`. */
  lemma {:induction false} DeleteOldest(rows: seq<Row>, ids: set<nat>, n: nat)
    requires n <= |rows|
    requires forall i :: 0 <= i < |rows| ==> (rows[i].id in ids <==> i < n)
    ensures DeleteIds(rows, ids) == rows[n..]
  {
    if rows == [] {
    } else {
      DeleteOldest(rows[1..], ids, if n == 0 then 0 else n - 1);
    }
  }

  class PersistentQueue {
    var rows: seq<Row>  // in id order
    var nextId: nat     // AUTOINCREMENT never reuses an id

    ghost predicate Valid()
      reads this
    {
      Ascending(rows) && forall i :: 0 <= i < |rows| ==> rows[i].id < nextId
    }

    ghost function Pending(): seq<Json>
      reads this
    {
      Payloads(rows)
    }

    /** Opens the file: whatever an earlier process left is still pending. */
    constructor (stored: seq<Row>, next: nat)
      requires Ascending(stored) && forall i :: 0 <= i < |stored| ==> stored[i].id < next
      ensures Valid() && Pending() == Payloads(stored)
    {
      rows, nextId := stored, next;
    }

    method Put(event: Json)
      requires Valid()
      modifies this
      ensures Valid() && Pending() == old(Pending()) + [event]
    {
      rows := rows + [Row(nextId, event)];
      nextId := nextId + 1;
    }

    method Peek(limit: nat) returns (batch: seq<Json>)
      requires Valid()
      ensures batch == Take(Pending(), limit)
    {
      batch := Payloads(Take(rows, limit));
    }

    /** Selects the ids of the `count` oldest rows, then deletes by id. */
    method Commit(count: nat)
      requires Valid()
      modifies this
      ensures Valid() && Pending() == Drop(old(Pending()), count)
    {
      var selected := Take(rows, count);
      var ids := set r | r in selected :: r.id;
      DeleteOldest(rows, ids, |selected|);
      rows := DeleteIds(rows, ids);
    }

    method Size() returns (n: nat)
      requires Valid()
      ensures n == |Pending()|
    {
      n := |rows|;
    }
  }
}
