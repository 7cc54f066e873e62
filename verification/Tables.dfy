/** Keyed database tables that are read with `SELECT … WHERE key` and then updated or inserted into. */
module Tables {
  import opened Data

  datatype Row<K, V> = Row(key: K, value: V)

  /** The index of the first row with this key; the number of rows when there is none. */
  function Find<K(==), V>(rows: seq<Row<K, V>>, key: K): (i: nat)
    ensures i <= |rows|
    ensures i < |rows| ==> rows[i].key == key
    ensures forall j :: 0 <= j < i ==> rows[j].key != key
  {
    if rows == [] then 0 else if rows[0].key == key then 0 else 1 + Find(rows[1..], key)
  }

  function Lookup<K(==), V>(rows: seq<Row<K, V>>, key: K): Option<V> {
    var i := Find(rows, key);
    if i < |rows| then Some(rows[i].value) else None
  }

  /** Update the row with this key, or insert one. */
  function Put<K(==), V>(rows: seq<Row<K, V>>, key: K, value: V): seq<Row<K, V>> {
    var i := Find(rows, key);
    if i < |rows| then rows[i := Row(key, value)] else rows + [Row(key, value)]
  }

  /** At most one row per key; the tables have no constraint that says so. */
  ghost predicate Unique<K, V>(rows: seq<Row<K, V>>) {
    forall i, j :: 0 <= i < j < |rows| ==> rows[i].key != rows[j].key
  }

  lemma PutLookup<K, V>(rows: seq<Row<K, V>>, key: K, value: V, other: K)
    ensures Lookup(Put(rows, key, value), other) == if other == key then Some(value) else Lookup(rows, other)
    ensures Unique(rows) ==> Unique(Put(rows, key, value))
  {
    var after := Put(rows, key, value);
    var i, j := Find(rows, other), Find(after, other);
    if i < |rows| { assert after[i].key == other; }
    if j < |rows| { assert rows[j].key == after[j].key; }
    if i == |rows| && other == key { assert after[i].key == other; }
  }

  function Sum<K>(rows: seq<Row<K, int>>): int {
    if rows == [] then 0 else rows[0].value + Sum(rows[1..])
  }

  lemma {:induction false} PutSum<K>(rows: seq<Row<K, int>>, key: K, value: int)
    ensures Sum(Put(rows, key, value))
            == Sum(rows) + value - match Lookup(rows, key) case Some(v) => v case None => 0
  {
    if rows == [] {
    } else if rows[0].key == key {
      assert Put(rows, key, value)[1..] == rows[1..];
    } else {
      PutSum(rows[1..], key, value);
      assert Put(rows, key, value) == [rows[0]] + Put(rows[1..], key, value);
    }
  }

  // ----- Counters: `m[k] = m.get(k, 0) + 1` -----

  function Count<K(==)>(m: map<K, nat>, k: K): nat {
    if k in m then m[k] else 0
  }

  function Bump<K(==,!new)>(m: map<K, nat>, k: K): (r: map<K, nat>)
    ensures forall q :: Count(r, q) == Count(m, q) + if q == k then 1 else 0
  {
    m[k := Count(m, k) + 1]
  }
}
