/**
 * Tables keyed by an auto-increment primary key (`++id`), as an IndexedDB
 * object store holds them: reading all rows in key order, bulk insertion into
 * an empty table, and the key generator's answer to explicit keys.
 */
module Tables {
  import opened Wrappers

  /** Every row is stored under its own primary key. */
  ghost predicate Keyed<T>(t: map<nat, T>, key: T -> nat)
  {
    forall k :: k in t ==> key(t[k]) == k
  }

  /** Every key of the table is below the key generator's next number. */
  ghost predicate Below<T>(t: map<nat, T>, n: nat)
  {
    forall k :: k in t ==> k < n
  }

  /** No two rows share a primary key. */
  ghost predicate DistinctKeys<T>(rows: seq<T>, key: T -> nat)
  {
    forall i, j :: 0 <= i < j < |rows| ==> key(rows[i]) != key(rows[j])
  }

  /** The rows come in strictly ascending key order. */
  ghost predicate Ascending<T>(rows: seq<T>, key: T -> nat)
  {
    forall i, j :: 0 <= i < j < |rows| ==> key(rows[i]) < key(rows[j])
  }

  /** The table holds exactly the given rows, each under its own key. */
  ghost predicate Holds<T>(t: map<nat, T>, rows: seq<T>, key: T -> nat)
  {
    && Keyed(t, key)
    && (forall i :: 0 <= i < |rows| ==> key(rows[i]) in t && t[key(rows[i])] == rows[i])
    && (forall k :: k in t ==> t[k] in rows)
  }

  /**
   * The rows stored under keys below `n`, in ascending key order: what
   * `toArray()` on the whole table, or on an index range, yields.
   */
  function Rows<T>(t: map<nat, T>, ghost key: T -> nat, n: nat): (r: seq<T>)
    requires Keyed(t, key)
    ensures Ascending(r, key)
    ensures forall i :: 0 <= i < |r| ==> key(r[i]) < n && key(r[i]) in t && t[key(r[i])] == r[i]
    ensures forall k :: k in t && k < n ==> t[k] in r
  {
    if n == 0 then []
    else Rows(t, key, n - 1) + (if n - 1 in t then [t[n - 1]] else [])
  }

  /** Reading a whole keyed table gives back exactly what it holds. */
  lemma RowsHold<T>(t: map<nat, T>, key: T -> nat, n: nat)
    requires Keyed(t, key) && Below(t, n)
    ensures Holds(t, Rows(t, key, n), key) && DistinctKeys(Rows(t, key, n), key)
  {
  }

  /**
   * `bulkAdd` of `rows` into an empty table, one `add` after another: it fails
   * (and the transaction around it aborts) as soon as a key is taken.
   */
  function Load<T(==)>(rows: seq<T>, key: T -> nat): (r: Option<map<nat, T>>)
    ensures r.Some? <==> DistinctKeys(rows, key)
    ensures r.Some? ==> Holds(r.value, rows, key)
    decreases |rows|
  {
    if rows == [] then Some(map[])
    else
      var prefix := rows[..|rows| - 1];
      var x := rows[|rows| - 1];
      match Load(prefix, key)
      case None =>
        assert !DistinctKeys(prefix, key);
        None
      case Some(t) =>
        if key(x) in t then
          assert !DistinctKeys(rows, key) by {
            var i :| 0 <= i < |prefix| && prefix[i] == t[key(x)];
            assert key(rows[i]) == key(rows[|rows| - 1]);
          }
          None
        else
          var t' := t[key(x) := x];
          assert Holds(t', rows, key) by {
            forall i | 0 <= i < |rows| ensures key(rows[i]) in t' && t'[key(rows[i])] == rows[i] {
              if i < |prefix| {
                assert rows[i] == prefix[i];
                assert key(prefix[i]) in t;
              }
            }
            forall k | k in t' ensures t'[k] in rows {
              if k != key(x) {
                assert t[k] in prefix;
              }
            }
          }
          Some(t')
  }

  /**
   * The key generator's next number after `rows` are stored with explicit
   * keys: each key at or above it moves it to one past that key.
   */
  function NextAfter<T>(n: nat, rows: seq<T>, key: T -> nat): (m: nat)
    ensures n <= m
    ensures forall i :: 0 <= i < |rows| ==> key(rows[i]) < m
    ensures m == n || exists i :: 0 <= i < |rows| && m == key(rows[i]) + 1
    decreases |rows|
  {
    if rows == [] then n
    else
      var p := NextAfter(n, rows[..|rows| - 1], key);
      var k := key(rows[|rows| - 1]);
      if p <= k then k + 1 else p
  }

  /** After loading rows with explicit keys, the key generator is past every one of them. */
  lemma LoadedBelow<T>(t: map<nat, T>, rows: seq<T>, key: T -> nat, n: nat)
    requires Holds(t, rows, key)
    ensures Below(t, NextAfter(n, rows, key))
  {
  }

  /** A table is determined by the rows it holds. */
  lemma HoldsUnique<T>(t1: map<nat, T>, t2: map<nat, T>, rows: seq<T>, key: T -> nat)
    requires Holds(t1, rows, key) && Holds(t2, rows, key)
    ensures t1 == t2
  {
  }
}
