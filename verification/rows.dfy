/**
 * A display table as a sequence of keyed rows. Every table of the monitors
 * finds a row by the text in its first column, rewrites the first match in
 * place, or appends one row at the end.
 */
module Rows {
  import opened Wrappers

  datatype Row<V> = Row(key: string, value: V)

  /** The value in the first row whose key is `key`, as the scanning loops find it. */
  function Lookup<V>(rows: seq<Row<V>>, key: string): Option<V> {
    if |rows| == 0 then None
    else if rows[0].key == key then Some(rows[0].value)
    else Lookup(rows[1..], key)
  }

  /** The set of first-column texts. */
  function KeySet<V>(rows: seq<Row<V>>): set<string> {
    set k | 0 <= k < |rows| :: rows[k].key
  }

  /** No two rows show the same first-column text. */
  predicate DistinctKeys<V>(rows: seq<Row<V>>) {
    forall i, j :: 0 <= i < j < |rows| ==> rows[i].key != rows[j].key
  }

  /**
   * Show `value` under `key`: the first row with that key is rewritten and
   * nothing else moves; without such a row, one row is appended.
   */
  function Upserted<V>(rows: seq<Row<V>>, key: string, value: V): (r: seq<Row<V>>)
    ensures (forall k :: 0 <= k < |rows| ==> rows[k].key != key) ==> r == rows + [Row(key, value)]
    ensures forall j :: 0 <= j < |rows| && rows[j].key == key && (forall k :: 0 <= k < j ==> rows[k].key != key) ==>
              r == rows[j := Row(key, value)]
  {
    if |rows| == 0 then [Row(key, value)]
    else if rows[0].key == key then [Row(key, value)] + rows[1..]
    else
      var tail := Upserted(rows[1..], key, value);
      assert forall j :: 1 <= j < |rows| ==> rows[1..][j - 1] == rows[j];
      [rows[0]] + tail
  }

  /**
   * The scanning loop of the table updates: rows are compared in order and
   * the loop stops at the first match.
   */
  method Upsert<V>(rows: seq<Row<V>>, key: string, value: V) returns (r: seq<Row<V>>)
    ensures r == Upserted(rows, key, value)
  {
    var i := 0;
    while i < |rows|
      invariant 0 <= i <= |rows|
      invariant forall k :: 0 <= k < i ==> rows[k].key != key
    {
      if rows[i].key == key {
        return rows[i := Row(key, value)];
      }
      i := i + 1;
    }
    return rows + [Row(key, value)];
  }

  /** After an upsert the table reads like a map updated at `key`. */
  lemma {:induction false} UpsertedLookup<V>(rows: seq<Row<V>>, key: string, value: V)
    ensures Lookup(Upserted(rows, key, value), key) == Some(value)
    ensures forall q :: q != key ==> Lookup(Upserted(rows, key, value), q) == Lookup(rows, q)
  {
    if |rows| > 0 && rows[0].key != key {
      UpsertedLookup(rows[1..], key, value);
      assert Upserted(rows, key, value) == [rows[0]] + Upserted(rows[1..], key, value);
    }
  }

  lemma KeySetCons<V>(rows: seq<Row<V>>)
    requires |rows| > 0
    ensures KeySet(rows) == {rows[0].key} + KeySet(rows[1..])
  {
    forall q | q in KeySet(rows)
      ensures q in {rows[0].key} + KeySet(rows[1..])
    {
      var k :| 0 <= k < |rows| && rows[k].key == q;
      if k > 0 {
        assert rows[1..][k - 1] == rows[k];
      }
    }
    forall q | q in KeySet(rows[1..])
      ensures q in KeySet(rows)
    {
      var k :| 0 <= k < |rows[1..]| && rows[1..][k].key == q;
      assert rows[k + 1].key == q;
    }
  }

  /** An upsert adds a row exactly when the key is new, and keeps keys distinct. */
  lemma {:induction false} UpsertedKeys<V>(rows: seq<Row<V>>, key: string, value: V)
    ensures KeySet(Upserted(rows, key, value)) == KeySet(rows) + {key}
    ensures |Upserted(rows, key, value)| == if key in KeySet(rows) then |rows| else |rows| + 1
    ensures DistinctKeys(rows) ==> DistinctKeys(Upserted(rows, key, value))
  {
    var r := Upserted(rows, key, value);
    if |rows| == 0 {
      assert r == [Row(key, value)];
      assert KeySet(r) == {key} by {
        assert r[0].key == key;
      }
    } else if rows[0].key == key {
      assert r == rows[0 := Row(key, value)];
      assert forall k :: 0 <= k < |rows| ==> r[k].key == rows[k].key;
    } else {
      UpsertedKeys(rows[1..], key, value);
      assert r == [rows[0]] + Upserted(rows[1..], key, value);
      KeySetCons(rows);
      KeySetCons(r);
      assert r[1..] == Upserted(rows[1..], key, value);
      if DistinctKeys(rows) {
        assert DistinctKeys(rows[1..]) by {
          assert forall k :: 0 <= k < |rows| - 1 ==> rows[1..][k] == rows[k + 1];
        }
        ConsStaysDistinct(rows, r, key);
      }
    }
  }

  /** Replacing the tail of a distinct table by one with the same keys plus the new key keeps it distinct. */
  lemma ConsStaysDistinct<V>(rows: seq<Row<V>>, r: seq<Row<V>>, key: string)
    requires |rows| > 0 && |r| > 0 && DistinctKeys(rows) && DistinctKeys(r[1..])
    requires r[0].key == rows[0].key && key != rows[0].key
    requires KeySet(r[1..]) == KeySet(rows[1..]) + {key}
    ensures DistinctKeys(r)
  {
    assert forall k :: 0 <= k < |rows| - 1 ==> rows[1..][k].key != rows[0].key by {
      assert forall k :: 0 <= k < |rows| - 1 ==> rows[1..][k] == rows[k + 1];
    }
    assert rows[0].key !in KeySet(rows[1..]);
    forall k | 1 <= k < |r|
      ensures r[k].key != r[0].key
    {
      assert r[k].key == r[1..][k - 1].key;
      assert r[1..][k - 1].key in KeySet(r[1..]);
    }
    forall i, j | 0 <= i < j < |r|
      ensures r[i].key != r[j].key
    {
      if i > 0 {
        assert r[i] == r[1..][i - 1] && r[j] == r[1..][j - 1];
      }
    }
  }
}
