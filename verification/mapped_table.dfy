/**
 * The raw table of can_monitor_gui3.py and can_monitor_gui.py: besides the
 * rows it keeps an identifier-to-row map, the identifiers in arrival order
 * and the smallest identifier seen. A new smallest identifier goes to row 0
 * and pushes every mapped row down by one; any other new identifier is
 * appended; a known identifier rewrites the DLC and data of its mapped row.
 */
module MappedTable {
  import opened Wrappers
  import opened Bytes
  import opened Hex
  import opened Rows
  import opened ScanTables

  datatype Table = Table(rows: seq<Row<Cells>>, rowOf: map<nat, int>, received: seq<nat>, minId: Option<nat>)

  /** The state created lazily on the first frame. */
  const Empty := Table([], map[], [], None)

  /** Every identifier in the map is first seen before a newer one; each appears once. */
  predicate DistinctSeq(s: seq<nat>) {
    forall i, j :: 0 <= i < j < |s| ==> s[i] != s[j]
  }

  /**
   * The map is a bijection from the identifiers seen onto the rows
   * [0, rowCount), each mapped row shows its identifier, and row 0 holds
   * the smallest one.
   */
  ghost predicate Consistent(t: Table) {
    RowsMapped(t.rows, t.rowOf) && ArrivalsMapped(t.rowOf, t.received) && MinimumOnTop(t.rowOf, t.minId)
  }

  /** The map sends the identifiers onto [0, rowCount), each to a row showing it. */
  ghost predicate RowsMapped(rows: seq<Row<Cells>>, rowOf: map<nat, int>) {
    && |rows| == |rowOf|
    && (forall id :: id in rowOf ==> 0 <= rowOf[id] < |rows| && rows[rowOf[id]].key == HexText(id))
    && (forall r :: 0 <= r < |rows| ==> RowHeld(rowOf, r))
  }

  /** Some identifier maps to row `r`. */
  ghost predicate RowHeld(rowOf: map<nat, int>, r: int) {
    exists id :: id in rowOf && rowOf[id] == r
  }

  /** The arrival list names each mapped identifier once. */
  ghost predicate ArrivalsMapped(rowOf: map<nat, int>, received: seq<nat>) {
    && DistinctSeq(received)
    && (forall id :: id in rowOf <==> id in received)
  }

  /** The recorded minimum is the least mapped identifier and sits on row 0. */
  ghost predicate MinimumOnTop(rowOf: map<nat, int>, minId: Option<nat>) {
    && (minId.None? <==> |rowOf| == 0)
    && (minId.Some? ==> minId.value in rowOf && rowOf[minId.value] == 0)
    && (forall id :: id in rowOf ==> minId.Some? && minId.value <= id)
  }

  /** Two identifiers never share a row, since each row shows its own identifier. */
  lemma ConsistentIsInjective(t: Table, a: nat, b: nat)
    requires Consistent(t)
    requires a in t.rowOf && b in t.rowOf && a != b
    ensures t.rowOf[a] != t.rowOf[b]
  {
    HexTextInjective(a, b);
  }

  function Shifted(m: map<nat, int>): (r: map<nat, int>)
    ensures r.Keys == m.Keys
    ensures forall id :: id in m ==> r[id] == m[id] + 1
  {
    map id | id in m :: m[id] + 1
  }

  /** `update_raw_table` of can_monitor_gui3.py. */
  function Update(t: Table, m: Received): (u: Table)
    ensures m.id in u.rowOf
    ensures m.id in t.rowOf ==> u.rowOf == t.rowOf && u.received == t.received && |u.rows| == |t.rows|
    ensures m.id in t.rowOf ==> forall r :: 0 <= r < |t.rows| && r != t.rowOf[m.id] ==> u.rows[r] == t.rows[r]
    ensures m.id !in t.rowOf ==> u.received == t.received + [m.id] && u.rowOf.Keys == t.rowOf.Keys + {m.id}
    ensures m.id !in t.rowOf && (t.minId.None? || m.id <= t.minId.value) ==>
              u.minId == Some(m.id) && u.rowOf[m.id] == 0 && u.rows == [Row(HexText(m.id), Cells(m.dlc, m.data))] + t.rows
              && forall id :: id in t.rowOf ==> u.rowOf[id] == t.rowOf[id] + 1
    ensures m.id !in t.rowOf && t.minId.Some? && t.minId.value < m.id ==>
              u.minId == t.minId && u.rowOf[m.id] == |t.rows| && u.rows == t.rows + [Row(HexText(m.id), Cells(m.dlc, m.data))]
              && forall id :: id in t.rowOf ==> u.rowOf[id] == t.rowOf[id]
  {
    var cells := Cells(m.dlc, m.data);
    if m.id !in t.rowOf then
      var least := if t.minId.None? || m.id < t.minId.value then m.id else t.minId.value;
      var atTop := m.id == least;
      var position := if atTop then 0 else |t.rows|;
      var moved := if atTop then Shifted(t.rowOf) else t.rowOf;
      Table(t.rows[..position] + [Row(HexText(m.id), cells)] + t.rows[position..],
            moved[m.id := position], t.received + [m.id], Some(least))
    else
      var row := t.rowOf[m.id];
      if 0 <= row < |t.rows| then t.(rows := t.rows[row := Row(t.rows[row].key, cells)])
      else t
  }

  /** Every update keeps the map a bijection onto the rows with the smallest identifier on row 0. */
  lemma UpdateKeepsConsistent(t: Table, m: Received)
    requires Consistent(t)
    ensures Consistent(Update(t, m))
  {
    if m.id in t.rowOf {
      KnownKeepsConsistent(t, m);
    } else if t.minId.None? || m.id < t.minId.value {
      NewMinimumKeepsConsistent(t, m);
    } else {
      AppendKeepsConsistent(t, m);
    }
  }

  lemma KnownKeepsConsistent(t: Table, m: Received)
    requires Consistent(t) && m.id in t.rowOf
    ensures Consistent(Update(t, m))
  {
    var k := t.rowOf[m.id];
    assert Update(t, m) == t.(rows := t.rows[k := Row(t.rows[k].key, Cells(m.dlc, m.data))]);
    RewrittenInPlace(t.rows, t.rowOf, k, Cells(m.dlc, m.data));
  }

  lemma NewMinimumKeepsConsistent(t: Table, m: Received)
    requires Consistent(t) && m.id !in t.rowOf
    requires t.minId.None? || m.id < t.minId.value
    ensures Consistent(Update(t, m))
  {
    var shown := Row(HexText(m.id), Cells(m.dlc, m.data));
    var next := Shifted(t.rowOf)[m.id := 0];
    assert Update(t, m) == Table([shown] + t.rows, next, t.received + [m.id], Some(m.id));
    PushedOnTop(t.rows, t.rowOf, m.id, shown);
    ArrivalAdded(t.rowOf, t.received, next, m.id);
    NewMinimumOnTop(t.rowOf, t.minId, m.id);
  }

  lemma ArrivalAdded(rowOf: map<nat, int>, received: seq<nat>, next: map<nat, int>, id: nat)
    requires ArrivalsMapped(rowOf, received) && id !in rowOf
    requires next.Keys == rowOf.Keys + {id}
    ensures ArrivalsMapped(next, received + [id])
  {
    assert id !in received;
  }

  lemma NewMinimumOnTop(rowOf: map<nat, int>, minId: Option<nat>, id: nat)
    requires MinimumOnTop(rowOf, minId) && id !in rowOf
    requires minId.None? || id < minId.value
    ensures MinimumOnTop(Shifted(rowOf)[id := 0], Some(id))
  {
  }

  lemma AppendKeepsConsistent(t: Table, m: Received)
    requires Consistent(t) && m.id !in t.rowOf
    requires t.minId.Some? && t.minId.value < m.id
    ensures Consistent(Update(t, m))
  {
    var shown := Row(HexText(m.id), Cells(m.dlc, m.data));
    var next := t.rowOf[m.id := |t.rows|];
    assert Update(t, m) == Table(t.rows + [shown], next, t.received + [m.id], t.minId);
    AppendedAtEnd(t.rows, t.rowOf, m.id, shown);
    ArrivalAdded(t.rowOf, t.received, next, m.id);
    assert MinimumOnTop(next, t.minId);
  }

  /** Rewriting the cells of a mapped row keeps rows and map in step. */
  lemma RewrittenInPlace(rows: seq<Row<Cells>>, rowOf: map<nat, int>, k: int, cells: Cells)
    requires RowsMapped(rows, rowOf) && 0 <= k < |rows|
    ensures RowsMapped(rows[k := Row(rows[k].key, cells)], rowOf)
  {
    var next := rows[k := Row(rows[k].key, cells)];
    assert forall r :: 0 <= r < |rows| ==> next[r].key == rows[r].key;
  }

  /** Putting a row for a new identifier on top and shifting the map keeps rows and map in step. */
  lemma PushedOnTop(rows: seq<Row<Cells>>, rowOf: map<nat, int>, id: nat, shown: Row<Cells>)
    requires RowsMapped(rows, rowOf) && id !in rowOf && shown.key == HexText(id)
    ensures RowsMapped([shown] + rows, Shifted(rowOf)[id := 0])
  {
    var next := Shifted(rowOf)[id := 0];
    var grown := [shown] + rows;
    assert next.Keys == rowOf.Keys + {id};
    OneMoreKey(rowOf, next, id);
    assert |grown| == |next|;
    PushedKeys(rows, rowOf, id, shown);
    PushedHeld(rows, rowOf, id);
    assert RowsMapped(grown, next) by {
      assert forall c :: c in next ==> 0 <= next[c] < |grown| && grown[next[c]].key == HexText(c);
      assert forall r :: 0 <= r < |grown| ==> RowHeld(next, r);
    }
  }

  lemma PushedKeys(rows: seq<Row<Cells>>, rowOf: map<nat, int>, id: nat, shown: Row<Cells>)
    requires forall c :: c in rowOf ==> 0 <= rowOf[c] < |rows| && rows[rowOf[c]].key == HexText(c)
    requires id !in rowOf && shown.key == HexText(id)
    ensures var next := Shifted(rowOf)[id := 0];
            forall c :: c in next ==> 0 <= next[c] < |[shown] + rows| && ([shown] + rows)[next[c]].key == HexText(c)
  {
    var next := Shifted(rowOf)[id := 0];
    forall c | c in next
      ensures 0 <= next[c] < |[shown] + rows| && ([shown] + rows)[next[c]].key == HexText(c)
    {
      if c != id {
        assert next[c] == rowOf[c] + 1;
        assert ([shown] + rows)[rowOf[c] + 1] == rows[rowOf[c]];
      }
    }
  }

  lemma PushedHeld(rows: seq<Row<Cells>>, rowOf: map<nat, int>, id: nat)
    requires forall r :: 0 <= r < |rows| ==> RowHeld(rowOf, r)
    requires id !in rowOf
    ensures var next := Shifted(rowOf)[id := 0];
            forall r :: 0 <= r < |rows| + 1 ==> RowHeld(next, r)
  {
    var next := Shifted(rowOf)[id := 0];
    forall r | 0 <= r < |rows| + 1
      ensures RowHeld(next, r)
    {
      if r == 0 {
        assert id in next && next[id] == 0;
      } else {
        assert RowHeld(rowOf, r - 1);
        var c :| c in rowOf && rowOf[c] == r - 1;
        assert next[c] == r;
      }
    }
  }

  /** Appending a row for a new identifier and mapping it to the old row count keeps rows and map in step. */
  lemma AppendedAtEnd(rows: seq<Row<Cells>>, rowOf: map<nat, int>, id: nat, shown: Row<Cells>)
    requires RowsMapped(rows, rowOf) && id !in rowOf && shown.key == HexText(id)
    ensures RowsMapped(rows + [shown], rowOf[id := |rows|])
  {
    var next := rowOf[id := |rows|];
    OneMoreKey(rowOf, next, id);
    AppendedKeys(rows, rowOf, id, shown);
    AppendedHeld(rows, rowOf, id);
  }

  /** A map with exactly one more key has one more entry. */
  lemma OneMoreKey(rowOf: map<nat, int>, next: map<nat, int>, id: nat)
    requires id !in rowOf && next.Keys == rowOf.Keys + {id}
    ensures |next| == |rowOf| + 1
  {
    assert |next.Keys| == |rowOf.Keys| + 1;
  }

  lemma AppendedKeys(rows: seq<Row<Cells>>, rowOf: map<nat, int>, id: nat, shown: Row<Cells>)
    requires forall c :: c in rowOf ==> 0 <= rowOf[c] < |rows| && rows[rowOf[c]].key == HexText(c)
    requires id !in rowOf && shown.key == HexText(id)
    ensures var next := rowOf[id := |rows|];
            forall c :: c in next ==> 0 <= next[c] < |rows + [shown]| && (rows + [shown])[next[c]].key == HexText(c)
  {
    var next := rowOf[id := |rows|];
    forall c | c in next
      ensures 0 <= next[c] < |rows + [shown]| && (rows + [shown])[next[c]].key == HexText(c)
    {
      if c != id {
        assert (rows + [shown])[rowOf[c]] == rows[rowOf[c]];
      }
    }
  }

  lemma AppendedHeld(rows: seq<Row<Cells>>, rowOf: map<nat, int>, id: nat)
    requires forall r :: 0 <= r < |rows| ==> RowHeld(rowOf, r)
    requires id !in rowOf
    ensures var next := rowOf[id := |rows|];
            forall r :: 0 <= r < |rows| + 1 ==> RowHeld(next, r)
  {
    var next := rowOf[id := |rows|];
    forall r | 0 <= r < |rows| + 1
      ensures RowHeld(next, r)
    {
      if r == |rows| {
        assert id in next && next[id] == r;
      } else {
        assert RowHeld(rowOf, r);
        var c :| c in rowOf && rowOf[c] == r;
        assert next[c] == r;
      }
    }
  }

  /** After an update, the identifier's mapped row shows that frame. */
  lemma UpdateShowsFrame(t: Table, m: Received)
    requires Consistent(t)
    ensures 0 <= Update(t, m).rowOf[m.id] < |Update(t, m).rows|
    ensures Update(t, m).rows[Update(t, m).rowOf[m.id]] == Row(HexText(m.id), Cells(m.dlc, m.data))
  {
  }

  /** `clear_tables` of can_monitor_gui3.py and can_monitor_gui.py: the rows go, the map and minimum stay. */
  function Clear(t: Table): (u: Table)
    ensures u.rows == [] && u.rowOf == t.rowOf && u.received == t.received && u.minId == t.minId
  {
    t.(rows := [])
  }

  /** A clear breaks the bijection whenever some identifier had been seen. */
  lemma ClearBreaksConsistency(t: Table)
    requires Consistent(t) && |t.rowOf| > 0
    ensures !Consistent(Clear(t))
  {
  }

  /**
   * The next frame after a clear, when its identifier was seen before, is
   * not shown: its mapped row no longer exists and the rewrite is dropped.
   */
  lemma ClearHidesKnownIdentifier(t: Table, m: Received)
    requires Consistent(t) && m.id in t.rowOf
    ensures Update(Clear(t), m) == Clear(t)
  {
  }

  /**
   * After a clear, a new smallest identifier lands on the only row while
   * every identifier seen before maps to a row that no longer exists.
   */
  lemma ClearThenNewMinimum(t: Table, m: Received)
    requires Consistent(t) && |t.rowOf| > 0 && m.id < t.minId.value
    ensures var u := Update(Clear(t), m);
            && u.rows == [Row(HexText(m.id), Cells(m.dlc, m.data))]
            && (forall id :: id in t.rowOf ==> u.rowOf[id] >= |u.rows|)
            && !Consistent(u)
  {
    var c := Clear(t);
    var u := Update(c, m);
    assert m.id !in c.rowOf && c.minId.Some? && m.id <= c.minId.value;
    assert u.rows == [Row(HexText(m.id), Cells(m.dlc, m.data))] + c.rows;
    OneMoreKey(c.rowOf, u.rowOf, m.id);
    assert |u.rows| != |u.rowOf|;
  }

  /**
   * Once a new identifier has been appended after a clear, a known
   * identifier whose stale row is 0 rewrites that row: its bytes are shown
   * under the other identifier's label.
   */
  lemma ClearMisattributes(t: Table, c: Received, m: Received)
    requires Consistent(t) && m.id in t.rowOf && t.rowOf[m.id] == 0
    requires c.id !in t.rowOf && t.minId.Some? && t.minId.value < c.id
    ensures Update(Update(Clear(t), c), m).rows == [Row(HexText(c.id), Cells(m.dlc, m.data))]
  {
    var u := Update(Clear(t), c);
    assert u.rows == [Row(HexText(c.id), Cells(c.dlc, c.data))] && u.rowOf[m.id] == 0;
  }

  /**
   * The clear the table evidently intends: the identifier map, the arrival
   * list and the minimum go together with the rows.
   */
  function Reset(t: Table): (u: Table)
    ensures u.rows == [] && Consistent(u)
    ensures forall id: nat :: id !in u.rowOf
  {
    Empty
  }

  /**
   * After the intended clear, the next frame is shown on the only row,
   * whether or not its identifier was seen before.
   */
  lemma ResetShowsEveryFrame(t: Table, m: Received)
    ensures Update(Reset(t), m).rows == [Row(HexText(m.id), Cells(m.dlc, m.data))]
  {
    var e := Reset(t);
    assert m.id !in e.rowOf && e.minId.None? && e.rows == [];
  }

  /** After the intended clear, the bookkeeping stays consistent through the next update. */
  lemma ResetKeepsConsistent(t: Table, m: Received)
    ensures Consistent(Update(Reset(t), m))
  {
    UpdateKeepsConsistent(Reset(t), m);
  }

  /** The table after a sequence of frames, oldest first. */
  function UpdateAll(t: Table, ms: seq<Received>): (u: Table)
    ensures forall k :: 0 <= k < |ms| ==> ms[k].id in u.rowOf
  {
    if |ms| == 0 then t
    else
      var before := UpdateAll(t, ms[..|ms| - 1]);
      assert forall k :: 0 <= k < |ms| - 1 ==> ms[k] == ms[..|ms| - 1][k];
      Update(before, ms[|ms| - 1])
  }

  /** Any run of updates keeps the bookkeeping consistent. */
  lemma {:induction false} UpdateAllKeepsConsistent(t: Table, ms: seq<Received>)
    requires Consistent(t)
    ensures Consistent(UpdateAll(t, ms))
  {
    if |ms| > 0 {
      UpdateAllKeepsConsistent(t, ms[..|ms| - 1]);
      UpdateKeepsConsistent(UpdateAll(t, ms[..|ms| - 1]), ms[|ms| - 1]);
    }
  }

  /**
   * After the intended clear, however many frames follow, every identifier
   * seen since maps to a row that shows it, so no frame's bytes appear under
   * another identifier's label; the latest frame is shown on its own row.
   */
  lemma ResetLabelsEveryRow(t: Table, ms: seq<Received>)
    requires |ms| > 0
    ensures var u := UpdateAll(Reset(t), ms);
            forall k :: 0 <= k < |ms| ==> 0 <= u.rowOf[ms[k].id] < |u.rows| && u.rows[u.rowOf[ms[k].id]].key == HexText(ms[k].id)
    ensures var u := UpdateAll(Reset(t), ms);
            var m := ms[|ms| - 1];
            0 <= u.rowOf[m.id] < |u.rows| && u.rows[u.rowOf[m.id]] == Row(HexText(m.id), Cells(m.dlc, m.data))
  {
    var before := UpdateAll(Reset(t), ms[..|ms| - 1]);
    UpdateAllKeepsConsistent(Reset(t), ms[..|ms| - 1]);
    UpdateKeepsConsistent(before, ms[|ms| - 1]);
    UpdateShowsFrame(before, ms[|ms| - 1]);
  }
}
