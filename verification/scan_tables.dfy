/**
 * The raw and decoded tables of PatrolCar.py, PatrolCar_rev1.py and b.py:
 * each update scans the rows for the key text and rewrites or appends.
 */
module ScanTables {
  import opened Wrappers
  import opened Bytes
  import opened Hex
  import opened Decoder
  import opened Rows

  /** A received frame as the tables see it. */
  datatype Received = Received(id: nat, dlc: nat, data: seq<byte>)

  /** The DLC and data cells of a raw row; `data.hex()` shows the bytes losslessly. */
  datatype Cells = Cells(dlc: nat, data: seq<byte>)

  /**
   * `update_raw_table`: the row keyed by `hex(id)` shows the frame's DLC and
   * data; every other identifier reads as before.
   */
  function ShowRaw(rows: seq<Row<Cells>>, m: Received): (r: seq<Row<Cells>>)
    ensures Lookup(r, HexText(m.id)) == Some(Cells(m.dlc, m.data))
    ensures forall id: nat :: id != m.id ==> Lookup(r, HexText(id)) == Lookup(rows, HexText(id))
    ensures |r| == if HexText(m.id) in KeySet(rows) then |rows| else |rows| + 1
    ensures DistinctKeys(rows) ==> DistinctKeys(r)
  {
    UpsertedLookup(rows, HexText(m.id), Cells(m.dlc, m.data));
    UpsertedKeys(rows, HexText(m.id), Cells(m.dlc, m.data));
    HexTextsDiffer(m.id);
    Upserted(rows, HexText(m.id), Cells(m.dlc, m.data))
  }

  lemma HexTextsDiffer(a: nat)
    ensures forall b: nat :: b != a ==> HexText(b) != HexText(a)
  {
    forall b: nat | b != a
      ensures HexText(b) != HexText(a)
    {
      HexTextInjective(a, b);
    }
  }

  /** The decoded signals shown one by one, in dictionary order. */
  function ShowSignals(rows: seq<Row<Value>>, sigs: seq<Signal>): seq<Row<Value>>
    decreases |sigs|
  {
    if |sigs| == 0 then rows
    else ShowSignals(Upserted(rows, sigs[0].name, sigs[0].value), sigs[1..])
  }

  predicate DistinctNames(sigs: seq<Signal>) {
    forall i, j :: 0 <= i < j < |sigs| ==> sigs[i].name != sigs[j].name
  }

  /**
   * `update_parsed_table`: decode the frame and show every signal. A short
   * payload raises inside the decoder before any row is touched.
   */
  function ShowParsed(rows: seq<Row<Value>>, m: Received): seq<Row<Value>> {
    match Parse(m.id, m.data)
    case Ok(sigs) => ShowSignals(rows, sigs)
    case Err(_) => rows
  }

  lemma {:induction false} FindAbsent(sigs: seq<Signal>, name: string)
    requires forall k :: 0 <= k < |sigs| ==> sigs[k].name != name
    ensures Find(sigs, name) == None
  {
    if |sigs| > 0 {
      FindAbsent(sigs[1..], name);
    }
  }

  /** With distinct names, a shown name reads as its signal; other rows read as before. */
  lemma {:induction false} ShowSignalsLookup(rows: seq<Row<Value>>, sigs: seq<Signal>, name: string)
    requires DistinctNames(sigs)
    ensures Lookup(ShowSignals(rows, sigs), name) == if Find(sigs, name).Some? then Find(sigs, name) else Lookup(rows, name)
    decreases |sigs|
  {
    if |sigs| > 0 {
      var next := Upserted(rows, sigs[0].name, sigs[0].value);
      assert DistinctNames(sigs[1..]) by {
        assert forall k :: 0 <= k < |sigs| - 1 ==> sigs[1..][k] == sigs[k + 1];
      }
      ShowSignalsLookup(next, sigs[1..], name);
      UpsertedLookup(rows, sigs[0].name, sigs[0].value);
      if name == sigs[0].name {
        FindAbsent(sigs[1..], name);
      }
    }
  }

  lemma {:induction false} ShowSignalsKeys(rows: seq<Row<Value>>, sigs: seq<Signal>)
    requires DistinctKeys(rows)
    ensures DistinctKeys(ShowSignals(rows, sigs))
    decreases |sigs|
  {
    if |sigs| > 0 {
      UpsertedKeys(rows, sigs[0].name, sigs[0].value);
      ShowSignalsKeys(Upserted(rows, sigs[0].name, sigs[0].value), sigs[1..]);
    }
  }

  /**
   * After a frame is shown, the decoded table reads every signal of that
   * frame exactly as decoded, keeps every other row, and still has one row
   * per name.
   */
  lemma ShowParsedReads(rows: seq<Row<Value>>, m: Received, name: string)
    ensures Lookup(ShowParsed(rows, m), name) ==
              if Reading(m.id, m.data, name).Some? then Reading(m.id, m.data, name) else Lookup(rows, name)
    ensures DistinctKeys(rows) ==> DistinctKeys(ShowParsed(rows, m))
  {
    match Parse(m.id, m.data)
    case Ok(sigs) =>
      NamesDistinct(m.id);
      assert Names(sigs) == SignalNames(m.id);
      assert DistinctNames(sigs) by {
        forall i, j | 0 <= i < j < |sigs|
          ensures sigs[i].name != sigs[j].name
        {
          assert Names(sigs)[i] == sigs[i].name && Names(sigs)[j] == sigs[j].name;
        }
      }
      ShowSignalsLookup(rows, sigs, name);
      if DistinctKeys(rows) {
        ShowSignalsKeys(rows, sigs);
      }
    case Err(_) =>
  }

  /** `clear_tables` in these scripts: both tables lose every row. */
  function Cleared<V>(rows: seq<Row<V>>): (r: seq<Row<V>>)
    ensures KeySet(r) == {}
  {
    []
  }

  /** Because these tables search the rows themselves, a frame received after a clear is shown again. */
  lemma ShownAfterClear(rows: seq<Row<Cells>>, m: Received)
    ensures ShowRaw(Cleared(rows), m) == [Row(HexText(m.id), Cells(m.dlc, m.data))]
  {
  }

  /** `CANParser.parse` of can_monitor_gui.py: a stub that decodes nothing. */
  function StubParse(id: int, d: seq<byte>): Result<seq<Signal>, ParseError> {
    Ok([])
  }

  /** With the stub decoder the decoded table never changes. */
  lemma StubParsedTableUnchanged(rows: seq<Row<Value>>, id: int, d: seq<byte>)
    ensures StubParse(id, d).Ok? && ShowSignals(rows, StubParse(id, d).value) == rows
  {
  }
}
