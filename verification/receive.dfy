/**
 * The receive timer of every GUI: one tick takes up to 100 waiting frames
 * off the bus, oldest first, and shows each in the raw table and (except in
 * b.py) in the decoded table. A frame too short for its decoder raises
 * inside the decoded-table update; the exception leaves the loop, so the
 * rest of the batch stays on the bus until the next tick.
 */
module Receiver {
  import opened Wrappers
  import opened Bytes
  import opened Hex
  import opened Decoder
  import opened Rows
  import opened ScanTables

  /** Frames taken per tick: `for _ in range(100)`. */
  const PollBudget: nat := 100

  /** The two tables of the scan-based GUIs. */
  datatype Screen = Screen(raw: seq<Row<Cells>>, parsed: seq<Row<Value>>)

  /** One tick's outcome: the tables, how many frames were taken, and whether the loop raised. */
  datatype Poll<S> = Poll(screen: S, consumed: nat, failed: bool)

  /** A frame whose payload is too short for its decoder: the one case where `Parse` raises. */
  predicate Malformed(m: Received) {
    |m.data| < MinLength(m.id)
  }

  /**
   * One frame shown: raw first, then decoded when `decode` holds. A
   * malformed frame has already reached the raw table when the decoder raises.
   */
  function Show(v: Screen, m: Received, decode: bool): (r: Screen)
    ensures Lookup(r.raw, HexText(m.id)) == Some(Cells(m.dlc, m.data))
    ensures decode && !Malformed(m) ==> forall name :: Reading(m.id, m.data, name).Some? ==> Lookup(r.parsed, name) == Reading(m.id, m.data, name)
    ensures !decode || Malformed(m) ==> r.parsed == v.parsed
  {
    ShowParsedReadsAll(v.parsed, m);
    Screen(ShowRaw(v.raw, m), if decode then ShowParsed(v.parsed, m) else v.parsed)
  }

  lemma ShowParsedReadsAll(rows: seq<Row<Value>>, m: Received)
    ensures forall name :: Reading(m.id, m.data, name).Some? ==> Lookup(ShowParsed(rows, m), name) == Reading(m.id, m.data, name)
    ensures Malformed(m) ==> ShowParsed(rows, m) == rows
  {
    forall name | Reading(m.id, m.data, name).Some?
      ensures Lookup(ShowParsed(rows, m), name) == Reading(m.id, m.data, name)
    {
      ShowParsedReads(rows, m, name);
    }
  }

  /** The frames shown one after the other by `show`, with no budget and no exception. */
  function ShowEach<S>(v: S, ms: seq<Received>, show: (S, Received) -> S): S
    decreases |ms|
  {
    if |ms| == 0 then v else ShowEach(show(v, ms[0]), ms[1..], show)
  }

  /**
   * The loop of `read_can_messages` for any per-frame update `show`: take
   * frames while the budget lasts and the queue is not empty; when decoding,
   * stop right after a malformed one, which `show` has already applied.
   */
  function Take<S>(v: S, queue: seq<Received>, budget: nat, decode: bool, show: (S, Received) -> S): (r: Poll<S>)
    ensures r.consumed <= budget && r.consumed <= |queue|
    ensures r.failed ==> decode && r.consumed > 0 && Malformed(queue[r.consumed - 1])
    ensures !r.failed ==> r.consumed == Min(budget, |queue|)
    decreases |queue|
  {
    if budget == 0 || |queue| == 0 then Poll(v, 0, false)
    else
      var shown := show(v, queue[0]);
      if decode && Malformed(queue[0]) then Poll(shown, 1, true)
      else
        var rest := Take(shown, queue[1..], budget - 1, decode, show);
        Poll(rest.screen, rest.consumed + 1, rest.failed)
  }

  /** The loop raises exactly when one of the frames it would take is malformed. */
  lemma {:induction false} TakeFailsOnMalformed<S>(v: S, queue: seq<Received>, budget: nat, decode: bool, show: (S, Received) -> S)
    ensures Take(v, queue, budget, decode, show).failed <==>
              decode && exists k :: 0 <= k < Min(budget, |queue|) && Malformed(queue[k])
    decreases |queue|
  {
    if budget == 0 || |queue| == 0 {
    } else if decode && Malformed(queue[0]) {
      assert 0 < Min(budget, |queue|);
    } else {
      var shown := show(v, queue[0]);
      var tail := queue[1..];
      TakeFailsOnMalformed(shown, tail, budget - 1, decode, show);
      assert Min(budget - 1, |tail|) == Min(budget, |queue|) - 1;
      if decode && exists k :: 0 <= k < Min(budget, |queue|) && Malformed(queue[k]) {
        var k :| 0 <= k < Min(budget, |queue|) && Malformed(queue[k]);
        assert k > 0 && tail[k - 1] == queue[k];
      }
      if decode && exists j :: 0 <= j < Min(budget - 1, |tail|) && Malformed(tail[j]) {
        var j :| 0 <= j < Min(budget - 1, |tail|) && Malformed(tail[j]);
        assert queue[j + 1] == tail[j];
      }
    }
  }

  /** Every frame the loop took before the last one was decoded without raising. */
  lemma {:induction false} TakeWellFormedPrefix<S>(v: S, queue: seq<Received>, budget: nat, decode: bool, show: (S, Received) -> S)
    ensures decode ==> forall k :: 0 <= k < Take(v, queue, budget, decode, show).consumed - 1 ==> !Malformed(queue[k])
    decreases |queue|
  {
    if budget > 0 && |queue| > 0 && !(decode && Malformed(queue[0])) {
      var shown := show(v, queue[0]);
      var tail := queue[1..];
      TakeWellFormedPrefix(shown, tail, budget - 1, decode, show);
      var n := Take(shown, tail, budget - 1, decode, show).consumed;
      if decode {
        forall k | 0 < k < n
          ensures !Malformed(queue[k])
        {
          assert queue[k] == tail[k - 1];
        }
      }
    }
  }

  /**
   * The state after the loop is the taken frames shown one after the other:
   * the frame that raised was applied, and nothing after it was.
   */
  lemma {:induction false} TakeShowsTakenFrames<S>(v: S, queue: seq<Received>, budget: nat, decode: bool, show: (S, Received) -> S)
    ensures var r := Take(v, queue, budget, decode, show);
            r.screen == ShowEach(v, queue[..r.consumed], show)
    decreases |queue|
  {
    if budget > 0 && |queue| > 0 {
      var shown := show(v, queue[0]);
      if decode && Malformed(queue[0]) {
        assert queue[..1][1..] == [];
      } else {
        var rest := Take(shown, queue[1..], budget - 1, decode, show);
        TakeShowsTakenFrames(shown, queue[1..], budget - 1, decode, show);
        assert queue[..rest.consumed + 1][1..] == queue[1..][..rest.consumed];
      }
    }
  }

  /** The per-frame update of a tick. */
  function Step(decode: bool): (Screen, Received) -> Screen {
    (w, m) => Show(w, m, decode)
  }

  /**
   * `read_can_messages` on one timer tick: up to 100 frames shown in both
   * tables (raw only in b.py, where `decode` is false). The tick raises
   * exactly when a frame it would take is malformed; it then stops at the
   * first such frame, which reached the raw table only.
   */
  function ReadTick(v: Screen, queue: seq<Received>, decode: bool): (r: Poll<Screen>)
    ensures r.consumed <= PollBudget && r.consumed <= |queue|
    ensures r.screen == ShowEach(v, queue[..r.consumed], Step(decode))
    ensures r.failed <==> decode && exists k :: 0 <= k < Min(PollBudget, |queue|) && Malformed(queue[k])
    ensures r.failed ==> r.consumed > 0 && Malformed(queue[r.consumed - 1]) && forall k :: 0 <= k < r.consumed - 1 ==> !Malformed(queue[k])
    ensures !r.failed ==> r.consumed == Min(PollBudget, |queue|)
  {
    var show := Step(decode);
    TakeFailsOnMalformed(v, queue, PollBudget, decode, show);
    TakeWellFormedPrefix(v, queue, PollBudget, decode, show);
    TakeShowsTakenFrames(v, queue, PollBudget, decode, show);
    Take(v, queue, PollBudget, decode, show)
  }
}
