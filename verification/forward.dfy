/**
 * `send_forward` of speed.py: two 0x10a control frames, then the
 * fixed-steering drive burst at the speed typed in the form.
 */
module ForwardCommand {
  import opened Wrappers
  import opened Bytes
  import opened DriveEncoder
  import opened Scheduler

  /** The first 0x10a control frame (byte 2 = 0x00). */
  const ControlFirst: Frame := Frame(0x10a, [0x02, 0x01, 0x00, 0x00, 0x01, 0x00, 0x00, 0x00], false)
  /** The second 0x10a control frame (byte 2 = 0x02). */
  const ControlSecond: Frame := Frame(0x10a, [0x02, 0x01, 0x02, 0x00, 0x01, 0x00, 0x00, 0x00], false)

  datatype ForwardError = NoBus | BadSpeed

  /** The frames handed to the bus, in order, and the message box raised, if any. */
  datatype Outcome = Outcome(sent: seq<Frame>, error: Option<ForwardError>)

  function Ids(fs: seq<Frame>): (r: seq<nat>)
    ensures |r| == |fs| && forall i :: 0 <= i < |fs| ==> r[i] == fs[i].id
  {
    if |fs| == 0 then [] else [fs[0].id] + Ids(fs[1..])
  }

  /**
   * `send_forward`. Without a bus nothing is sent. The control frames go
   * out before the speed text is parsed, so a bad speed leaves exactly
   * those two on the bus; otherwise the five drive frames follow.
   */
  function SendForward(connected: bool, speed: Entry): (r: Outcome)
    ensures !connected ==> r == Outcome([], Some(NoBus))
    ensures connected ==> |r.sent| >= 2 && r.sent[..2] == [ControlFirst, ControlSecond]
    ensures connected && !speed.Number? ==> r == Outcome([ControlFirst, ControlSecond], Some(BadSpeed))
    ensures connected && speed.Number? ==>
              r.error.None? && Ids(r.sent) == [0x10a, 0x10a, 0x501, 0x503, 0x502, 0x506, 0x504]
  {
    if !connected then Outcome([], Some(NoBus))
    else
      var control := [ControlFirst, ControlSecond];
      match speed
      case Number(v) => Outcome(control + FixedSteeringBurst(v), None)
      case _ => Outcome(control, Some(BadSpeed))
  }

  /** The two control frames differ only in byte 2: 0x00 first, then 0x02. */
  lemma ControlFramesDifferInByteTwo()
    ensures ControlFirst.id == ControlSecond.id == 0x10a
    ensures forall j :: 0 <= j < 8 && j != 2 ==> ControlFirst.data[j] == ControlSecond.data[j]
    ensures ControlFirst.data[2] == 0x00 && ControlSecond.data[2] == 0x02
  {
  }

  /**
   * The speed field sits in 0x504 bytes 6..7 with gear byte 3 fixed at D and
   * the steering field in 0x502 bytes 4..5 fixed at 400 for every speed.
   */
  lemma ForwardFields(v: int)
    ensures var fs := SendForward(true, Number(v)).sent;
            && fs[6].id == 0x504 && FieldAt(fs[6], 6) == SpeedField(v) % 65536
            && fs[6].data[3] == GearCode(Drive)
            && fs[4].id == 0x502 && FieldAt(fs[4], 4) == 400
  {
    var fs := SendForward(true, Number(v)).sent;
    assert fs[2..] == FixedSteeringBurst(v);
    BurstFieldsReadBack(FixedSteering, 0x00, 0x01, SpeedField(v));
  }
}
