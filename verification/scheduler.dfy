/**
 * The command scheduler shared by the drive GUIs: the stored current
 * command, the connection, the 500 ms repeat timer reduced to an "armed"
 * flag, and the log of bursts handed to the bus. Timer ticks, button presses
 * and (dis)connection are explicit transitions on an immutable state.
 */
module Scheduler {
  import opened Wrappers
  import opened DriveEncoder

  /** A text field after `strip()`, as `float()` sees it: empty, not a number, or a value in hundredths. */
  datatype Entry = Blank | NotNumber | Number(centi: int)

  datatype CommandError =
    | NotConnected
    | EmptySpeed
    | EmptyAngle
    | InvalidSpeed
    | InvalidAngle
    | InvalidNumbers

  /**
   * `speed` and `angle` are `current_speed` / `current_angular`; `angle` is
   * None while the attribute has never been assigned. `sent` holds every
   * burst handed to the bus, oldest first.
   */
  datatype Controller = Controller(connected: bool, speed: int, angle: Option<int>, armed: bool, sent: seq<seq<Frame>>)

  /** The result of a button handler: the new state and the message box it raised, if any. */
  datatype Reply = Reply(state: Controller, error: Option<CommandError>)

  /** What every reachable state satisfies: the repeat runs only on a live bus with a stored angle. */
  predicate Valid(s: Controller) {
    s.armed ==> s.connected && s.angle.Some?
  }

  /** `connect_can_interface`: `ok` is whether `can.Bus(...)` succeeded; connecting twice only warns. */
  function Connect(s: Controller, ok: bool): (r: Controller)
    ensures r.sent == s.sent && r.armed == s.armed && r.speed == s.speed && r.angle == s.angle
    ensures r.connected <==> s.connected || ok
  {
    if s.connected || !ok then s else s.(connected := true)
  }

  /** `disconnect_can_interface`: stops both timers and drops the bus. */
  function Disconnect(s: Controller): (r: Controller)
    ensures !r.connected
    ensures s.connected ==> !r.armed
    ensures !s.connected ==> r == s
    ensures r.sent == s.sent && r.speed == s.speed && r.angle == s.angle
  {
    if s.connected then s.(connected := false, armed := false) else s
  }

  lemma ConnectionKeepsValid(s: Controller, ok: bool)
    requires Valid(s)
    ensures Valid(Connect(s, ok)) && Valid(Disconnect(s))
  {
  }
}

/** The drive handlers of PatrolCar.py (strict-sign encoder). */
module SignControl {
  import opened Wrappers
  import opened DriveEncoder
  import opened Scheduler

  /** `__init__`: `current_speed = 0.0`; `current_angular` is not assigned. */
  const Initial: Controller := Controller(false, 0, None, false, [])

  /**
   * `send_drive_command`. The speed is stored as soon as it parses, before
   * the angle is looked at; a bad angle therefore leaves the new speed in
   * place while sending nothing and leaving the timer as it was.
   */
  function SendDriveCommand(s: Controller, speed: Entry, angle: Entry): (r: Reply)
    ensures r.error.None? <==> s.connected && speed.Number? && angle.Number?
    ensures r.error.None? ==>
              r.state == s.(speed := speed.centi, angle := Some(angle.centi), armed := true,
                            sent := s.sent + [SignBurst(Command(speed.centi, angle.centi))])
    ensures r.error.Some? ==> r.state.sent == s.sent && r.state.armed == s.armed && r.state.angle == s.angle
    ensures r.state.speed == (if s.connected && speed.Number? then speed.centi else s.speed)
    ensures r.state.connected == s.connected
  {
    if !s.connected then Reply(s, Some(NotConnected))
    else match speed
      case Blank => Reply(s, Some(EmptySpeed))
      case NotNumber => Reply(s, Some(InvalidSpeed))
      case Number(v) =>
        var s1 := s.(speed := v);
        match angle
        case Blank => Reply(s1, Some(EmptyAngle))
        case NotNumber => Reply(s1, Some(InvalidAngle))
        case Number(a) =>
          Reply(s1.(angle := Some(a), sent := s1.sent + [SignBurst(Command(v, a))], armed := true), None)
  }

  /**
   * `send_repeated_drive_command` on a timer tick. An unarmed timer does not
   * fire; a missing bus or angle would raise inside the slot and send nothing.
   */
  function Tick(s: Controller): (r: Controller)
    ensures Valid(s) && s.armed ==> r == s.(sent := s.sent + [SignBurst(Command(s.speed, s.angle.value))])
    ensures !s.armed ==> r == s
  {
    if s.armed && s.connected && s.angle.Some? then
      s.(sent := s.sent + [SignBurst(Command(s.speed, s.angle.value))])
    else
      s
  }

  /** `stop_vehicle`: with a bus, disarm and send one (0, 0) burst; without one, nothing. */
  function Stop(s: Controller): (r: Controller)
    ensures s.connected ==> r == s.(armed := false, sent := s.sent + [SignBurst(Command(0, 0))])
    ensures !s.connected ==> r == s
    ensures !r.armed || r == s
  {
    if s.connected then s.(armed := false, sent := s.sent + [SignBurst(Command(0, 0))]) else s
  }

  /** Every handler keeps the timer from running without a bus or a stored angle. */
  lemma HandlersKeepValid(s: Controller, speed: Entry, angle: Entry)
    requires Valid(s)
    ensures Valid(SendDriveCommand(s, speed, angle).state)
    ensures Valid(Tick(s)) && Valid(Stop(s))
  {
  }

  /** Start then stop with no tick in between sends exactly two bursts: the command, then the (0, 0) stop. */
  lemma StartThenStop(s: Controller, v: int, a: int)
    requires s.connected
    ensures var t := Stop(SendDriveCommand(s, Number(v), Number(a)).state);
            && t.sent == s.sent + [SignBurst(Command(v, a)), SignBurst(Command(0, 0))]
            && !t.armed
  {
  }

  /**
   * A rejected angle while the repeat runs still changes what it repeats:
   * the next tick sends the new speed with the old angle.
   */
  lemma BadAngleChangesHeartbeat(s: Controller, v: int, angle: Entry)
    requires Valid(s) && s.armed
    requires !angle.Number?
    ensures var r := SendDriveCommand(s, Number(v), angle);
            && r.error.Some?
            && r.state.sent == s.sent
            && Tick(r.state).sent == s.sent + [SignBurst(Command(v, s.angle.value))]
  {
  }

  /**
   * Without a bus nothing reaches the bus and nothing changes: a tick does
   * not fire, stop does nothing, and a command is refused with no state
   * change. A fresh window is such a state.
   */
  lemma NoBusSendsNothing(s: Controller, speed: Entry, angle: Entry)
    requires !s.connected
    ensures Tick(s) == s && Stop(s) == s
    ensures SendDriveCommand(s, speed, angle) == Reply(s, Some(NotConnected))
    ensures Valid(Initial) && !Initial.connected
  {
  }
}

/** The drive handlers of PatrolCar_rev1.py (dead-band encoder). */
module DeadBandControl {
  import opened Wrappers
  import opened DriveEncoder
  import opened Scheduler
  import opened ScanTables
  import opened Receiver

  /** `__init__`: both `current_speed` and `current_angular` start at 0.0. */
  const Initial: Controller := Controller(false, 0, Some(0), false, [])

  /**
   * `_send_drive_command`: both fields are checked (emptiness first, then
   * number syntax) before any state is touched; on success one burst is
   * sent and the repeat is (re)armed.
   */
  function SendDriveCommand(s: Controller, speed: Entry, angle: Entry): (r: Reply)
    ensures r.error.Some? ==> r.state == s
    ensures r.error.None? <==> s.connected && speed.Number? && angle.Number?
    ensures r.error.None? ==>
              r.state == s.(speed := speed.centi, angle := Some(angle.centi), armed := true,
                            sent := s.sent + [DeadBandBurst(Command(speed.centi, angle.centi))])
    ensures s.connected && speed.Blank? ==> r.error == Some(EmptySpeed)
    ensures s.connected && !speed.Blank? && angle.Blank? ==> r.error == Some(EmptyAngle)
  {
    if !s.connected then Reply(s, Some(NotConnected))
    else if speed.Blank? then Reply(s, Some(EmptySpeed))
    else if angle.Blank? then Reply(s, Some(EmptyAngle))
    else if speed.NotNumber? || angle.NotNumber? then Reply(s, Some(InvalidNumbers))
    else
      var c := Command(speed.centi, angle.centi);
      Reply(s.(speed := c.speed, angle := Some(c.angle), armed := true, sent := s.sent + [DeadBandBurst(c)]), None)
  }

  /** `_send_repeated_drive_command` on a timer tick. */
  function Tick(s: Controller): (r: Controller)
    ensures Valid(s) && s.armed ==> r == s.(sent := s.sent + [DeadBandBurst(Command(s.speed, s.angle.value))])
    ensures !s.armed ==> r == s
  {
    if s.armed && s.connected && s.angle.Some? then
      s.(sent := s.sent + [DeadBandBurst(Command(s.speed, s.angle.value))])
    else
      s
  }

  /** `_stop_vehicle`: with a bus, disarm and send one (0, 0) burst; without one, only a warning. */
  function Stop(s: Controller): (r: Controller)
    ensures s.connected ==> !r.armed && r.sent == s.sent + [DeadBandBurst(Command(0, 0))]
    ensures s.connected ==> r.speed == s.speed && r.angle == s.angle && r.connected
    ensures !s.connected ==> r == s
  {
    if s.connected then s.(armed := false, sent := s.sent + [DeadBandBurst(Command(0, 0))]) else s
  }

  /**
   * The `except` branch of `_read_can_messages`: when the receive tick
   * raised while the bus is up, the read timer stops and the bus is
   * disconnected, which also stops the drive repeat.
   */
  function AfterRead(s: Controller, failed: bool): (r: Controller)
    ensures !failed ==> r == s
    ensures failed ==> !r.connected && (s.connected ==> !r.armed)
    ensures r.sent == s.sent && r.speed == s.speed && r.angle == s.angle
  {
    if failed && s.connected then Disconnect(s) else s
  }

  lemma HandlersKeepValid(s: Controller, speed: Entry, angle: Entry, failed: bool)
    requires Valid(s)
    ensures Valid(SendDriveCommand(s, speed, angle).state)
    ensures Valid(Tick(s)) && Valid(Stop(s)) && Valid(AfterRead(s, failed))
  {
  }

  /**
   * One frame too short for its decoder, arriving while the repeat runs,
   * ends the session: the bus is dropped, no further tick sends anything,
   * and every new command is refused until the user reconnects.
   */
  lemma MalformedFrameDisconnects(s: Controller, v: Screen, queue: seq<Received>, speed: Entry, angle: Entry)
    requires Valid(s) && s.armed
    requires |queue| > 0 && Malformed(queue[0])
    ensures var p := ReadTick(v, queue, true);
            var t := AfterRead(s, p.failed);
            && p.consumed == 1
            && !t.connected && !t.armed
            && Tick(t) == t
            && SendDriveCommand(t, speed, angle).error == Some(NotConnected)
  {
    var p := ReadTick(v, queue, true);
    assert p.failed;
  }

  /** The stop burst is Neutral with no indicator and zero speed. */
  lemma StopBurstIsNeutral(s: Controller)
    requires s.connected
    ensures var b := Stop(s).sent[|s.sent|];
            && b[4].data[3] == GearCode(Neutral)
            && b[3].data[0] == IndicatorCode(NoSignal)
            && b[4].data[6] == 0 && b[4].data[7] == 0
  {
  }

  /**
   * A new command while the repeat runs is sent at once, not deferred to the
   * next tick, and the following ticks repeat it.
   */
  lemma CommandWhileArmedSendsAtOnce(s: Controller, v: int, a: int)
    requires Valid(s) && s.armed
    ensures var t := SendDriveCommand(s, Number(v), Number(a)).state;
            && t.sent == s.sent + [DeadBandBurst(Command(v, a))]
            && Tick(t).sent == t.sent + [DeadBandBurst(Command(v, a))]
  {
  }
}

/** The drive handlers of b.py (speed only, fixed steering). */
module FixedSteeringControl {
  import opened Wrappers
  import opened DriveEncoder
  import opened Scheduler

  /** `__init__`: `current_speed = 0.0`; this window has no angle at all. */
  const Initial: Controller := Controller(false, 0, None, false, [])

  /** The repeat here needs only a bus: there is no stored angle. */
  predicate Ready(s: Controller) {
    s.armed ==> s.connected
  }

  /** `send_drive_command`: `float(text)` either parses, or raises before anything changes. */
  function SendDriveCommand(s: Controller, speed: Entry): (r: Reply)
    ensures r.error.None? <==> s.connected && speed.Number?
    ensures r.error.Some? ==> r.state == s
    ensures r.error.None? ==>
              r.state == s.(speed := speed.centi, armed := true, sent := s.sent + [FixedSteeringBurst(speed.centi)])
  {
    if !s.connected then Reply(s, Some(NotConnected))
    else if !speed.Number? then Reply(s, Some(InvalidSpeed))
    else Reply(s.(speed := speed.centi, armed := true, sent := s.sent + [FixedSteeringBurst(speed.centi)]), None)
  }

  /** `send_repeated_drive_command`: re-sends the stored `current_speed`. */
  function Tick(s: Controller): (r: Controller)
    ensures Ready(s) && s.armed ==> r == s.(sent := s.sent + [FixedSteeringBurst(s.speed)])
    ensures !s.armed ==> r == s
  {
    if s.armed && s.connected then s.(sent := s.sent + [FixedSteeringBurst(s.speed)]) else s
  }

  /** `stop_vehicle`: with a bus, disarm and send one burst at speed 0.0. */
  function Stop(s: Controller): (r: Controller)
    ensures s.connected ==> r == s.(armed := false, sent := s.sent + [FixedSteeringBurst(0)])
    ensures !s.connected ==> r == s
  {
    if s.connected then s.(armed := false, sent := s.sent + [FixedSteeringBurst(0)]) else s
  }

  lemma HandlersKeepReady(s: Controller, speed: Entry, ok: bool)
    requires Ready(s)
    ensures Ready(SendDriveCommand(s, speed).state) && Ready(Tick(s)) && Ready(Stop(s))
    ensures Ready(Connect(s, ok)) && Ready(Disconnect(s))
  {
  }

  /** After a command, every tick repeats that command's burst until stop, which sends the zero burst. */
  lemma CommandTickStop(s: Controller, v: int)
    requires s.connected
    ensures var t := SendDriveCommand(s, Number(v)).state;
            && Tick(t).sent == s.sent + [FixedSteeringBurst(v), FixedSteeringBurst(v)]
            && Stop(Tick(t)).sent == s.sent + [FixedSteeringBurst(v), FixedSteeringBurst(v), FixedSteeringBurst(0)]
            && !Stop(Tick(t)).armed
            && Tick(Stop(Tick(t))) == Stop(Tick(t))
  {
  }
}
