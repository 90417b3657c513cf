/**
 * The drive-command encoder: a (speed, angle) pair becomes gear and
 * indicator codes, two packed 16-bit fields, and the fixed burst of five
 * standard frames 0x501, 0x503, 0x502, 0x506, 0x504.
 *
 * Speeds (km/h) and angles (degrees) are integers in hundredths, so
 * Python's `int(x / 0.1)` is an explicit truncation toward zero of
 * hundredths by ten.
 */
module DriveEncoder {
  import opened Bytes

  /** One CAN frame as `can.Message` builds it; the DLC is the payload length. */
  datatype Frame = Frame(id: nat, data: seq<byte>, extended: bool)

  datatype Gear = Park | Drive | Neutral | Reverse

  /** Gear byte of frame 0x504: 0 P, 1 D, 2 N, 3 R. */
  function GearCode(g: Gear): byte {
    match g
    case Park => 0x0
    case Drive => 0x1
    case Neutral => 0x2
    case Reverse => 0x3
  }

  datatype Indicator = NoSignal | LeftSignal | RightSignal

  /** Byte 0 of frame 0x506. */
  function IndicatorCode(i: Indicator): byte {
    match i
    case NoSignal => 0x00
    case LeftSignal => 0xF1
    case RightSignal => 0xF2
  }

  /** A drive setpoint in hundredths of km/h and hundredths of a degree. */
  datatype Command = Command(speed: int, angle: int)

  /** `int(speed / 0.1)`: tenths of km/h, truncated toward zero. */
  function SpeedField(speed: int): int {
    TruncDiv(speed, 10)
  }

  /** `int((angular + 30) / 0.1)`: the angle offset by 30 degrees, in tenths. */
  function SteeringField(angle: int): int {
    TruncDiv(angle + 3000, 10)
  }

  /** `int((10 + 30) / 0.1)`: the steering field of the fixed-angle variants. */
  const FixedSteering: int := 400

  /** The send order every variant uses. */
  const BurstIds: seq<nat> := [0x501, 0x503, 0x502, 0x506, 0x504]

  function Standard(id: nat, data: seq<byte>): Frame {
    Frame(id, data, false)
  }

  /**
   * The five frames of one drive burst, in send order, with the steering
   * field in 0x502 bytes 4..5, the indicator code in 0x506 byte 0, the gear
   * code in 0x504 byte 3 and the speed field in 0x504 bytes 6..7.
   */
  function Burst(steering: int, indicator: byte, gear: byte, speed: int): (r: seq<Frame>)
    ensures |r| == 5
    ensures forall i :: 0 <= i < 5 ==> r[i].id == BurstIds[i] && !r[i].extended && |r[i].data| == 8
  {
    [ Standard(0x501, [0xF1, 0, 0, 0, 0, 0, 0, 0]),
      Standard(0x503, [0xF1, 0, 0, 0, 0, 0, 0, 0]),
      Standard(0x502, [0xF1, 0, 0, 0, Lo(steering), Hi(steering), 0, 0]),
      Standard(0x506, [indicator, 0, 0, 0, 0, 0, 0, 0]),
      Standard(0x504, [0xF1, 0x00, 0x01, gear, 0, 0, Lo(speed), Hi(speed)]) ]
  }

  /** Gear rule of PatrolCar.py: only a stand-still with a straight wheel is Neutral. */
  function SignGear(c: Command): Gear {
    if c.speed < 0 then Reverse
    else if c.speed == 0 && c.angle == 0 then Neutral
    else Drive
  }

  /** Indicator rule of PatrolCar.py: the strict sign of the angle. */
  function SignIndicator(angle: int): Indicator {
    if angle < 0 then RightSignal
    else if angle > 0 then LeftSignal
    else NoSignal
  }

  /** Gear rule of PatrolCar_rev1.py: Neutral by default, the speed's sign alone picks D or R. */
  function NeutralDefaultGear(speed: int): Gear {
    if speed > 0 then Drive
    else if speed < 0 then Reverse
    else Neutral
  }

  /** Indicator rule of PatrolCar_rev1.py: a dead band of 5 degrees either side of straight. */
  function DeadBandIndicator(angle: int): Indicator {
    if angle < -500 then RightSignal
    else if angle > 500 then LeftSignal
    else NoSignal
  }

  function Abs(x: int): nat {
    if x < 0 then -x else x
  }

  /**
   * `send_drive_frame(speed, angular)` of PatrolCar.py: R exactly for a
   * negative speed, N exactly at stand-still with a straight wheel, D
   * otherwise; the indicator follows the strict sign of the angle; the speed
   * field packs the magnitude in tenths.
   */
  function SignBurst(c: Command): (r: seq<Frame>)
    ensures |r| == 5 && forall i :: 0 <= i < 5 ==> r[i].id == BurstIds[i] && !r[i].extended && |r[i].data| == 8
    ensures r[4].data[3] == GearCode(Reverse) <==> c.speed < 0
    ensures r[4].data[3] == GearCode(Neutral) <==> c.speed == 0 && c.angle == 0
    ensures r[4].data[3] == GearCode(Drive) <==> c.speed > 0 || (c.speed == 0 && c.angle != 0)
    ensures r[3].data[0] == IndicatorCode(LeftSignal) <==> c.angle > 0
    ensures r[3].data[0] == IndicatorCode(RightSignal) <==> c.angle < 0
    ensures r[3].data[0] == IndicatorCode(NoSignal) <==> c.angle == 0
    ensures FieldAt(r[2], 4) == SteeringField(c.angle) % 65536
    ensures FieldAt(r[4], 6) == (Abs(c.speed) / 10) % 65536
  {
    var b := Burst(SteeringField(c.angle), IndicatorCode(SignIndicator(c.angle)),
                   GearCode(SignGear(c)), SpeedField(Abs(c.speed)));
    BurstFieldsReadBack(SteeringField(c.angle), IndicatorCode(SignIndicator(c.angle)),
                        GearCode(SignGear(c)), SpeedField(Abs(c.speed)));
    b
  }

  /**
   * `_send_drive_frame(speed, angular)` of PatrolCar_rev1.py: the speed's
   * sign alone picks D, N or R; the indicator stays off within 5 degrees of
   * straight; the speed field packs the magnitude in tenths.
   */
  function DeadBandBurst(c: Command): (r: seq<Frame>)
    ensures |r| == 5 && forall i :: 0 <= i < 5 ==> r[i].id == BurstIds[i] && !r[i].extended && |r[i].data| == 8
    ensures r[4].data[3] == GearCode(Reverse) <==> c.speed < 0
    ensures r[4].data[3] == GearCode(Neutral) <==> c.speed == 0
    ensures r[4].data[3] == GearCode(Drive) <==> c.speed > 0
    ensures r[3].data[0] == IndicatorCode(LeftSignal) <==> c.angle > 500
    ensures r[3].data[0] == IndicatorCode(RightSignal) <==> c.angle < -500
    ensures r[3].data[0] == IndicatorCode(NoSignal) <==> -500 <= c.angle <= 500
    ensures FieldAt(r[2], 4) == SteeringField(c.angle) % 65536
    ensures FieldAt(r[4], 6) == (Abs(c.speed) / 10) % 65536
  {
    var b := Burst(SteeringField(c.angle), IndicatorCode(DeadBandIndicator(c.angle)),
                   GearCode(NeutralDefaultGear(c.speed)), SpeedField(Abs(c.speed)));
    BurstFieldsReadBack(SteeringField(c.angle), IndicatorCode(DeadBandIndicator(c.angle)),
                        GearCode(NeutralDefaultGear(c.speed)), SpeedField(Abs(c.speed)));
    b
  }

  /**
   * `send_drive_frame(speed)` of b.py and the drive frames of speed.py:
   * gear D, no indicator and a fixed 10-degree steering field, whatever the
   * speed; a negative speed is packed as is, with no absolute value taken.
   */
  function FixedSteeringBurst(speed: int): (r: seq<Frame>)
    ensures |r| == 5 && forall i :: 0 <= i < 5 ==> r[i].id == BurstIds[i] && !r[i].extended && |r[i].data| == 8
    ensures r[4].data[3] == GearCode(Drive) && r[3].data[0] == IndicatorCode(NoSignal)
    ensures FieldAt(r[4], 6) == SpeedField(speed) % 65536
  {
    var b := Burst(FixedSteering, 0x00, 0x01, SpeedField(speed));
    BurstFieldsReadBack(FixedSteering, 0x00, 0x01, SpeedField(speed));
    b
  }

  /** The packed 16-bit field at bytes k..k+1 of a frame. */
  function FieldAt(f: Frame, k: nat): int
    requires k + 1 < |f.data|
  {
    Unsigned(f.data[k..k + 2])
  }

  /**
   * Which byte carries which input: two bursts can differ only in 0x502
   * bytes 4..5 (steering), 0x506 byte 0 (indicator), 0x504 byte 3 (gear) and
   * 0x504 bytes 6..7 (speed), and each of those only when its own input differs.
   */
  lemma BurstFieldPlacement(s: int, ind: byte, g: byte, v: int, s': int, ind': byte, g': byte, v': int)
    ensures forall i, j :: 0 <= i < 5 && 0 <= j < 8 && Burst(s, ind, g, v)[i].data[j] != Burst(s', ind', g', v')[i].data[j]
              ==> ((i == 2 && 4 <= j <= 5 && s != s')
                   || (i == 3 && j == 0 && ind != ind')
                   || (i == 4 && j == 3 && g != g')
                   || (i == 4 && 6 <= j <= 7 && v != v'))
  {
  }

  /** PatrolCar.py: only 0x502 bytes 4..5, 0x506 byte 0 and 0x504 bytes 3, 6, 7 depend on the command. */
  lemma SignBurstConstantBytes(c: Command, c': Command)
    ensures SignBurst(c)[0] == SignBurst(c')[0] && SignBurst(c)[1] == SignBurst(c')[1]
    ensures forall i, j :: 0 <= i < 5 && 0 <= j < 8 && SignBurst(c)[i].data[j] != SignBurst(c')[i].data[j]
              ==> (i == 2 && 4 <= j <= 5) || (i == 3 && j == 0) || (i == 4 && (j == 3 || j == 6 || j == 7))
  {
    BurstFieldPlacement(SteeringField(c.angle), IndicatorCode(SignIndicator(c.angle)),
                        GearCode(SignGear(c)), SpeedField(Abs(c.speed)),
                        SteeringField(c'.angle), IndicatorCode(SignIndicator(c'.angle)),
                        GearCode(SignGear(c')), SpeedField(Abs(c'.speed)));
  }

  /**
   * PatrolCar_rev1.py: the speed reaches only 0x504 (bytes 3, 6, 7) and the
   * angle only 0x502 bytes 4..5 and 0x506 byte 0.
   */
  lemma DeadBandBurstInputsSeparate(c: Command, c': Command)
    ensures c.angle == c'.angle ==>
              forall i, j :: 0 <= i < 5 && 0 <= j < 8 && DeadBandBurst(c)[i].data[j] != DeadBandBurst(c')[i].data[j]
                ==> i == 4 && (j == 3 || j == 6 || j == 7)
    ensures c.speed == c'.speed ==>
              forall i, j :: 0 <= i < 5 && 0 <= j < 8 && DeadBandBurst(c)[i].data[j] != DeadBandBurst(c')[i].data[j]
                ==> (i == 2 && 4 <= j <= 5) || (i == 3 && j == 0)
  {
    BurstFieldPlacement(SteeringField(c.angle), IndicatorCode(DeadBandIndicator(c.angle)),
                        GearCode(NeutralDefaultGear(c.speed)), SpeedField(Abs(c.speed)),
                        SteeringField(c'.angle), IndicatorCode(DeadBandIndicator(c'.angle)),
                        GearCode(NeutralDefaultGear(c'.speed)), SpeedField(Abs(c'.speed)));
  }

  /** b.py and speed.py: the speed field in 0x504 bytes 6..7 is the only thing that varies. */
  lemma FixedSteeringBurstConstantBytes(v: int, v': int)
    ensures forall i, j :: 0 <= i < 5 && 0 <= j < 8 && FixedSteeringBurst(v)[i].data[j] != FixedSteeringBurst(v')[i].data[j]
              ==> i == 4 && 6 <= j <= 7
    ensures FixedSteeringBurst(v)[4].data[3] == GearCode(Drive)
    ensures FixedSteeringBurst(v)[3].data[0] == IndicatorCode(NoSignal)
  {
    BurstFieldPlacement(FixedSteering, 0x00, 0x01, SpeedField(v), FixedSteering, 0x00, 0x01, SpeedField(v'));
  }

  /**
   * The packed fields read back, little-endian, as the field modulo 2^16:
   * exactly when the field fits in 16 bits, wrapped (with no clamp) otherwise.
   */
  lemma BurstFieldsReadBack(s: int, ind: byte, g: byte, v: int)
    ensures FieldAt(Burst(s, ind, g, v)[2], 4) == s % 65536
    ensures FieldAt(Burst(s, ind, g, v)[4], 6) == v % 65536
    ensures Burst(s, ind, g, v)[3].data[0] == ind && Burst(s, ind, g, v)[4].data[3] == g
  {
    var b := Burst(s, ind, g, v);
    assert b[2].data[4..6] == [Lo(s), Hi(s)];
    assert b[4].data[6..8] == [Lo(v), Hi(v)];
    SplitModulo(s);
    SplitModulo(v);
  }

  /** PatrolCar.py: the 0x504 speed field is the magnitude of the speed in tenths, whatever the direction. */
  lemma SignBurstSpeedReadBack(c: Command)
    requires Abs(c.speed) < 655360
    ensures FieldAt(SignBurst(c)[4], 6) == Abs(c.speed) / 10
    ensures 3000 <= c.angle + 3000 < 655360 ==> FieldAt(SignBurst(c)[2], 4) == (c.angle + 3000) / 10
  {
    BurstFieldsReadBack(SteeringField(c.angle), IndicatorCode(SignIndicator(c.angle)),
                        GearCode(SignGear(c)), SpeedField(Abs(c.speed)));
  }

  /** Reversing the speed changes only the gear byte: the magnitude is packed either way. */
  lemma ReverseMirrorsForward(c: Command)
    requires c.speed > 0
    ensures var r := Command(-c.speed, c.angle);
            SignBurst(r)[4].data[3] == GearCode(Reverse) && SignBurst(c)[4].data[3] == GearCode(Drive)
            && forall i, j :: 0 <= i < 5 && 0 <= j < 8 && !(i == 4 && j == 3) ==> SignBurst(r)[i].data[j] == SignBurst(c)[i].data[j]
  {
    assert Abs(-c.speed) == Abs(c.speed);
    BurstFieldPlacement(SteeringField(c.angle), IndicatorCode(SignIndicator(c.angle)),
                        GearCode(Reverse), SpeedField(Abs(c.speed)),
                        SteeringField(c.angle), IndicatorCode(SignIndicator(c.angle)),
                        GearCode(Drive), SpeedField(Abs(c.speed)));
  }

  /**
   * b.py and speed.py take no absolute value: a negative speed goes out as the
   * 16-bit two's complement of its tenths, still with gear D.
   */
  lemma FixedSteeringNegativeSpeed(speed: int)
    requires -655360 < speed <= -10
    ensures FieldAt(FixedSteeringBurst(speed)[4], 6) == SpeedField(speed) + 65536
    ensures FixedSteeringBurst(speed)[4].data[3] == GearCode(Drive)
  {
    BurstFieldsReadBack(FixedSteering, 0x00, 0x01, SpeedField(speed));
    assert -65536 < SpeedField(speed) < 0;
  }

  /** The fixed steering field reads back as 400, that is (10 + 30) / 0.1, for every speed. */
  lemma FixedSteeringField(speed: int)
    ensures FieldAt(FixedSteeringBurst(speed)[2], 4) == 400
  {
    BurstFieldsReadBack(FixedSteering, 0x00, 0x01, SpeedField(speed));
  }

  /** The two gear rules agree except at stand-still with a turned wheel, where PatrolCar.py says D and rev1 says N. */
  lemma GearRulesDiffer(c: Command)
    ensures SignGear(c) == NeutralDefaultGear(c.speed) <==> !(c.speed == 0 && c.angle != 0)
    ensures c.speed == 0 && c.angle != 0 ==> SignGear(c) == Drive && NeutralDefaultGear(c.speed) == Neutral
    ensures SignGear(c) == Reverse <==> c.speed < 0
    ensures NeutralDefaultGear(c.speed) == Reverse <==> c.speed < 0
  {
  }

  /** The two indicator rules agree except for angles within 5 degrees of straight, other than straight itself. */
  lemma IndicatorRulesDiffer(angle: int)
    ensures SignIndicator(angle) == DeadBandIndicator(angle) <==> (angle == 0 || angle < -500 || angle > 500)
    ensures SignIndicator(angle) == NoSignal <==> angle == 0
    ensures DeadBandIndicator(angle) == NoSignal <==> -500 <= angle <= 500
  {
  }

  /** `int()` truncates toward zero: an angle just below -30 degrees packs as 0, not as -1. */
  lemma SteeringTruncatesTowardZero()
    ensures SteeringField(-3005) == 0
    ensures SteeringField(-3015) == -1
    ensures SteeringField(-2995) == 0
    ensures SteeringField(0) == 300
  {
  }

  /** Worked examples: 10 km/h straight, 5 km/h reverse, and stand-still. */
  lemma SignBurstExamples()
    ensures SignBurst(Command(1000, 0))[4].data[3] == GearCode(Drive)
    ensures SignBurst(Command(1000, 0))[3].data[0] == IndicatorCode(NoSignal)
    ensures SignBurst(Command(1000, 0))[4].data[6..8] == [100, 0]
    ensures SignBurst(Command(-500, 0))[4].data[3] == GearCode(Reverse)
    ensures SignBurst(Command(-500, 0))[4].data[6..8] == [50, 0]
    ensures SignBurst(Command(0, 0))[4].data[3] == GearCode(Neutral)
    ensures SignBurst(Command(0, 1500))[4].data[3] == GearCode(Drive)
    ensures DeadBandBurst(Command(0, 1500))[4].data[3] == GearCode(Neutral)
  {
  }
}
