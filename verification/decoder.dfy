/**
 * The frame decoder `CANParser.parse`: a dispatch on the CAN identifier that
 * turns a payload into an ordered list of named signals (Python's dict keeps
 * insertion order, and the decoded-signal table shows them in that order).
 *
 * Scaled readings are kept as integer fixed-point in the unit of the last
 * digit the source prints (`:.1f` gives tenths, `:.2f` hundredths).
 * Payload access follows Python: `data[a:b]` is clipped to the payload and
 * `int.from_bytes` of an empty slice is 0, while `data[k]` past the end
 * raises IndexError, which aborts the whole decode.
 */
module Decoder {
  import opened Wrappers
  import opened Bytes

  /** The text a decoded signal shows, before formatting. */
  datatype Value =
    | Label(text: string)              // enumeration label or flag word
    | Fixed(units: int, places: nat)   // `f"{x:.Nf}"` with x == units / 10^places
    | Whole(n: int)                    // `str(n)` of an integer

  datatype Signal = Signal(name: string, value: Value)

  datatype ParseError = IndexError

  const GearLabels: seq<string> := ["P Gear", "D Gear", "N Gear", "R Gear"]
  const StateModeLabels: seq<string> :=
    ["Remote Control Mode", "Represents the AD Mode", "Indicates parallel Mode", "Indicates semi-autonomous"]
  const DriveModeLabels: seq<string> := ["Torque", "Speed", "Torque ring", "Speed loop"]

  /** The identifiers the decoder has a branch for. */
  const KnownIds: set<int> := {0x303, 0x314, 0x304, 0x301, 0x18F, 0x060, 0x160, 0x0A0}

  /** `data[k]`: an IndexError past the end of the payload. */
  function At(d: seq<byte>, k: nat): (r: Result<byte, ParseError>)
    ensures r.Ok? <==> k < |d|
    ensures r.Ok? ==> r.value == d[k]
  {
    if k < |d| then Ok(d[k]) else Err(IndexError)
  }

  /** `int.from_bytes(data[lo:hi], 'little')`. */
  function U(d: seq<byte>, lo: nat, hi: nat): nat
    requires lo <= hi
  {
    Unsigned(Slice(d, lo, hi))
  }

  /** `int.from_bytes(data[lo:hi], 'little', signed=True)`. */
  function S(d: seq<byte>, lo: nat, hi: nat): int
    requires lo <= hi
  {
    Signed(Slice(d, lo, hi))
  }

  /** Two payload bytes read as a little-endian 16-bit word. */
  function Word(lo: byte, hi: byte): int {
    lo as int + 256 * hi as int
  }

  function Flag(b: byte, k: nat, on: string, off: string): string {
    if Bit(b, k) then on else off
  }

  function Parse303(d: seq<byte>): Result<seq<Signal>, ParseError> {
    var b0 :- At(d, 0);
    var b1 :- At(d, 1);
    Ok([ Signal("Vehicle Gear", Label(GearLabels[b0 % 4])),                 // data[0] & 0x03
         Signal("Drive_State_Mode", Label(StateModeLabels[b1 % 4])),        // data[1] & 0x03
         Signal("Vehicle Speed Request (km/h)", Fixed(U(d, 2, 4) - 800, 1)) ])
  }

  function Parse314(d: seq<byte>): Result<seq<Signal>, ParseError> {
    var angle := U(d, 1, 3);
    var b0 :- At(d, 0);
    Ok([ Signal("Direction Angle (deg)", Whole(angle)),
         Signal("eps Control", Label(Flag(b0, 0, "Works", "Stops"))) ])
  }

  function Parse304(d: seq<byte>): Result<seq<Signal>, ParseError> {
    Ok([ Signal("Vehicle Speed (km/h)", Fixed(U(d, 0, 2) - 800, 1)),
         Signal("Vehicle Wheel End Angle (deg)", Fixed(U(d, 4, 6) - 350, 1)),
         Signal("Vehicle Break Pressure (Mps)", Fixed(U(d, 2, 4), 2)) ])
  }

  function Parse301(d: seq<byte>): Result<seq<Signal>, ParseError> {
    var b5 :- At(d, 5);
    var b1 :- At(d, 1);
    var b0 :- At(d, 0);
    Ok([ Signal("Brake Light", Label(Flag(b5, 0, "ON", "OFF"))),                         // & 0x01
         Signal("Head Light", Label(Flag(b1, 7, "ON", "OFF"))),                          // & 0x80
         Signal("Emergency Button", Label(Flag(b0, 0, "Pressed", "Not Pressed"))),       // & 0x01
         Signal("Back Touch Switch State", Label(Flag(b1, 5, "trigger", "Not trigger"))), // & 0x20
         Signal("Front Touch Switch State", Label(Flag(b1, 4, "trigger", "Not trigger"))) ])  // & 0x10
  }

  function Parse18F(d: seq<byte>): Result<seq<Signal>, ParseError> {
    Ok([ Signal("EPS_Current_Angle (deg)", Whole(S(d, 1, 3))),
         Signal("EPS_ECU_Temperature (℃)", Whole(S(d, 6, 7))) ])
  }

  function Parse060(d: seq<byte>): Result<seq<Signal>, ParseError> {
    Ok([ Signal("BUS Voltage (V)", Fixed(10 * U(d, 0, 2), 2)),               // raw * 0.1, two places
         Signal("BUS Current (A)", Fixed(10 * U(d, 2, 4) - 100000, 2)) ])    // raw * 0.1 - 1000
  }

  function Parse160(d: seq<byte>): Result<seq<Signal>, ParseError> {
    var b0 :- At(d, 0);
    Ok([ Signal("Drive Mode", Label(DriveModeLabels[(b0 / 2) % 4])),         // (data[0] & 0x06) >> 1
         Signal("MCU_Brake_Request", Label(Flag(b0, 3, "Hold brake", "Release"))),  // & 0x08
         Signal("MCU Speed Request (RPM)", Whole(U(d, 3, 6) - 7000)),
         Signal("MCU Torque Request (Nm)", Fixed(U(d, 1, 3) - 10000, 1)) ])  // raw * 0.1 - 1000
  }

  function Parse0A0(d: seq<byte>): Result<seq<Signal>, ParseError> {
    var b7 :- At(d, 7);
    var b4 :- At(d, 4);
    Ok([ Signal("BMS Battery SOH (%)", Whole(b7)),
         Signal("BMS Battery SOC (%)", Fixed(40 * b4, 2)),                    // data[4] * 0.4, two places
         Signal("BMS Battery Voltage (V)", Fixed(10 * U(d, 2, 4), 2)) ])
  }

  /**
   * Reference table: the smallest payload for which the branch of `id`
   * indexes no byte past the end (its highest `data[k]` plus one).
   */
  function MinLength(id: int): nat {
    if id == 0x303 then 2
    else if id == 0x314 || id == 0x160 then 1
    else if id == 0x301 then 6
    else if id == 0x0A0 then 8
    else 0
  }

  /** Reference table: the signal names each identifier yields, in display order. */
  function SignalNames(id: int): seq<string> {
    if id == 0x303 then ["Vehicle Gear", "Drive_State_Mode", "Vehicle Speed Request (km/h)"]
    else if id == 0x314 then ["Direction Angle (deg)", "eps Control"]
    else if id == 0x304 then ["Vehicle Speed (km/h)", "Vehicle Wheel End Angle (deg)", "Vehicle Break Pressure (Mps)"]
    else if id == 0x301 then
      ["Brake Light", "Head Light", "Emergency Button", "Back Touch Switch State", "Front Touch Switch State"]
    else if id == 0x18F then ["EPS_Current_Angle (deg)", "EPS_ECU_Temperature (℃)"]
    else if id == 0x060 then ["BUS Voltage (V)", "BUS Current (A)"]
    else if id == 0x160 then
      ["Drive Mode", "MCU_Brake_Request", "MCU Speed Request (RPM)", "MCU Torque Request (Nm)"]
    else if id == 0x0A0 then ["BMS Battery SOH (%)", "BMS Battery SOC (%)", "BMS Battery Voltage (V)"]
    else []
  }

  function Names(sigs: seq<Signal>): (r: seq<string>)
    ensures |r| == |sigs|
    ensures forall i :: 0 <= i < |sigs| ==> r[i] == sigs[i].name
  {
    if |sigs| == 0 then [] else [sigs[0].name] + Names(sigs[1..])
  }

  /**
   * `CANParser.parse(can_id, data)`. An identifier without a branch gives
   * the empty mapping; a known one fails exactly when the payload is shorter
   * than the bytes its branch indexes, and otherwise yields the signals of
   * the reference table in order.
   */
  function Parse(id: int, d: seq<byte>): (r: Result<seq<Signal>, ParseError>)
    ensures id !in KnownIds ==> r == Ok([])
    ensures r.Ok? <==> |d| >= MinLength(id)
    ensures r.Ok? ==> Names(r.value) == SignalNames(id)
  {
    if id == 0x303 then Parse303(d)
    else if id == 0x314 then Parse314(d)
    else if id == 0x304 then Parse304(d)
    else if id == 0x301 then Parse301(d)
    else if id == 0x18F then Parse18F(d)
    else if id == 0x060 then Parse060(d)
    else if id == 0x160 then Parse160(d)
    else if id == 0x0A0 then Parse0A0(d)
    else Ok([])
  }

  /** The value shown for `name`, if the decoded list has it. */
  function Find(sigs: seq<Signal>, name: string): Option<Value> {
    if |sigs| == 0 then None
    else if sigs[0].name == name then Some(sigs[0].value)
    else Find(sigs[1..], name)
  }

  /** Lookup by name finds the entry at position i when no earlier entry has its name. */
  lemma {:induction false} FindAt(sigs: seq<Signal>, i: nat)
    requires i < |sigs|
    requires forall j :: 0 <= j < i ==> sigs[j].name != sigs[i].name
    ensures Find(sigs, sigs[i].name) == Some(sigs[i].value)
  {
    if i > 0 {
      FindAt(sigs[1..], i - 1);
    }
  }

  /** Reading the i-th name of the reference table gives the i-th decoded value. */
  lemma ReadingAt(id: int, d: seq<byte>, i: nat)
    requires |d| >= MinLength(id)
    requires i < |SignalNames(id)|
    ensures Reading(id, d, SignalNames(id)[i]) == Some(Parse(id, d).value[i].value)
  {
    var sigs := Parse(id, d).value;
    NamesDistinct(id);
    assert Names(sigs) == SignalNames(id);
    FindAt(sigs, i);
  }

  /** The value of signal `name` when decoding `d` as frame `id`. */
  function Reading(id: int, d: seq<byte>, name: string): Option<Value> {
    match Parse(id, d)
    case Ok(sigs) => Find(sigs, name)
    case Err(_) => None
  }

  /** A payload of a full eight bytes decodes for every identifier: no index, mask or lookup can fail. */
  lemma FullPayloadAlwaysDecodes(id: int, d: seq<byte>)
    requires |d| >= 8
    ensures Parse(id, d).Ok?
    ensures |Names(Parse(id, d).value)| <= 5
  {
  }

  /** The signal names of one identifier are distinct, as the keys of a Python dict are. */
  lemma NamesDistinct(id: int)
    ensures forall i, j :: 0 <= i < j < |SignalNames(id)| ==> SignalNames(id)[i] != SignalNames(id)[j]
  {
  }

  /** 0x303: gear and drive-state mode index four-entry tables by the low two bits; speed request in tenths. */
  lemma Frame303(d: seq<byte>)
    requires |d| >= 4
    ensures Reading(0x303, d, "Vehicle Gear") == Some(Label(GearLabels[d[0] % 4]))
    ensures Reading(0x303, d, "Drive_State_Mode") == Some(Label(StateModeLabels[d[1] % 4]))
    ensures Reading(0x303, d, "Vehicle Speed Request (km/h)") == Some(Fixed(Word(d[2], d[3]) - 800, 1))
  {
    ReadingAt(0x303, d, 0);
    ReadingAt(0x303, d, 1);
    ReadingAt(0x303, d, 2);
    UnsignedPair(d[2], d[3]);
    assert Slice(d, 2, 4) == [d[2], d[3]];
  }

  /** 0x314: the unsigned direction angle of bytes 1..2, and "Works" exactly when bit 0 of byte 0 is set. */
  lemma Frame314(d: seq<byte>)
    requires |d| >= 3
    ensures Reading(0x314, d, "Direction Angle (deg)") == Some(Whole(Word(d[1], d[2])))
    ensures 0 <= Word(d[1], d[2]) < 65536
    ensures Reading(0x314, d, "eps Control") == Some(Label("Works")) <==> Bit(d[0], 0)
  {
    ReadingAt(0x314, d, 0);
    ReadingAt(0x314, d, 1);
    UnsignedPair(d[1], d[2]);
    assert Slice(d, 1, 3) == [d[1], d[2]];
  }

  /** 0x304: speed and wheel angle in tenths with their offsets, brake pressure in hundredths. */
  lemma Frame304(d: seq<byte>)
    requires |d| >= 6
    ensures Reading(0x304, d, "Vehicle Speed (km/h)") == Some(Fixed(Word(d[0], d[1]) - 800, 1))
    ensures Reading(0x304, d, "Vehicle Wheel End Angle (deg)") == Some(Fixed(Word(d[4], d[5]) - 350, 1))
    ensures Reading(0x304, d, "Vehicle Break Pressure (Mps)") == Some(Fixed(Word(d[2], d[3]), 2))
    ensures -800 <= Word(d[0], d[1]) - 800 <= 64735
  {
    ReadingAt(0x304, d, 0);
    ReadingAt(0x304, d, 1);
    ReadingAt(0x304, d, 2);
    UnsignedPair(d[0], d[1]);
    UnsignedPair(d[4], d[5]);
    UnsignedPair(d[2], d[3]);
    assert Slice(d, 0, 2) == [d[0], d[1]];
    assert Slice(d, 4, 6) == [d[4], d[5]];
    assert Slice(d, 2, 4) == [d[2], d[3]];
  }

  /**
   * 0x304 never fails, even on a short payload: the missing bytes read as an
   * empty slice, so a two-byte frame shows wheel angle -35.0 and pressure 0.00.
   */
  lemma Frame304Short(d: seq<byte>)
    requires |d| == 2
    ensures Reading(0x304, d, "Vehicle Wheel End Angle (deg)") == Some(Fixed(-350, 1))
    ensures Reading(0x304, d, "Vehicle Break Pressure (Mps)") == Some(Fixed(0, 2))
  {
    ReadingAt(0x304, d, 0);
    ReadingAt(0x304, d, 1);
    ReadingAt(0x304, d, 2);
    assert Slice(d, 4, 6) == [];
    assert Slice(d, 2, 4) == [];
  }

  /** 0x301: every flag is a function of exactly one payload bit. */
  lemma Frame301OneBitEach(d: seq<byte>, e: seq<byte>)
    requires |d| >= 6 && |e| >= 6
    ensures Reading(0x301, d, "Brake Light") == Reading(0x301, e, "Brake Light") <==> (Bit(d[5], 0) <==> Bit(e[5], 0))
    ensures Reading(0x301, d, "Head Light") == Reading(0x301, e, "Head Light") <==> (Bit(d[1], 7) <==> Bit(e[1], 7))
    ensures Reading(0x301, d, "Emergency Button") == Reading(0x301, e, "Emergency Button")
            <==> (Bit(d[0], 0) <==> Bit(e[0], 0))
    ensures Reading(0x301, d, "Back Touch Switch State") == Reading(0x301, e, "Back Touch Switch State")
            <==> (Bit(d[1], 5) <==> Bit(e[1], 5))
    ensures Reading(0x301, d, "Front Touch Switch State") == Reading(0x301, e, "Front Touch Switch State")
            <==> (Bit(d[1], 4) <==> Bit(e[1], 4))
  {
    ReadingAt(0x301, d, 0);
    ReadingAt(0x301, e, 0);
    ReadingAt(0x301, d, 1);
    ReadingAt(0x301, e, 1);
    ReadingAt(0x301, d, 2);
    ReadingAt(0x301, e, 2);
    ReadingAt(0x301, d, 3);
    ReadingAt(0x301, e, 3);
    ReadingAt(0x301, d, 4);
    ReadingAt(0x301, e, 4);
  }

  /** 0x301: which label a set or clear bit shows. */
  lemma Frame301Labels(d: seq<byte>)
    requires |d| >= 6
    ensures Reading(0x301, d, "Brake Light") == Some(Label(if Bit(d[5], 0) then "ON" else "OFF"))
    ensures Reading(0x301, d, "Head Light") == Some(Label(if Bit(d[1], 7) then "ON" else "OFF"))
    ensures Reading(0x301, d, "Emergency Button") == Some(Label(if Bit(d[0], 0) then "Pressed" else "Not Pressed"))
    ensures Reading(0x301, d, "Back Touch Switch State") == Some(Label(if Bit(d[1], 5) then "trigger" else "Not trigger"))
    ensures Reading(0x301, d, "Front Touch Switch State") == Some(Label(if Bit(d[1], 4) then "trigger" else "Not trigger"))
  {
    ReadingAt(0x301, d, 0);
    ReadingAt(0x301, d, 1);
    ReadingAt(0x301, d, 2);
    ReadingAt(0x301, d, 3);
    ReadingAt(0x301, d, 4);
  }

  /** 0x18F: the signed angle and temperature stay within 16-bit and 8-bit two's-complement range. */
  lemma Frame18F(d: seq<byte>)
    requires |d| >= 7
    ensures Reading(0x18F, d, "EPS_Current_Angle (deg)").Some?
    ensures Reading(0x18F, d, "EPS_ECU_Temperature (℃)").Some?
    ensures var a := Reading(0x18F, d, "EPS_Current_Angle (deg)").value;
            a.Whole? && -32768 <= a.n <= 32767 && a.n % 65536 == Word(d[1], d[2])
    ensures var t := Reading(0x18F, d, "EPS_ECU_Temperature (℃)").value;
            t.Whole? && -128 <= t.n <= 127 && t.n % 256 == d[6]
  {
    ReadingAt(0x18F, d, 0);
    ReadingAt(0x18F, d, 1);
    UnsignedPair(d[1], d[2]);
    assert Slice(d, 1, 3) == [d[1], d[2]];
    assert Slice(d, 6, 7) == [d[6]];
    assert [d[6]][1..] == [];
    assert Pow256(2) == 65536;
  }

  /** 0x060: bus voltage and current in hundredths. */
  lemma Frame060(d: seq<byte>)
    requires |d| >= 4
    ensures Reading(0x060, d, "BUS Voltage (V)") == Some(Fixed(10 * (Word(d[0], d[1])), 2))
    ensures Reading(0x060, d, "BUS Current (A)") == Some(Fixed(10 * (Word(d[2], d[3])) - 100000, 2))
  {
    ReadingAt(0x060, d, 0);
    ReadingAt(0x060, d, 1);
    UnsignedPair(d[0], d[1]);
    UnsignedPair(d[2], d[3]);
    assert Slice(d, 0, 2) == [d[0], d[1]];
    assert Slice(d, 2, 4) == [d[2], d[3]];
  }

  /** 0x160: the mode index is bits 1..2 of byte 0, so it always lands in the four-entry table. */
  lemma Frame160(d: seq<byte>)
    requires |d| >= 6
    ensures (d[0] / 2) % 4 < |DriveModeLabels|
    ensures Reading(0x160, d, "Drive Mode") == Some(Label(DriveModeLabels[(d[0] / 2) % 4]))
    ensures Reading(0x160, d, "MCU_Brake_Request") == Some(Label("Hold brake")) <==> Bit(d[0], 3)
    ensures Reading(0x160, d, "MCU Speed Request (RPM)") == Some(Whole(d[3] as int + 256 * Word(d[4], d[5]) - 7000))
    ensures Reading(0x160, d, "MCU Torque Request (Nm)") == Some(Fixed(Word(d[1], d[2]) - 10000, 1))
  {
    ReadingAt(0x160, d, 0);
    ReadingAt(0x160, d, 1);
    ReadingAt(0x160, d, 2);
    ReadingAt(0x160, d, 3);
    UnsignedPair(d[1], d[2]);
    assert Slice(d, 1, 3) == [d[1], d[2]];
    var t := Slice(d, 3, 6);
    assert t == [d[3], d[4], d[5]];
    assert t[1..] == [d[4], d[5]];
    UnsignedPair(d[4], d[5]);
    assert Unsigned(t) == d[3] as int + 256 * Unsigned(t[1..]);
  }

  /** 0x0A0: SOH is byte 7 as is, SOC is byte 4 times 0.4 (so at most 102.00), voltage in hundredths. */
  lemma Frame0A0(d: seq<byte>)
    requires |d| >= 8
    ensures Reading(0x0A0, d, "BMS Battery SOH (%)") == Some(Whole(d[7]))
    ensures Reading(0x0A0, d, "BMS Battery SOC (%)") == Some(Fixed(40 * d[4] as int, 2))
    ensures 0 <= 40 * d[4] as int <= 10200
    ensures Reading(0x0A0, d, "BMS Battery Voltage (V)") == Some(Fixed(10 * (Word(d[2], d[3])), 2))
  {
    ReadingAt(0x0A0, d, 0);
    ReadingAt(0x0A0, d, 1);
    ReadingAt(0x0A0, d, 2);
    UnsignedPair(d[2], d[3]);
    assert Slice(d, 2, 4) == [d[2], d[3]];
  }
}
