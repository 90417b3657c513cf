# CAN vehicle-console core, modelled in Dafny

The repository is a set of PyQt tools for a small electric patrol vehicle:
`PatrolCar.py`, `PatrolCar_rev1.py`, `b.py`, `speed.py`,
`can_monitor_gui3.py` and `can_monitor_gui.py`. They all talk to the vehicle
over a CAN bus, and under their widgets they repeat the same wire-protocol
logic with small variations. This project models that logic as pure
functions on immutable data and proves properties of it:

- **Frame decoder** (`Decoder`, over `Bytes`). `CANParser.parse` dispatches
  on the CAN identifier and turns a payload into an ordered list of named
  signals. Scaled readings are integer fixed-point in the unit of the last
  printed digit. Python's slice clipping, `int.from_bytes` of an empty slice
  and the IndexError of `data[k]` are modelled exactly.
- **Drive-command encoder** (`DriveEncoder`). A (speed, angle) pair becomes
  gear and indicator codes, two packed 16-bit fields, and the ordered burst
  0x501, 0x503, 0x502, 0x506, 0x504. Speeds and angles are integers in
  hundredths, so `int(x / 0.1)` is an explicit truncation toward zero. Each
  variant is its own function:
  - PatrolCar.py uses strict-sign rules (`SignBurst`);
  - PatrolCar_rev1.py uses a 5-degree dead band (`DeadBandBurst`);
  - b.py and speed.py use a fixed gear and steering (`FixedSteeringBurst`).
- **Command scheduler** (`Scheduler`, `SignControl`, `DeadBandControl`,
  `FixedSteeringControl`; `ForwardCommand` for speed.py). The state is a
  record holding:
  - the stored `current_speed` / `current_angular`;
  - the connection;
  - the 500 ms repeat timer, reduced to an `armed` flag;
  - the log of bursts handed to the bus.

  Button handlers and timer ticks are transitions on that record.
- **Manual frame validators** (`ManualFrame`). The "Write CAN" form has four
  different rules for turning an identifier text and byte texts into a
  frame or an error:
  - `CheckedFrame` for PatrolCar.py;
  - `FlexibleFrame` for rev1;
  - `StrictFrame` for gui3 and gui;
  - `LegacyFrame` for b.py and PatrolCar's second form.
- **Display tables** (`Rows`, `ScanTables`, `MappedTable`).
  - The scanning upsert of PatrolCar.py, rev1 and b.py keeps one row per key.
  - The gui3/gui raw table also keeps an identifier-to-row map, the arrival
    list and the smallest identifier seen. The smallest identifier goes on
    row 0.
- **Receive tick** (`Receiver`). `read_can_messages` takes up to 100 waiting
  frames per timer tick and shows each in the raw table and then (except in
  b.py) in the decoded table. A frame too short for its decoder raises
  inside the decoded-table update. That ends the batch: the frame reached
  the raw table only, and the rest of the batch waits for the next tick.
  PatrolCar.py, b.py, gui3 and gui only print the error. PatrolCar_rev1.py
  also stops the read timer and disconnects (`DeadBandControl.AfterRead`).

`Hex` models `str.strip`, `hex(n)` and a plain hex-digit reading of
`int(s, 16)`. `Wrappers` holds the `Option` / `Result` types.

The three copies of `CANParser.parse` (PatrolCar.py, PatrolCar_rev1.py and
can_monitor_gui3.py) have the same branches and constants, so one
`Decoder.Parse` models all three. can_monitor_gui.py's parser is a stub,
`ScanTables.StubParse`.

Points where the code behaves differently from what one might expect:

- Decoding fails as a whole or not at all. Every enumeration index is
  masked into its four-entry table, so no label lookup can fail. A payload
  too short for its branch raises IndexError, which aborts the whole decode:
  the decoded-signal table is left untouched, the receive tick ends, and in
  PatrolCar_rev1.py the bus is disconnected (`Receiver.ReadTick`,
  `DeadBandControl.MalformedFrameDisconnects`).
- PatrolCar_rev1.py sends a new command at once, even while the repeat is
  armed (`DeadBandControl.CommandWhileArmedSendsAtOnce`). It is not
  deferred to the next tick.
- `clear_tables` in can_monitor_gui3.py and can_monitor_gui.py empties the
  rows but keeps the identifier map. This breaks the table's invariant, and
  later frames can be shown under another identifier's label; see Findings.
- PatrolCar_rev1.py:82 is a bare `---` line, which Python rejects as a
  syntax error. The model describes the file as if that line were absent.

## Model

| member | source | states |
|---|---|---|
| Bytes.Unsigned | PatrolCar.py:26 | `int.from_bytes(..., 'little')` of n bytes is a value in [0, 256^n); the empty slice reads as 0 |
| Bytes.Signed | can_monitor_gui3.py:47-48 | signed little-endian reading lies in the two's-complement range of its width and agrees with the unsigned reading modulo 256^n |
| Bytes.Slice | PatrolCar.py:35-38 | Python slicing `d[lo:hi]` clips to the payload: its length is max(0, min(hi, len) - lo) and it holds the payload's bytes from lo |
| Bytes.SplitModulo | PatrolCar.py:311-318 | the bytes `v & 0xFF` and `(v >> 8) & 0xFF` recombine as lo + 256·hi == v mod 65536, for every integer v, negative ones included |
| Bytes.SplitJoin | PatrolCar.py:311-318 | for 0 <= v < 65536 the low/high split recombines to v exactly |
| Bytes.TruncDiv | PatrolCar.py:311 | `int(x / 0.1)` on hundredths truncates toward zero: for x >= 0, r·d <= x < (r+1)·d; for x < 0, (r−1)·d < x <= r·d |
| Hex.Strip | PatrolCar_rev1.py:265 | `str.strip()` removes leading and trailing ASCII whitespace (the six C white-space characters and 0x1C..0x1F) only: the result is the text from its first non-space, neither of its ends is a space, only spaces follow it, and it is empty iff the text is all whitespace |
| Hex.ParseHex | PatrolCar_rev1.py:270-273 | `int(text, 16)` succeeds exactly on non-empty texts of ASCII hex digits (the wider forms Python also accepts are listed under Left out) |
| Hex.ParseHexDigit | PatrolCar_rev1.py:270-273 | a single hex digit reads as its digit value |
| Hex.ParseHexAppend | PatrolCar_rev1.py:270-273 | appending a digit to a hex text multiplies its value by 16 and adds the digit: digits are read most significant first, so with ParseHexDigit the value of every accepted text is fixed |
| Hex.ParseHexIgnoresCase | PatrolCar_rev1.py:270-273 | `int(text, 16)` reads upper- and lower-case digits alike: lower-casing a text changes neither acceptance nor value |
| Hex.ParseHexLeadingZero | PatrolCar_rev1.py:270-273 | a leading zero does not change the value of a non-empty text |
| Hex.Digits | PatrolCar.py:341 | the digits `hex(n)` prints after `0x` are non-empty hex digits with no leading zero |
| Hex.ParseDigits | PatrolCar_rev1.py:396 | reading the digits of `hex(n)` back as base 16 gives n: the identifier shown in the raw table determines the identifier |
| Hex.HexTextInjective | PatrolCar_rev1.py:401-402 | distinct identifiers have distinct `hex()` texts, so the raw table's text comparison is a comparison of identifiers |
| Decoder.Parse | PatrolCar.py:18-67 | an identifier without a branch yields the empty mapping; a known identifier decodes exactly when the payload reaches the bytes its branch indexes, and the names come out in the branch's order |
| Decoder.FullPayloadAlwaysDecodes | PatrolCar.py:21-24 | with a full eight-byte payload no identifier's decode can fail: every masked enumeration index stays in its four-entry table |
| Decoder.NamesDistinct | PatrolCar.py:18-67 | the signal names of one identifier are pairwise distinct, as the keys of the returned dict |
| Decoder.ReadingAt | PatrolCar.py:18-67 | looking up the i-th name of a decoded frame returns the i-th decoded value |
| Decoder.Frame303 | can_monitor_gui3.py:19-26 | 0x303: gear and drive-state labels are indexed by the low two bits of bytes 0 and 1; speed request = u16le(b2,b3) − 800 tenths |
| Decoder.Frame314 | can_monitor_gui3.py:28-31 | 0x314: direction angle is the unsigned u16le(b1,b2) in [0, 65536); "Works" is shown if and only if bit 0 of byte 0 is set |
| Decoder.Frame304 | PatrolCar.py:34-38 | 0x304: speed = u16le(b0,b1) − 800 tenths, wheel angle = u16le(b4,b5) − 350 tenths, brake pressure = u16le(b2,b3) hundredths |
| Decoder.Frame304Short | PatrolCar.py:34-38 | a two-byte 0x304 payload still decodes: the clipped slices read as 0, giving wheel angle −35.0 and pressure 0.00 |
| Decoder.Frame301OneBitEach | PatrolCar_rev1.py:49-54 | each 0x301 flag reading depends on exactly one bit: two payloads show the same value if and only if that bit agrees |
| Decoder.Frame301Labels | PatrolCar_rev1.py:49-54 | 0x301: brake light ON iff bit 0 of byte 5, head light ON iff bit 7 of byte 1, emergency button "Pressed" iff bit 0 of byte 0, back and front touch switch "trigger" iff bits 5 and 4 of byte 1; OFF / "Not Pressed" / "Not trigger" otherwise |
| Decoder.Frame18F | can_monitor_gui3.py:46-48 | 0x18F: the angle is the signed 16-bit reading of b1..b2, in [−32768, 32767]; the temperature is signed b6, in [−128, 127] |
| Decoder.Frame060 | PatrolCar.py:51-53 | 0x060: bus voltage u16le(b0,b1) tenths and bus current u16le(b2,b3) − 10000 tenths, shown in hundredths |
| Decoder.Frame160 | PatrolCar.py:55-60 | 0x160: the mode index `(b0 & 0x06) >> 1` is always inside the four-entry table; brake-hold iff bit 3; speed request from the 24-bit b3..b5 minus 7000; torque u16le(b1,b2) − 10000 tenths |
| Decoder.Frame0A0 | PatrolCar_rev1.py:75-78 | 0x0A0: SOH is byte 7 as is; SOC is byte 4 × 0.4, hence at most 102.00; voltage is u16le(b2,b3) tenths |
| DriveEncoder.Burst | PatrolCar.py:320-329 | a burst is exactly five standard eight-byte frames, with identifiers 0x501, 0x503, 0x502, 0x506, 0x504 in that order |
| DriveEncoder.SignBurst | PatrolCar.py:291-329 | PatrolCar.py's burst: gear R iff the speed is negative, N iff stand-still with a straight wheel, D iff the speed is positive or the wheel is turned at stand-still; indicator left iff the angle is positive, right iff negative, off (0x00) iff it is 0; the speed field reads back as the magnitude in tenths and the steering field as (angle + 30) in tenths, both modulo 2^16 |
| DriveEncoder.DeadBandBurst | PatrolCar_rev1.py:328-379 | rev1's burst: gear R iff the speed is negative, N iff it is zero, D iff it is positive; indicator left iff the angle exceeds 5 degrees, right iff it is below −5, off (0x00) iff it is within ±5; the speed field is the magnitude in tenths, the steering field (angle + 30) in tenths, modulo 2^16 |
| DriveEncoder.FixedSteeringBurst | b.py:140-157 | b.py's burst: always gear D and no indicator; the speed field is the signed speed in tenths modulo 2^16 |
| DriveEncoder.BurstFieldPlacement | PatrolCar_rev1.py:364-379 | two bursts differ only in 0x502 bytes 4..5 (steering), 0x506 byte 0 (indicator), 0x504 byte 3 (gear) and 0x504 bytes 6..7 (speed), and each only when its own input differs |
| DriveEncoder.SignBurstConstantBytes | PatrolCar.py:320-329 | in PatrolCar.py's burst only 0x502 bytes 4..5, 0x506 byte 0 and 0x504 bytes 3, 6, 7 vary with the command |
| DriveEncoder.DeadBandBurstInputsSeparate | PatrolCar_rev1.py:352-379 | in rev1's burst the speed reaches only 0x504 bytes 3, 6, 7 and the angle only 0x502 bytes 4..5 and 0x506 byte 0 |
| DriveEncoder.FixedSteeringBurstConstantBytes | b.py:148-157 | in b.py's burst only 0x504 bytes 6..7 vary; the gear byte is always D (0x01) and the indicator byte always 0x00 |
| DriveEncoder.BurstFieldsReadBack | PatrolCar.py:311-318 | the packed steering and speed fields read back little-endian as the field modulo 2^16, with no clamp; gear and indicator sit in their bytes |
| DriveEncoder.SignBurstSpeedReadBack | PatrolCar.py:292-318 | PatrolCar.py packs the magnitude of the speed in tenths whatever its sign, and the steering as (angle + 30) in tenths when that fits |
| DriveEncoder.ReverseMirrorsForward | PatrolCar.py:292-295 | a negative speed gives the same burst as its magnitude except the gear byte, which is R instead of D |
| DriveEncoder.GearRulesDiffer | PatrolCar.py:292-299 | the strict-sign gear rule and rev1's neutral-default rule (PatrolCar_rev1.py:333-338) agree except at speed 0 with a non-zero angle, where the first gives D and the second N |
| DriveEncoder.IndicatorRulesDiffer | PatrolCar_rev1.py:341-345 | rev1's indicator is off exactly within ±5 degrees; PatrolCar.py's (301-307) is off exactly at 0; the two agree iff the angle is 0 or beyond ±5 |
| DriveEncoder.SteeringTruncatesTowardZero | PatrolCar.py:315-316 | `int()` truncates toward zero: an angle just below −30 degrees packs as 0, not −1 |
| DriveEncoder.SignBurstExamples | PatrolCar.py:291-329 | worked bursts: 10 km/h straight is D with speed bytes [100, 0]; −5 km/h is R with [50, 0]; stand-still straight is N; stand-still turned is D (rev1: N) |
| DriveEncoder.FixedSteeringNegativeSpeed | b.py:141-143 | b.py takes no absolute value: a negative speed is sent as the 16-bit two's complement of its tenths, still in gear D |
| DriveEncoder.FixedSteeringField | b.py:144-146 | the steering field is int((10 + 30) / 0.1) = 400 for every speed |
| Scheduler.Connect | PatrolCar.py:181-190 | connecting succeeds only when the bus opens; connecting twice changes nothing; the stored command, timer and log are untouched |
| Scheduler.Disconnect | PatrolCar.py:192-198 | disconnecting stops the repeat and drops the bus; without a bus it changes nothing |
| Scheduler.ConnectionKeepsValid | PatrolCar.py:181-198 | (dis)connection keeps the invariant that the repeat runs only on a live bus with a stored angle |
| SignControl.SendDriveCommand | PatrolCar.py:258-289 | succeeds iff connected and both texts are numbers, then sends one burst and arms the repeat; the speed is stored as soon as it parses, even when the angle is then rejected; a rejection sends nothing |
| SignControl.Tick | PatrolCar.py:331-332 | an armed tick re-sends the burst of the stored speed and angle; an unarmed one does nothing |
| SignControl.Stop | PatrolCar.py:334-337 | with a bus, stop disarms and sends exactly one (0, 0) burst; without one, nothing changes |
| SignControl.HandlersKeepValid | PatrolCar.py:258-337 | every handler keeps the repeat from running without a bus or a stored angle |
| SignControl.StartThenStop | PatrolCar.py:286-337 | a command followed by stop sends exactly the command burst then the (0, 0) burst and leaves the repeat off |
| SignControl.BadAngleChangesHeartbeat | PatrolCar.py:271-289 | a rejected angle while the repeat runs sends nothing but changes the repeat: the next tick sends the new speed with the old angle |
| SignControl.NoBusSendsNothing | PatrolCar.py:258-261 | without a bus a tick and a stop change nothing and a command is refused with no state change (stop's guard is at PatrolCar.py:334-337); a fresh window is such a state |
| DeadBandControl.SendDriveCommand | PatrolCar_rev1.py:297-326 | both fields are checked (emptiness, then number syntax) before any state changes; success iff connected and both are numbers, then one burst is sent and the repeat armed |
| DeadBandControl.Tick | PatrolCar_rev1.py:381-383 | an armed tick re-sends the stored command's burst; an unarmed one does nothing |
| DeadBandControl.Stop | PatrolCar_rev1.py:385-392 | with a bus, stop disarms and sends exactly one (0, 0) burst; without one, nothing changes |
| DeadBandControl.HandlersKeepValid | PatrolCar_rev1.py:297-392 | every handler, including the receive tick's error branch, keeps the repeat from running without a bus or a stored angle |
| DeadBandControl.AfterRead | PatrolCar_rev1.py:239-244 | a receive tick that raised on a live bus disconnects, which also stops the repeat; a tick that did not raise changes nothing; no burst is sent either way |
| DeadBandControl.MalformedFrameDisconnects | PatrolCar_rev1.py:229-244 | one frame too short for its decoder while the repeat runs ends the session: the tick takes that frame only, the bus is dropped, ticks send nothing and commands are refused |
| DeadBandControl.StopBurstIsNeutral | PatrolCar_rev1.py:385-392 | the stop burst is in gear N, with no indicator and speed bytes 0 |
| DeadBandControl.CommandWhileArmedSendsAtOnce | PatrolCar_rev1.py:319-323 | a new command while the repeat runs goes out at once, and the following tick repeats it |
| FixedSteeringControl.SendDriveCommand | b.py:129-138 | succeeds iff connected and the text is a number; then the speed is stored, one burst is sent and the repeat armed; otherwise nothing changes |
| FixedSteeringControl.Tick | b.py:159-160 | an armed tick re-sends the burst of the stored speed |
| FixedSteeringControl.Stop | b.py:162-166 | with a bus, stop disarms and sends exactly one burst at speed 0 |
| FixedSteeringControl.HandlersKeepReady | b.py:87-166 | every handler and (dis)connection keeps the repeat from running without a bus |
| FixedSteeringControl.CommandTickStop | b.py:129-166 | command, tick, stop sends the command burst twice then the zero burst, after which ticks send nothing |
| ForwardCommand.SendForward | speed.py:48-98 | without a bus nothing is sent; otherwise the two 0x10a frames go first; a bad speed text stops there; a good one adds 0x501, 0x503, 0x502, 0x506, 0x504 |
| ForwardCommand.ControlFramesDifferInByteTwo | speed.py:54-60 | the two 0x10a control frames differ only in byte 2, 0x00 then 0x02 |
| ForwardCommand.ForwardFields | speed.py:64-81 | the speed field sits in 0x504 bytes 6..7 with gear byte D; the steering field in 0x502 bytes 4..5 is 400 |
| ManualFrame.AsBytes | PatrolCar.py:239 | `can.Message` accepts the values iff all are below 256, and then carries them unchanged |
| ManualFrame.FilledValues | PatrolCar.py:235 | `[int(f, 16) for f in fields if f]` succeeds iff every non-empty field is hex, and then value k is what `int(f, 16)` reads from the k-th non-empty field; the error names a field at or after the first |
| ManualFrame.AllValues | can_monitor_gui3.py:218-219 | gui3 requires every field: success iff all are hex, value k is field k's reading, and an empty field is an error |
| ManualFrame.StrippedBytes | PatrolCar_rev1.py:277-287 | rev1 strips each field and skips blank ones: success iff every remaining field is hex in 00..FF, and then byte k is the reading of the k-th non-blank stripped field; the error names a field at or after the first |
| ManualFrame.CheckedFrame | PatrolCar.py:224-242 | PatrolCar.py sends iff connected, the stripped identifier is hex, and exactly eight fields are filled, each hex in 00..FF; data byte k is then the k-th filled field's reading, the identifier the stripped text's value, and the frame is extended iff the identifier exceeds 0x7FF; an empty stripped identifier is its own error |
| ManualFrame.FlexibleFrame | PatrolCar_rev1.py:261-293 | rev1 sends iff connected, the stripped identifier is hex, and at most eight stripped fields are non-blank, each hex in 00..FF; data byte k is then the k-th non-blank field's reading (so the DLC is their count), and the frame is extended iff the identifier exceeds 0x7FF; at most eight fields never give "too long" |
| ManualFrame.StrictFrame | can_monitor_gui3.py:211-229 | gui3 (and gui, can_monitor_gui.py:184-201) sends iff connected, the identifier is hex, and there are exactly eight fields, each non-empty hex in 00..FF; byte k is then field k's reading, and the frame is standard whatever the identifier |
| ManualFrame.LegacyFrame | b.py:116-127 | b.py (and PatrolCar.py:244-256) sends iff connected, the unstripped identifier is hex, and exactly eight fields are filled, each hex in 00..FF; data byte k is then the k-th filled field's reading, and the frame is always standard |
| ManualFrame.CheckedFrameRoundTrip | PatrolCar.py:224-242 | typing `hex` digits of an identifier and eight bytes yields exactly that frame, extended iff the identifier exceeds 0x7FF |
| ManualFrame.FlexibleFrameRoundTrip | PatrolCar_rev1.py:261-293 | typing the digits of an identifier and up to eight bytes yields exactly that frame |
| ManualFrame.StrictFrameRoundTrip | can_monitor_gui3.py:216-226 | typing the digits of an identifier and eight bytes yields that frame as a standard frame |
| ManualFrame.LegacyFrameRoundTrip | b.py:116-125 | typing the digits of an identifier and eight bytes yields that frame as a standard frame |
| ManualFrame.BlankFieldRules | PatrolCar_rev1.py:277-290 | seven bytes and one blank field: rev1 sends a seven-byte frame, PatrolCar.py and b.py refuse with "DLC must be 8", gui3 refuses the empty field |
| Rows.Upserted | PatrolCar.py:340-351 | the scanning upsert rewrites the first row with the key in place, or appends one row when no row has it |
| Rows.Upsert | PatrolCar.py:343-351 | the row-by-row scan loop computes the same table as the upsert |
| Rows.UpsertedLookup | PatrolCar_rev1.py:401-412 | after an upsert the key reads the new value and every other key reads as before |
| Rows.UpsertedKeys | b.py:168-179 | an upsert adds exactly the key to the key set, adds a row iff the key was new, and keeps one row per key |
| ScanTables.ShowRaw | PatrolCar_rev1.py:394-412 | the raw table shows the frame's DLC and data under `hex(id)`, every other identifier reads as before, the row count grows iff the identifier is new, and rows stay one per identifier |
| ScanTables.ShowSignalsLookup | PatrolCar.py:353-367 | after showing a decoded frame, each decoded name reads its decoded value and every other name reads as before |
| ScanTables.ShowParsedReads | PatrolCar.py:353-367 | `update_parsed_table` (and rev1's copy, PatrolCar_rev1.py:414-431): the decoded-signal table reads each signal of the frame as the decoder's reading for that name, leaves other names alone, is untouched when the decode raises, and keeps one row per name |
| Receiver.Show | PatrolCar.py:206-207 | one frame is shown under `hex(id)` in the raw table; when decoded, every signal it carries reads as decoded; a malformed frame or b.py's raw-only loop leaves the decoded table as it was |
| Receiver.Take | PatrolCar.py:200-209 | the loop takes at most the budget and at most the waiting frames; it raises only right after a malformed frame and only when decoding; otherwise it takes min(100, waiting) frames |
| Receiver.TakeFailsOnMalformed | PatrolCar_rev1.py:229-244 | the loop raises exactly when a frame within the budget is malformed |
| Receiver.TakeWellFormedPrefix | PatrolCar_rev1.py:233-238 | every frame taken before the last one decoded without raising |
| Receiver.TakeShowsTakenFrames | b.py:106-114 | the tables after the loop are the taken frames shown one after the other, the one that raised included, nothing after it |
| Receiver.ReadTick | PatrolCar_rev1.py:229-238 | one tick takes at most 100 frames; it raises iff a frame among the first min(100, waiting) is malformed, then stops at the first such frame; the tables are the taken frames shown in order |
| ScanTables.Cleared | PatrolCar.py:369-371 | after a clear no key is shown |
| ScanTables.ShownAfterClear | b.py:181-182 | after a clear the next frame becomes the only row |
| ScanTables.StubParsedTableUnchanged | can_monitor_gui.py:21-24 | the stub parser decodes every frame to nothing, so the decoded-signal table never changes |
| MappedTable.Update | can_monitor_gui3.py:231-256 | a known identifier keeps the map and row count and rewrites only its own row; a new one is recorded and either inserted on row 0 with every mapped row shifted down (new minimum) or appended |
| MappedTable.UpdateKeepsConsistent | can_monitor_gui3.py:240-256 | every update keeps the map a bijection from the identifiers seen onto the rows, each row showing its identifier, with the smallest identifier on row 0 |
| MappedTable.ConsistentIsInjective | can_monitor_gui3.py:240-256 | in a consistent table distinct identifiers map to distinct rows |
| MappedTable.Shifted | can_monitor_gui.py:218-219 | shifting keeps the identifiers and moves each one row down |
| MappedTable.PushedOnTop | can_monitor_gui.py:214-224 | inserting a new minimum on row 0 and shifting every entry keeps each mapped row showing its identifier |
| MappedTable.AppendedAtEnd | can_monitor_gui3.py:244-252 | appending a new non-minimum identifier keeps each mapped row showing its identifier and every row mapped |
| MappedTable.UpdateShowsFrame | can_monitor_gui.py:212-228 | after an update the identifier's mapped row exists and shows that frame |
| MappedTable.Clear | can_monitor_gui3.py:281-283 | a clear removes every row but keeps the map, the arrival list and the minimum |
| MappedTable.ClearBreaksConsistency | can_monitor_gui3.py:281-283 | once any identifier has been seen, a clear leaves the map pointing at rows that no longer exist |
| MappedTable.ClearHidesKnownIdentifier | can_monitor_gui.py:225-228 | the next frame after a clear, when its identifier is known, changes nothing: it is not shown |
| MappedTable.ClearMisattributes | can_monitor_gui3.py:240-256 | after a clear, a new identifier above the minimum is appended on row 0; a known identifier whose stale row is 0 then rewrites that row, so its bytes are shown under the other identifier's label |
| MappedTable.ClearThenNewMinimum | can_monitor_gui.py:253-255 | after a clear a new smallest identifier becomes the only row while every earlier identifier maps beyond the table |
| MappedTable.Reset | can_monitor_gui3.py:235-238 | the intended clear starts over from the lazily created state: no rows, no identifiers, consistent |
| MappedTable.ResetShowsEveryFrame | can_monitor_gui3.py:240-252 | after the intended clear the next frame, known before or not, is shown on the only row |
| MappedTable.ResetKeepsConsistent | can_monitor_gui3.py:240-256 | after the intended clear the next update leaves the table consistent |
| MappedTable.UpdateAllKeepsConsistent | can_monitor_gui3.py:240-256 | any run of updates keeps a consistent table consistent |
| MappedTable.ResetLabelsEveryRow | can_monitor_gui3.py:240-256 | after the intended clear and any frames, every identifier seen maps to a row labelled with it, and the latest frame is shown on its own row: nothing is mis-attributed |

## Left out

- Qt widgets, layouts, dialogs and message boxes. A table is a sequence of
  keyed rows, and a message box is the error value of a `Result`.
- The python-can `Bus`: opening, `recv`, `send` and `shutdown`. Sending
  appends to a log of bursts. `Connect` takes the outcome of opening the bus
  as a parameter. Transport errors during a send are not modelled.
- Receiver: `bus.recv` is the queue of waiting frames, given as a
  parameter. Errors raised by `recv` itself are not modelled. `ReadTick`
  instantiates the loop with the scanning tables of PatrolCar.py, rev1 and
  b.py. In gui3 and gui the same loop (`Receiver.Take`, which is generic in
  the per-frame update) would drive `MappedTable.Update`, but that instance
  is not written out.
- `QTimer` and `time.sleep`. The repeat timer is the `armed` flag, ticks
  are explicit calls, and there is no real time.
- Floating point. Speeds and angles are integers in hundredths, and
  `int(x / 0.1)` is exact truncation toward zero. Binary-float artefacts are
  not reproduced (`int(0.3 / 0.1)` is 2 in Python, 3 here), and neither are
  inputs with more than two decimals, NaN or infinity.
- f-string formatting. Decoded values are `Fixed(units, places)`,
  `Whole(n)` or `Label(text)`, not display strings.
- JSON configuration load/save and the `QFileDialog` interface selection,
  which are file I/O.
- `toggle_brake`, `close_app` and `send_continuous_velocities` in
  can_monitor_gui.py. They start subprocesses and ROS publishers and
  reference names the file never defines.
- can_monitor_gui - 복사본.py, an older copy of can_monitor_gui.py, is not
  part of this model.
- Hex.ParseHex: `int(s, 16)` also accepts a `0x` prefix, a sign,
  underscores, surrounding whitespace, and any Unicode decimal digit for
  the values 0-9 (fullwidth `３`, Arabic-Indic `٣`). The model reads plain
  ASCII hex digits only, so those texts are errors here, in every form
  validator that reads bytes with `int(f, 16)` (`ManualFrame`).
- Hex.Strip: strips the ASCII whitespace `str.isspace` accepts (space, tab,
  newline, carriage return, vertical tab, form feed and 0x1C..0x1F). Non-ASCII
  whitespace such as U+0085 or U+00A0, which Python also strips, is kept.
- `send_can_frame_bak` of PatrolCar.py (211-222) has the same rule as
  `send_can_frame2`, which `ManualFrame.LegacyFrame` models.
- Scheduler `Entry`: the speed and angle texts are classified as blank, not
  a number, or a number in hundredths. `float()` parsing itself is not
  modelled.

## Findings

| source | as written | input that shows it | evidently intended | confidence | as-written member | corrected member |
|---|---|---|---|---|---|---|
| can_monitor_gui3.py:281-283 (also can_monitor_gui.py:253-255) | `clear_tables` sets the row count to 0 but keeps `can_id_row_map`, `received_can_ids` and `min_can_id`, so a known identifier's `setItem` targets a row that no longer exists | frames 0x100 then 0x200, then clear, then 0x300 (appended on row 0, the only row), then 0x100: 0x100's stale row is 0, so its DLC and data are written into the row labelled 0x300; a 0x200 right after the clear is not shown at all | clearing also resets the bookkeeping, so that every later frame is shown on a row labelled with its own identifier | high (not executed) | MappedTable.ClearMisattributes | MappedTable.ResetLabelsEveryRow |
