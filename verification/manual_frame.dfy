/**
 * The "Write CAN" form: an identifier text and a list of byte texts become
 * one frame, or a message box. Each GUI validates differently; each rule is
 * its own function. Hex texts are read by `Hex.ParseHex`, and a value above
 * 0xFF that reaches `can.Message` fails in its `bytearray(data)`.
 */
module ManualFrame {
  import opened Wrappers
  import opened Bytes
  import opened Hex
  import opened DriveEncoder

  datatype SendError =
    | NotConnected
    | EmptyId          // the stripped identifier text is empty
    | BadId            // `int(text, 16)` raised on the identifier
    | EmptyField       // a byte field is empty where the rule forbids it
    | BadByte(index: nat)  // `int(text, 16)` raised on a byte field (rev1 also: value above 0xFF)
    | WrongLength      // "DLC must be 8."
    | TooLong          // more than eight bytes
    | ByteRange        // `bytearray` refused a value above 0xFF

  /** The largest standard (11-bit) identifier. */
  const MaxStandardId: nat := 0x7FF

  /** The texts that are not empty, in order: the fields `if f.text()` keeps. */
  function Filled(fields: seq<string>): (r: seq<string>)
    ensures |r| <= |fields|
    ensures forall k :: 0 <= k < |r| ==> |r[k]| > 0
  {
    if |fields| == 0 then [] else (if |fields[0]| > 0 then [fields[0]] else []) + Filled(fields[1..])
  }

  /** The stripped texts that are not blank, in order: the fields rev1 reads. */
  function NonBlank(fields: seq<string>): (r: seq<string>)
    ensures |r| <= |fields|
    ensures forall k :: 0 <= k < |r| ==> |r[k]| > 0
  {
    if |fields| == 0 then [] else (if |Strip(fields[0])| > 0 then [Strip(fields[0])] else []) + NonBlank(fields[1..])
  }

  /** A text `int(t, 16)` reads as a value in 00..FF. */
  predicate ByteText(t: string) {
    ParseHex(t).Some? && ParseHex(t).value < 256
  }

  /** Every text is hex. */
  predicate AllHex(ts: seq<string>) {
    forall k :: 0 <= k < |ts| ==> ParseHex(ts[k]).Some?
  }

  /** Every text is hex in 00..FF. */
  predicate AllBytes(ts: seq<string>) {
    forall k :: 0 <= k < |ts| ==> ByteText(ts[k])
  }

  /** `vs` is what `int(t, 16)` reads from each text of `ts`, in order. */
  predicate Reads(ts: seq<string>, vs: seq<int>) {
    |ts| == |vs| && forall k :: 0 <= k < |ts| ==> ParseHex(ts[k]) == Some(vs[k])
  }

  lemma FilledCons(fields: seq<string>)
    requires |fields| > 0
    ensures |fields[0]| == 0 ==> Filled(fields) == Filled(fields[1..])
    ensures |fields[0]| > 0 ==> Filled(fields) == [fields[0]] + Filled(fields[1..])
  {
    if |fields[0]| == 0 {
      assert [] + Filled(fields[1..]) == Filled(fields[1..]);
    }
  }

  lemma NonBlankCons(fields: seq<string>)
    requires |fields| > 0
    ensures |Strip(fields[0])| == 0 ==> NonBlank(fields) == NonBlank(fields[1..])
    ensures |Strip(fields[0])| > 0 ==> NonBlank(fields) == [Strip(fields[0])] + NonBlank(fields[1..])
  {
    if |Strip(fields[0])| == 0 {
      assert [] + NonBlank(fields[1..]) == NonBlank(fields[1..]);
    }
  }

  lemma AllHexCons(t: string, ts: seq<string>)
    ensures AllHex([t] + ts) <==> ParseHex(t).Some? && AllHex(ts)
  {
    var c := [t] + ts;
    assert c[0] == t;
    assert forall k :: 0 <= k < |ts| ==> c[k + 1] == ts[k];
  }

  lemma AllBytesCons(t: string, ts: seq<string>)
    ensures AllBytes([t] + ts) <==> ByteText(t) && AllBytes(ts)
  {
    var c := [t] + ts;
    assert c[0] == t;
    assert forall k :: 0 <= k < |ts| ==> c[k + 1] == ts[k];
  }

  lemma ReadsCons(t: string, ts: seq<string>, v: int, vs: seq<int>)
    ensures Reads([t] + ts, [v] + vs) <==> ParseHex(t) == Some(v) && Reads(ts, vs)
  {
    var c, w := [t] + ts, [v] + vs;
    assert c[0] == t && w[0] == v;
    assert forall k :: 0 <= k < |ts| ==> c[k + 1] == ts[k];
    assert forall k :: 0 <= k < |vs| ==> w[k + 1] == vs[k];
  }

  /** `bytearray(values)`: every value must be below 256. */
  function AsBytes(values: seq<nat>): (r: Result<seq<byte>, SendError>)
    ensures r.Ok? <==> forall k :: 0 <= k < |values| ==> values[k] < 256
    ensures r.Ok? ==> r.value == values
  {
    if forall k :: 0 <= k < |values| ==> values[k] < 256 then Ok(seq(|values|, k requires 0 <= k < |values| => values[k] as byte))
    else Err(ByteRange)
  }

  /** `[int(f, 16) for f in fields if f]`: empty texts are skipped, the rest must be hex. */
  function FilledValues(fields: seq<string>, index: nat): (r: Result<seq<nat>, SendError>)
    ensures r.Ok? <==> AllHex(Filled(fields))
    ensures r.Ok? ==> Reads(Filled(fields), r.value)
    ensures r.Err? ==> r.error.BadByte? && r.error.index >= index
  {
    if |fields| == 0 then Ok([])
    else
      var rest := FilledValues(fields[1..], index + 1);
      FilledCons(fields);
      if |fields[0]| == 0 then rest
      else
        AllHexCons(fields[0], Filled(fields[1..]));
        var v :- ParseHex(fields[0]).ToResult(BadByte(index));
        var vs :- rest;
        ReadsCons(fields[0], Filled(fields[1..]), v, vs);
        Ok([v] + vs)
  }

  /** gui3 / gui: every field must be non-empty hex, checked in order. */
  function AllValues(fields: seq<string>, index: nat): (r: Result<seq<nat>, SendError>)
    ensures r.Ok? <==> AllHex(fields)
    ensures r.Ok? ==> Reads(fields, r.value)
    ensures (exists k :: 0 <= k < |fields| && |fields[k]| == 0) && r.Err? ==> r.error == EmptyField || r.error.BadByte?
  {
    if |fields| == 0 then Ok([])
    else if |fields[0]| == 0 then Err(EmptyField)
    else
      assert fields == [fields[0]] + fields[1..];
      AllHexCons(fields[0], fields[1..]);
      var v :- ParseHex(fields[0]).ToResult(BadByte(index));
      var rest :- AllValues(fields[1..], index + 1);
      ReadsCons(fields[0], fields[1..], v, rest);
      Ok([v] + rest)
  }

  /**
   * rev1: each field is stripped; blank ones are skipped, the rest must be
   * hex in 00..FF. `index` is the 1-based field number in the message.
   */
  function StrippedBytes(fields: seq<string>, index: nat): (r: Result<seq<byte>, SendError>)
    ensures r.Ok? <==> AllBytes(NonBlank(fields))
    ensures r.Ok? ==> Reads(NonBlank(fields), r.value)
    ensures r.Err? ==> r.error.BadByte? && r.error.index >= index
  {
    if |fields| == 0 then Ok([])
    else
      var t := Strip(fields[0]);
      var rest := StrippedBytes(fields[1..], index + 1);
      NonBlankCons(fields);
      if |t| == 0 then rest
      else
        AllBytesCons(t, NonBlank(fields[1..]));
        var v :- ParseHex(t).ToResult(BadByte(index));
        if v >= 256 then Err(BadByte(index))
        else
          var bs :- rest;
          ReadsCons(t, NonBlank(fields[1..]), v, bs);
          Ok([v as byte] + bs)
  }

  /** `send_can_frame` of PatrolCar.py: stripped identifier, skipped empty fields, exactly eight bytes. */
  function CheckedFrame(connected: bool, idText: string, fields: seq<string>): (r: Result<Frame, SendError>)
    ensures r.Ok? <==>
      connected && ParseHex(Strip(idText)).Some? && |Filled(fields)| == 8 && AllBytes(Filled(fields))
    ensures r.Ok? ==> Reads(Filled(fields), r.value.data)
    ensures r.Ok? ==> ParseHex(Strip(idText)) == Some(r.value.id)
    ensures r.Ok? ==> (r.value.extended <==> r.value.id > MaxStandardId)
    ensures connected && |Strip(idText)| == 0 ==> r == Err(EmptyId)
  {
    if !connected then Err(NotConnected)
    else
      var t := Strip(idText);
      if |t| == 0 then Err(EmptyId)
      else
        var id :- ParseHex(t).ToResult(BadId);
        var values :- FilledValues(fields, 0);
        if |values| != 8 then Err(WrongLength)
        else
          var data :- AsBytes(values);
          Ok(Frame(id, data, id > MaxStandardId))
  }

  /**
   * `_generic_send_can_frame` of PatrolCar_rev1.py: stripped texts, blank
   * fields skipped, every byte in range, at most eight; the DLC is however
   * many fields were filled in.
   */
  function FlexibleFrame(connected: bool, idText: string, fields: seq<string>): (r: Result<Frame, SendError>)
    ensures r.Ok? <==>
      connected && ParseHex(Strip(idText)).Some? && |NonBlank(fields)| <= 8 && AllBytes(NonBlank(fields))
    ensures r.Ok? ==> Reads(NonBlank(fields), r.value.data)
    ensures r.Ok? ==> ParseHex(Strip(idText)) == Some(r.value.id)
    ensures r.Ok? ==> (r.value.extended <==> r.value.id > MaxStandardId)
    ensures connected && |Strip(idText)| == 0 ==> r == Err(EmptyId)
    ensures |fields| <= 8 ==> r != Err(TooLong)
  {
    if !connected then Err(NotConnected)
    else
      var t := Strip(idText);
      if |t| == 0 then Err(EmptyId)
      else
        var id :- ParseHex(t).ToResult(BadId);
        var data :- StrippedBytes(fields, 1);
        if |data| > 8 then Err(TooLong)
        else Ok(Frame(id, data, id > MaxStandardId))
  }

  /**
   * `send_can_frame` of can_monitor_gui3.py and can_monitor_gui.py: no
   * stripping, every field required, exactly eight bytes, and always a
   * standard frame whatever the identifier.
   */
  function StrictFrame(connected: bool, idText: string, fields: seq<string>): (r: Result<Frame, SendError>)
    ensures r.Ok? <==>
      connected && ParseHex(idText).Some? && |fields| == 8 && AllBytes(fields)
    ensures r.Ok? ==> !r.value.extended && Reads(fields, r.value.data)
    ensures r.Ok? ==> ParseHex(idText) == Some(r.value.id)
    ensures !connected ==> r == Err(NotConnected)
  {
    if !connected then Err(NotConnected)
    else
      var id :- ParseHex(idText).ToResult(BadId);
      var values :- AllValues(fields, 0);
      if |values| != 8 then Err(WrongLength)
      else
        var data :- AsBytes(values);
        Ok(Frame(id, data, false))
  }

  /**
   * `send_can_frame` of b.py (also `send_can_frame2` of PatrolCar.py): no
   * stripping, empty fields skipped, exactly eight bytes, always standard.
   */
  function LegacyFrame(connected: bool, idText: string, fields: seq<string>): (r: Result<Frame, SendError>)
    ensures r.Ok? <==>
      connected && ParseHex(idText).Some? && |Filled(fields)| == 8 && AllBytes(Filled(fields))
    ensures r.Ok? ==> !r.value.extended && Reads(Filled(fields), r.value.data)
    ensures r.Ok? ==> ParseHex(idText) == Some(r.value.id)
    ensures !connected ==> r == Err(NotConnected)
  {
    if !connected then Err(NotConnected)
    else
      var id :- ParseHex(idText).ToResult(BadId);
      var values :- FilledValues(fields, 0);
      if |values| != 8 then Err(WrongLength)
      else
        var data :- AsBytes(values);
        Ok(Frame(id, data, false))
  }

  /** The form texts that show a frame: the identifier and each byte as `hex()` prints them, without "0x". */
  function ByteTexts(data: seq<byte>): (r: seq<string>)
    ensures |r| == |data|
    ensures forall k :: 0 <= k < |data| ==> r[k] == Digits(data[k])
  {
    if |data| == 0 then [] else [Digits(data[0])] + ByteTexts(data[1..])
  }

  lemma StripDigits(n: nat)
    ensures Strip(Digits(n)) == Digits(n)
  {
    var s := Digits(n);
    assert forall k :: 0 <= k < |s| ==> !IsSpace(s[k]);
    assert LeadingSpaces(s) == 0;
    assert TrimmedEnd(s) == |s|;
  }

  lemma {:induction false} StrippedBytesOfTexts(data: seq<byte>, index: nat)
    ensures StrippedBytes(ByteTexts(data), index) == Ok(data)
  {
    if |data| > 0 {
      var fs := ByteTexts(data);
      StripDigits(data[0]);
      ParseDigits(data[0]);
      assert fs[1..] == ByteTexts(data[1..]);
      StrippedBytesOfTexts(data[1..], index + 1);
      assert [data[0]] + data[1..] == data;
    }
  }

  /**
   * Round trip through the rev1 form: typing a frame's identifier and bytes
   * in hex gives back that frame, extended exactly when the identifier
   * needs more than 11 bits.
   */
  lemma FlexibleFrameRoundTrip(id: nat, data: seq<byte>)
    requires |data| <= 8
    ensures FlexibleFrame(true, Digits(id), ByteTexts(data)) == Ok(Frame(id, data, id > MaxStandardId))
  {
    StripDigits(id);
    ParseDigits(id);
    StrippedBytesOfTexts(data, 1);
  }

  lemma {:induction false} FilledValuesOfTexts(data: seq<byte>, index: nat)
    ensures FilledValues(ByteTexts(data), index) == Ok(data)
  {
    if |data| > 0 {
      var fs := ByteTexts(data);
      ParseDigits(data[0]);
      assert fs[1..] == ByteTexts(data[1..]);
      FilledValuesOfTexts(data[1..], index + 1);
      assert [data[0] as nat] + data[1..] == data;
    }
  }

  lemma {:induction false} AllValuesOfTexts(data: seq<byte>, index: nat)
    ensures AllValues(ByteTexts(data), index) == Ok(data)
  {
    if |data| > 0 {
      var fs := ByteTexts(data);
      ParseDigits(data[0]);
      assert fs[1..] == ByteTexts(data[1..]);
      AllValuesOfTexts(data[1..], index + 1);
      assert [data[0] as nat] + data[1..] == data;
    }
  }

  /** The PatrolCar.py form once the identifier and the field values are known. */
  lemma CheckedFrameOfBytes(idText: string, fields: seq<string>, id: nat, data: seq<byte>)
    requires |Strip(idText)| > 0 && ParseHex(Strip(idText)) == Some(id)
    requires FilledValues(fields, 0) == Ok(data)
    ensures CheckedFrame(true, idText, fields) == if |data| == 8 then Ok(Frame(id, data, id > MaxStandardId)) else Err(WrongLength)
  {
    assert AsBytes(data) == Ok(data);
  }

  /** The b.py form once the identifier and the field values are known. */
  lemma LegacyFrameOfBytes(idText: string, fields: seq<string>, id: nat, data: seq<byte>)
    requires ParseHex(idText) == Some(id)
    requires FilledValues(fields, 0) == Ok(data)
    ensures LegacyFrame(true, idText, fields) == if |data| == 8 then Ok(Frame(id, data, false)) else Err(WrongLength)
  {
    assert AsBytes(data) == Ok(data);
  }

  /** The rev1 form once the identifier and the bytes are known. */
  lemma FlexibleFrameOfBytes(idText: string, fields: seq<string>, id: nat, data: seq<byte>)
    requires |Strip(idText)| > 0 && ParseHex(Strip(idText)) == Some(id)
    requires StrippedBytes(fields, 1) == Ok(data) && |data| <= 8
    ensures FlexibleFrame(true, idText, fields) == Ok(Frame(id, data, id > MaxStandardId))
  {
  }

  /** The gui3 / gui form passes on the first field error. */
  lemma StrictFrameOfError(idText: string, fields: seq<string>, e: SendError)
    requires ParseHex(idText).Some? && AllValues(fields, 0) == Err(e)
    ensures StrictFrame(true, idText, fields) == Err(e)
  {
  }

  /** Round trip through the PatrolCar.py form, for a full eight-byte frame. */
  lemma CheckedFrameRoundTrip(id: nat, data: seq<byte>)
    requires |data| == 8
    ensures CheckedFrame(true, Digits(id), ByteTexts(data)) == Ok(Frame(id, data, id > MaxStandardId))
  {
    StripDigits(id);
    ParseDigits(id);
    FilledValuesOfTexts(data, 0);
    CheckedFrameOfBytes(Digits(id), ByteTexts(data), id, data);
  }

  /** Round trip through the gui3 / gui form: same bytes, but always a standard frame. */
  lemma StrictFrameRoundTrip(id: nat, data: seq<byte>)
    requires |data| == 8
    ensures StrictFrame(true, Digits(id), ByteTexts(data)) == Ok(Frame(id, data, false))
  {
    ParseDigits(id);
    AllValuesOfTexts(data, 0);
  }

  /** Round trip through the b.py form. */
  lemma LegacyFrameRoundTrip(id: nat, data: seq<byte>)
    requires |data| == 8
    ensures LegacyFrame(true, Digits(id), ByteTexts(data)) == Ok(Frame(id, data, false))
  {
    ParseDigits(id);
    FilledValuesOfTexts(data, 0);
    LegacyFrameOfBytes(Digits(id), ByteTexts(data), id, data);
  }

  /**
   * The rules part ways on a blank field: with seven bytes typed and the
   * last left empty, rev1 sends a 7-byte frame, PatrolCar.py and b.py
   * refuse the DLC, and gui3 / gui refuse the empty field.
   */
  lemma BlankFieldRules(data: seq<byte>)
    requires |data| == 7
    ensures FlexibleFrame(true, "100", ByteTexts(data) + [""]) == Ok(Frame(0x100, data, false))
    ensures CheckedFrame(true, "100", ByteTexts(data) + [""]) == Err(WrongLength)
    ensures LegacyFrame(true, "100", ByteTexts(data) + [""]) == Err(WrongLength)
    ensures StrictFrame(true, "100", ByteTexts(data) + [""]) == Err(EmptyField)
  {
    var fs := ByteTexts(data) + [""];
    HundredText();
    StrippedBytesAppendBlank(ByteTexts(data), 1);
    StrippedBytesOfTexts(data, 1);
    assert StrippedBytes(fs, 1) == Ok(data);
    FlexibleFrameOfBytes("100", fs, 0x100, data);
    FilledValuesAppendBlank(ByteTexts(data), 0);
    FilledValuesOfTexts(data, 0);
    assert FilledValues(fs, 0) == Ok(data);
    CheckedFrameOfBytes("100", fs, 0x100, data);
    LegacyFrameOfBytes("100", fs, 0x100, data);
    AllValuesOfTexts(data, 0);
    AllValuesAppendBlank(ByteTexts(data), 0);
    assert AllValues(fs, 0) == Err(EmptyField);
    StrictFrameOfError("100", fs, EmptyField);
  }

  /** The identifier text of the example: "100" reads as 0x100 with or without stripping. */
  lemma HundredText()
    ensures |Strip("100")| > 0 && ParseHex(Strip("100")) == Some(0x100) && ParseHex("100") == Some(0x100)
  {
    StripDigits(0x100);
    assert Digits(0x100) == "100";
    ParseDigits(0x100);
  }

  lemma {:induction false} StrippedBytesAppendBlank(fields: seq<string>, index: nat)
    ensures StrippedBytes(fields + [""], index) == StrippedBytes(fields, index)
  {
    var longer := fields + [""];
    if |fields| == 0 {
      assert longer == [""] && |Strip(longer[0])| == 0 && longer[1..] == [];
      assert StrippedBytes(longer, index) == StrippedBytes([], index + 1);
    } else {
      assert longer[0] == fields[0] && longer[1..] == fields[1..] + [""];
      StrippedBytesAppendBlank(fields[1..], index + 1);
      StrippedBytesSameTail(longer, fields, index);
    }
  }

  /** `StrippedBytes` reads a list through its first field and the result for the rest. */
  lemma StrippedBytesSameTail(a: seq<string>, b: seq<string>, index: nat)
    requires |a| > 0 && |b| > 0 && a[0] == b[0]
    requires StrippedBytes(a[1..], index + 1) == StrippedBytes(b[1..], index + 1)
    ensures StrippedBytes(a, index) == StrippedBytes(b, index)
  {
  }

  lemma {:induction false} FilledValuesAppendBlank(fields: seq<string>, index: nat)
    ensures FilledValues(fields + [""], index) == FilledValues(fields, index)
  {
    if |fields| > 0 {
      assert (fields + [""])[1..] == fields[1..] + [""];
      FilledValuesAppendBlank(fields[1..], index + 1);
    }
  }

  lemma {:induction false} AllValuesAppendBlank(fields: seq<string>, index: nat)
    requires AllValues(fields, index).Ok?
    ensures AllValues(fields + [""], index) == Err(EmptyField)
  {
    if |fields| > 0 {
      assert (fields + [""])[1..] == fields[1..] + [""];
      AllValuesAppendBlank(fields[1..], index + 1);
    }
  }
}
