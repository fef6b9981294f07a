/** The serial frame decoder of the ShepardDCS version
    (ShepardSerialEventListener): a control byte 0xFF (thrust, 2 bytes),
    0xFE (temperature, 2 bytes) or 0xFD (time stamp, 4 bytes) followed by a
    big-endian payload, delivered in chunks with arbitrary boundaries. A
    pending control code and the bytes that did not yet complete its payload
    are kept between calls. */
module SerialDecoder {
  import opened Wrappers
  import opened JavaLang
  import opened Telemetry
  import opened SerialLink

  const THRUST: int := 0xFF
  const TEMPERATURE: int := 0xFE
  const TIME_STAMP: int := 0xFD

  predicate Known(code: int)
  {
    code == THRUST || code == TEMPERATURE || code == TIME_STAMP
  }

  /** The values controlCode can hold between loop iterations: none pending
      (0) or a known code whose payload is still to come. */
  predicate Pending(code: int)
  {
    code == 0 || Known(code)
  }

  /** The payload width a known control code selects. */
  function Width(code: int): nat
  {
    if code == TIME_STAMP then 4 else 2
  }

  /** The listener's state between two serialEvent calls: controlCode,
      leftoverBytes, the first leftoverBytes bytes of leftover (empty when
      leftoverBytes is not positive) and the value of datapoint. */
  datatype Decoder = Decoder(code: int, leftoverBytes: int, carry: seq<byte>, rec: Sample)

  /** A listener as constructed. */
  const Fresh := Decoder(0, 0, [], Unset)

  /** The state inside one serialEvent call: the listener's fields, the local
      intval, and the records handed to handleData() so far in this call. */
  datatype Loop = Loop(code: int, leftoverBytes: int, carry: seq<byte>, rec: Sample, intval: int, out: seq<Sample>)

  // ---------------------------------------------------------------------
  // The read helpers; rest is what the ByteArrayInputStream has left.

  /** readBytes(stream, valbuf, n): the next n bytes when that many remain;
      otherwise every remaining byte is moved into leftover, leftoverBytes
      becomes what stream.read(leftover) returns (-1 when nothing remains) and
      nothing is decoded. */
  function BytesRead(l: Loop, rest: seq<byte>, n: nat): (r: (Option<seq<byte>>, seq<byte>, Loop))
    ensures r.0.Some? <==> |rest| >= n
    ensures r.0.Some? ==> r.0.value == rest[..n] && r.1 == rest[n..] && r.2 == l
    ensures r.0.None? ==> r.1 == [] && r.2 == l.(leftoverBytes := if rest == [] then -1 else |rest|, carry := rest)
  {
    if |rest| >= n then (Some(rest[..n]), rest[n..], l)
    else (None, [], l.(leftoverBytes := if rest == [] then -1 else |rest|, carry := rest))
  }

  /** readSignedShort: the signed big-endian value of two bytes, clearing
      controlCode; Integer.MIN_VALUE when the bytes are not there yet. */
  function SignedShortRead(l: Loop, rest: seq<byte>): (r: (int, seq<byte>, Loop))
    ensures |rest| >= 2 ==> r == (GetShort(rest[0], rest[1]), rest[2..], l.(code := 0))
    ensures |rest| < 2 ==> r == (INT_MIN, [], l.(leftoverBytes := if rest == [] then -1 else |rest|, carry := rest))
  {
    var (b, rest', l') := BytesRead(l, rest, 2);
    if b.Some? then (GetShort(b.value[0], b.value[1]), rest', l'.(code := 0))
    else (INT_MIN, rest', l')
  }

  /** readUnsignedShort: readSignedShort(...) & 0xFFFF, also when the read was
      deferred (Integer.MIN_VALUE & 0xFFFF is 0). */
  function UnsignedShortRead(l: Loop, rest: seq<byte>): (r: (int, seq<byte>, Loop))
    ensures |rest| >= 2 ==> r == (Low16(GetShort(rest[0], rest[1])), rest[2..], l.(code := 0))
    ensures |rest| < 2 ==> r == (0, [], l.(leftoverBytes := if rest == [] then -1 else |rest|, carry := rest))
  {
    var (v, rest', l') := SignedShortRead(l, rest);
    (Low16(v), rest', l')
  }

  /** readUnsignedInteger: getInt() & 0xFFFFFFFF. The mask is an int literal
      (-1), so the value stays the signed 32-bit one, widened to a long;
      Integer.MIN_VALUE when the bytes are not there yet. */
  function UnsignedIntegerRead(l: Loop, rest: seq<byte>): (r: (int, seq<byte>, Loop))
    ensures |rest| >= 4 ==> r == (GetInt(rest[..4]), rest[4..], l.(code := 0))
    ensures |rest| < 4 ==> r == (INT_MIN, [], l.(leftoverBytes := if rest == [] then -1 else |rest|, carry := rest))
  {
    var (b, rest', l') := BytesRead(l, rest, 4);
    if b.Some? then (GetInt(b.value), rest', l'.(code := 0))
    else (INT_MIN, rest', l')
  }

  /** The switch on controlCode. The time stamp guard tests intval, the value
      of the last 16-bit read of this call, not longval. */
  function Dispatch(l: Loop, rest: seq<byte>): (r: (Loop, seq<byte>))
    ensures Pending(r.0.code) && r.0.out == l.out
    ensures |r.1| <= |rest| && r.1 == rest[|rest| - |r.1|..]
    ensures rest != [] && Known(l.code) ==> |r.1| < |rest|
    ensures r.0.leftoverBytes != l.leftoverBytes || r.0.carry != l.carry ==>
      r.1 == [] && CarryOk(r.0.code, r.0.leftoverBytes, r.0.carry)
  {
    if l.code == THRUST then
      var (v, rest', l') := UnsignedShortRead(l, rest);
      (if v != INT_MIN then l'.(intval := v, rec := l'.rec.(thrust := ThrustOf(v))) else l'.(intval := v), rest')
    else if l.code == TEMPERATURE then
      var (v, rest', l') := SignedShortRead(l, rest);
      (if v != INT_MIN then l'.(intval := v, rec := l'.rec.(temp := TempOf(v))) else l'.(intval := v), rest')
    else if l.code == TIME_STAMP then
      var (v, rest', l') := UnsignedIntegerRead(l, rest);
      (if l.intval != INT_MIN then l'.(rec := l'.rec.(time := v)) else l', rest')
    else
      (l.(code := 0), rest)
  }

  /** After each iteration: a complete record goes to handleData() and is
      cleared. */
  function Emit(l: Loop): (r: Loop)
    ensures !r.rec.IsSet()
    ensures r.out == l.out + (if l.rec.IsSet() then [l.rec] else [])
  {
    if l.rec.IsSet() then l.(rec := Unset, out := l.out + [l.rec]) else l
  }

  /** The carry-over is consistent: positive leftoverBytes only with a known
      pending code, as many carried bytes, and fewer than that code's width. */
  predicate CarryOk(code: int, leftoverBytes: int, carry: seq<byte>)
  {
    (leftoverBytes > 0 ==> Known(code) && |carry| == leftoverBytes < Width(code)) &&
    (leftoverBytes <= 0 ==> carry == [])
  }

  predicate AllSet(s: seq<Sample>)
  {
    forall k :: 0 <= k < |s| ==> s[k].IsSet()
  }

  /** The head of the loop body: a byte is taken as the control code only
      when none is pending. */
  function ReadCode(l: Loop, rest: seq<byte>): (r: (Loop, seq<byte>))
    requires rest != []
    ensures l.code == 0 ==> r == (l.(code := rest[0]), rest[1..])
    ensures l.code != 0 ==> r == (l, rest)
  {
    if l.code == 0 then (l.(code := rest[0]), rest[1..]) else (l, rest)
  }

  /** One pass of the while loop: a control byte is read only when none is
      pending, then the switch runs, then the completeness check. Every pass
      consumes at least one byte, and carry-over is only ever written by a
      read that finds too few bytes, which also exhausts the stream. */
  function Step(l: Loop, rest: seq<byte>): (r: (Loop, seq<byte>))
    requires rest != [] && Pending(l.code)
    ensures Pending(r.0.code) && !r.0.rec.IsSet()
    ensures |r.1| < |rest| && r.1 == rest[|rest| - |r.1|..]
    ensures |l.out| <= |r.0.out| <= |l.out| + 1 && r.0.out[..|l.out|] == l.out
    ensures AllSet(l.out) ==> AllSet(r.0.out)
    ensures r.0.leftoverBytes != l.leftoverBytes || r.0.carry != l.carry ==>
      r.1 == [] && CarryOk(r.0.code, r.0.leftoverBytes, r.0.carry)
  {
    var c := ReadCode(l, rest);
    var d := Dispatch(c.0, c.1);
    (Emit(d.0), d.1)
  }

  /** The while loop, run to the end of the stream. */
  function Run(l: Loop, rest: seq<byte>): (r: Loop)
    requires Pending(l.code)
    ensures Pending(r.code)
    decreases |rest|
  {
    if rest == [] then l
    else
      var next := Step(l, rest);
      Run(next.0, next.1)
  }

  /** The loop only ever appends records, each one complete when handed on. */
  lemma {:induction false} RunAppends(l: Loop, rest: seq<byte>)
    requires Pending(l.code)
    ensures var r := Run(l, rest);
      |l.out| <= |r.out| && r.out[..|l.out|] == l.out && (AllSet(l.out) ==> AllSet(r.out))
    decreases |rest|
  {
    if rest != [] {
      var next := Step(l, rest);
      RunAppends(next.0, next.1);
    }
  }

  /** The loop never leaves the in-progress record complete, and ends with the
      carry-over consistent with the pending code. */
  lemma {:induction false} RunCarry(l: Loop, rest: seq<byte>)
    requires Pending(l.code) && !l.rec.IsSet()
    requires CarryOk(l.code, l.leftoverBytes, l.carry) && l.leftoverBytes <= 0
    ensures var r := Run(l, rest);
      !r.rec.IsSet() && CarryOk(r.code, r.leftoverBytes, r.carry)
    decreases |rest|
  {
    if rest != [] {
      var next := Step(l, rest);
      if next.0.leftoverBytes != l.leftoverBytes || next.0.carry != l.carry {
        assert next.1 == [];
      } else {
        RunCarry(next.0, next.1);
      }
    }
  }

  /** The start of serialEvent: carried bytes go, in order, in front of the
      new chunk and leftoverBytes is reset to 0; intval starts at 0 and no
      record has been handed on yet. */
  function Start(d: Decoder, chunk: seq<byte>): (r: (Loop, seq<byte>))
    ensures d.leftoverBytes > 0 ==> r.1 == d.carry + chunk && r.0.leftoverBytes == 0 && r.0.carry == []
    ensures d.leftoverBytes <= 0 ==> r.1 == chunk && r.0.leftoverBytes == d.leftoverBytes
    ensures r.0.code == d.code && r.0.rec == d.rec && r.0.intval == 0 && r.0.out == []
  {
    if d.leftoverBytes > 0 then (Loop(d.code, 0, [], d.rec, 0, []), d.carry + chunk)
    else (Loop(d.code, d.leftoverBytes, d.carry, d.rec, 0, []), chunk)
  }

  /** The decoder invariant kept between calls. */
  predicate Inv(d: Decoder)
  {
    Pending(d.code) && CarryOk(d.code, d.leftoverBytes, d.carry) && !d.rec.IsSet()
  }

  /** One chunk fed to the decoder: the new state and the records handed to
      handleData(), in order. */
  function Feed(d: Decoder, chunk: seq<byte>): (r: (Decoder, seq<Sample>))
    requires Pending(d.code)
    ensures Pending(r.0.code)
  {
    var st := Start(d, chunk);
    var e := Run(st.0, st.1);
    (Decoder(e.code, e.leftoverBytes, e.carry, e.rec), e.out)
  }

  /** serialEvent(event): only RX events carry data, and a read that raises
      SerialPortException processes nothing. */
  function OnEvent(d: Decoder, event: PortEvent): (r: (Decoder, seq<Sample>))
    requires Pending(d.code)
    ensures Pending(r.0.code)
  {
    match event
    case Received(Some(chunk)) => Feed(d, chunk)
    case _ => (d, [])
  }

  /** The decoder invariant holds for a fresh listener and every chunk keeps
      it; every record handed to handleData() is complete. */
  lemma FeedKeepsInv(d: Decoder, chunk: seq<byte>)
    requires Inv(d)
    ensures Inv(Feed(d, chunk).0) && AllSet(Feed(d, chunk).1)
  {
    var st := Start(d, chunk);
    RunAppends(st.0, st.1);
    RunCarry(st.0, st.1);
  }

  // ---------------------------------------------------------------------
  // What one pass does with each kind of control code.

  /** A complete payload is consumed and decoded: thrust as the unsigned and
      temperature as the signed big-endian 16-bit value, the time stamp as
      the signed 32-bit value, assigned only when intval is not
      Integer.MIN_VALUE; the code is cleared and no carry-over is touched. */
  lemma CompleteRead(l: Loop, rest: seq<byte>)
    requires Known(l.code) && |rest| >= Width(l.code)
    ensures var (r, rest') := Dispatch(l, rest);
      r.code == 0 && rest' == rest[Width(l.code)..] &&
      r.leftoverBytes == l.leftoverBytes && r.carry == l.carry &&
      (l.code == THRUST ==> r.rec == l.rec.(thrust := ThrustOf(rest[0] as int * 0x100 + rest[1]))) &&
      (l.code == TEMPERATURE ==> r.rec == l.rec.(temp := TempOf(GetShort(rest[0], rest[1])))) &&
      (l.code == TIME_STAMP ==> r.rec == if l.intval != INT_MIN then l.rec.(time := GetInt(rest[..4])) else l.rec)
  {
    Low16GetShort(rest[0], rest[1]);
  }

  /** A thrust payload that is not complete yet is carried over with its code
      still pending, yet thrust is assigned the conversion of 0. */
  lemma DeferredThrust(l: Loop, rest: seq<byte>)
    requires l.code == THRUST && |rest| < 2
    ensures Dispatch(l, rest) ==
      (l.(leftoverBytes := if rest == [] then -1 else |rest|, carry := rest, intval := 0,
          rec := l.rec.(thrust := ThrustOf(0))), [])
  {
  }

  /** A temperature payload that is not complete yet is carried over with
      its code still pending, and no field changes. */
  lemma DeferredTemperature(l: Loop, rest: seq<byte>)
    requires l.code == TEMPERATURE && |rest| < 2
    ensures Dispatch(l, rest) ==
      (l.(leftoverBytes := if rest == [] then -1 else |rest|, carry := rest, intval := INT_MIN), [])
  {
  }

  /** A time stamp payload that is not complete yet is carried over with its
      code still pending, and the time is set to its sentinel unless intval
      already holds Integer.MIN_VALUE. */
  lemma DeferredTimeStamp(l: Loop, rest: seq<byte>)
    requires l.code == TIME_STAMP && |rest| < 4
    ensures Dispatch(l, rest) ==
      (l.(leftoverBytes := if rest == [] then -1 else |rest|, carry := rest,
          rec := if l.intval != INT_MIN then l.rec.(time := INT_MIN) else l.rec), [])
  {
  }

  /** A byte that is not a known control code, 0x00 included, is consumed
      and changes nothing; the next byte is read as a control code. */
  lemma UnknownCodeSkipped(l: Loop, b: byte, rest: seq<byte>)
    requires l.code == 0 && !Known(b) && !l.rec.IsSet()
    ensures Step(l, [b] + rest) == (l, rest)
    ensures Run(l, [b] + rest) == Run(l, rest)
  {
    assert ([b] + rest)[1..] == rest;
  }

  /** ShepardSerialEventListener: the listener fields the decode loop works on.
      handleData() is abstract in the source; here serialEvent returns, in
      order, the values datapoint held at each handleData() call. */
  class ShepardSerialEventListener {
    var controlCode: int
    var leftoverBytes: int
    const leftover: array<byte>
    const datapoint: ShepardData

    ghost predicate Sized()
      reads this, leftover
    {
      leftover.Length == 256 && leftoverBytes <= leftover.Length
    }

    ghost predicate Valid()
      reads this, leftover
    {
      Sized() && Pending(controlCode)
    }

    /** The meaningful prefix of leftover. */
    ghost function Carry(): seq<byte>
      reads this, leftover
      requires Sized()
    {
      if leftoverBytes > 0 then leftover[..leftoverBytes] else []
    }

    ghost function State(): Decoder
      reads this, leftover, datapoint
      requires Sized()
    {
      Decoder(controlCode, leftoverBytes, Carry(), datapoint.Value())
    }

    /** The loop state, with the locals intval and the records handed on. */
    ghost function Current(intval: int, out: seq<Sample>): Loop
      reads this, leftover, datapoint
      requires Sized()
    {
      Loop(controlCode, leftoverBytes, Carry(), datapoint.Value(), intval, out)
    }

    constructor()
      ensures Valid() && State() == Fresh
      ensures fresh(leftover) && fresh(datapoint)
    {
      controlCode := 0;
      leftoverBytes := 0;
      leftover := new byte[256](_ => 0);
      datapoint := new ShepardData();
    }

    /** readBytes: the next n bytes of the stream (buffer from pos on) when
        that many remain, otherwise stream.read(leftover). */
    method ReadBytes(buffer: seq<byte>, pos: nat, n: nat, ghost intval: int, ghost out: seq<Sample>)
        returns (bytes: Option<seq<byte>>, pos': nat)
      requires Sized() && pos <= |buffer| && n <= 4
      modifies this, leftover
      ensures Sized() && pos' <= |buffer|
      ensures (bytes, buffer[pos'..], Current(intval, out)) == BytesRead(old(Current(intval, out)), buffer[pos..], n)
    {
      if |buffer| - pos >= n {
        bytes := Some(buffer[pos..pos + n]);
        pos' := pos + n;
        assert buffer[pos..][..n] == buffer[pos..pos + n];
        assert buffer[pos'..] == buffer[pos..][n..];
        assert Current(intval, out) == old(Current(intval, out));
      } else {
        bytes := None;
        var count := |buffer| - pos;
        for k := 0 to count
          modifies leftover
          invariant leftover[..k] == buffer[pos..pos + k]
        {
          leftover[k] := buffer[pos + k];
        }
        leftoverBytes := if count == 0 then -1 else count;
        pos' := |buffer|;
        assert Carry() == buffer[pos..];
        assert buffer[pos'..] == [];
      }
    }

    /** readSignedShort */
    method ReadSignedShort(buffer: seq<byte>, pos: nat, ghost intval: int, ghost out: seq<Sample>)
        returns (v: int, pos': nat)
      requires Sized() && pos <= |buffer|
      modifies this, leftover
      ensures Sized() && pos' <= |buffer|
      ensures (v, buffer[pos'..], Current(intval, out)) == SignedShortRead(old(Current(intval, out)), buffer[pos..])
    {
      var bytes;
      bytes, pos' := ReadBytes(buffer, pos, 2, intval, out);
      v := INT_MIN;
      if bytes.Some? {
        v := GetShort(bytes.value[0], bytes.value[1]);
        controlCode := 0;
      }
    }

    /** readUnsignedShort */
    method ReadUnsignedShort(buffer: seq<byte>, pos: nat, ghost intval: int, ghost out: seq<Sample>)
        returns (v: int, pos': nat)
      requires Sized() && pos <= |buffer|
      modifies this, leftover
      ensures Sized() && pos' <= |buffer|
      ensures (v, buffer[pos'..], Current(intval, out)) == UnsignedShortRead(old(Current(intval, out)), buffer[pos..])
    {
      v, pos' := ReadSignedShort(buffer, pos, intval, out);
      v := Low16(v);
    }

    /** readUnsignedInteger */
    method ReadUnsignedInteger(buffer: seq<byte>, pos: nat, ghost intval: int, ghost out: seq<Sample>)
        returns (v: int, pos': nat)
      requires Sized() && pos <= |buffer|
      modifies this, leftover
      ensures Sized() && pos' <= |buffer|
      ensures (v, buffer[pos'..], Current(intval, out)) == UnsignedIntegerRead(old(Current(intval, out)), buffer[pos..])
    {
      var bytes;
      bytes, pos' := ReadBytes(buffer, pos, 4, intval, out);
      v := INT_MIN;
      if bytes.Some? {
        v := GetInt(bytes.value);
        controlCode := 0;
      }
    }

    /** The switch on controlCode in the body of the decode loop. */
    method Switch(buffer: seq<byte>, pos: nat, intval: int, ghost out: seq<Sample>)
        returns (intval': int, pos': nat)
      requires Sized() && pos <= |buffer|
      modifies this, leftover, datapoint
      ensures Sized() && pos' <= |buffer|
      ensures (Current(intval', out), buffer[pos'..]) == Dispatch(old(Current(intval, out)), buffer[pos..])
    {
      intval' := intval;
      if controlCode == THRUST {
        intval', pos' := ReadUnsignedShort(buffer, pos, intval, out);
        if intval' != INT_MIN {
          datapoint.thrust := ThrustOf(intval');
        }
      } else if controlCode == TEMPERATURE {
        intval', pos' := ReadSignedShort(buffer, pos, intval, out);
        if intval' != INT_MIN {
          datapoint.temp := TempOf(intval');
        }
      } else if controlCode == TIME_STAMP {
        var longval;
        longval, pos' := ReadUnsignedInteger(buffer, pos, intval, out);
        if intval != INT_MIN {
          datapoint.time := longval;
        }
      } else {
        controlCode := 0;
        pos' := pos;
      }
    }

    /** One pass of the decode loop. */
    method Iterate(buffer: seq<byte>, pos: nat, intval: int, emitted: seq<Sample>)
        returns (intval': int, pos': nat, emitted': seq<Sample>)
      requires Valid() && pos < |buffer|
      modifies this, leftover, datapoint
      ensures Valid() && pos' <= |buffer|
      ensures (Current(intval', emitted'), buffer[pos'..]) == Step(old(Current(intval, emitted)), buffer[pos..])
    {
      ghost var before := Current(intval, emitted);
      ghost var rest := buffer[pos..];
      pos' := pos;
      if controlCode == 0 {
        controlCode := buffer[pos];
        pos' := pos + 1;
      }
      assert (Current(intval, emitted), buffer[pos'..]) == ReadCode(before, rest);
      intval', pos' := Switch(buffer, pos', intval, emitted);
      ghost var mid := Current(intval', emitted);
      emitted' := emitted;
      if datapoint.IsSet() {
        emitted' := emitted + [datapoint.Value()];
        datapoint.Clear();
      }
      assert Current(intval', emitted') == Emit(mid);
    }

    /** serialEvent(event), proved against OnEvent. */
    method SerialEvent(event: PortEvent) returns (emitted: seq<Sample>)
      requires Valid()
      modifies this, leftover, datapoint
      ensures Valid()
      ensures (State(), emitted) == OnEvent(old(State()), event)
    {
      emitted := [];
      if event.Received? && event.read.Some? {
        var chunk := event.read.value;
        ghost var start := Start(State(), chunk);
        var buffer := chunk;
        if leftoverBytes > 0 {
          buffer := leftover[..leftoverBytes] + chunk;
          leftoverBytes := 0;
        }
        var pos := 0;
        var intval := 0;
        assert Current(intval, emitted) == start.0 && buffer[pos..] == start.1;
        while pos < |buffer|
          invariant Valid() && pos <= |buffer|
          invariant Run(Current(intval, emitted), buffer[pos..]) == Run(start.0, start.1)
          decreases |buffer| - pos
        {
          ghost var before := Current(intval, emitted);
          ghost var rest := buffer[pos..];
          intval, pos, emitted := Iterate(buffer, pos, intval, emitted);
          assert Run(before, rest) == Run(Current(intval, emitted), buffer[pos..]);
        }
        assert buffer[pos..] == [];
      }
    }
  }
}
