/** The frames the data acquisition hardware sends to the ShepardDCS decoder,
    as values: a thrust reading (unsigned 16 bits), a temperature reading
    (signed 16 bits), a time stamp (unsigned 32 bits) or a stray byte that is
    not a control code. Encode gives their bytes on the wire and Assemble the
    records a reader of those frames is meant to hand on; the lemmas here
    show what the decoder as written does with whole frames. */
module Frames {
  import opened JavaLang
  import opened Telemetry
  import opened SerialDecoder

  datatype Field = Thrust(raw: int) | Temp(raw: int) | Time(raw: int) | Noise(b: int)

  /** Each payload fits its width, and a stray byte is not a control code. */
  predicate WellFormed(f: Field)
  {
    match f
    case Thrust(v) => 0 <= v < 0x1_0000
    case Temp(v) => -0x8000 <= v < 0x8000
    case Time(v) => 0 <= v < 0x1_0000_0000
    case Noise(b) => 0 <= b < 0x100 && !Known(b)
  }

  predicate AllWellFormed(fs: seq<Field>)
  {
    forall k :: 0 <= k < |fs| ==> WellFormed(fs[k])
  }

  /** Every time stamp stays below 2^31, the range in which the decoder's
      int-width mask keeps its value. */
  predicate NarrowTimes(fs: seq<Field>)
  {
    forall k :: 0 <= k < |fs| ==> (fs[k].Time? ==> fs[k].raw < 0x8000_0000)
  }

  /** The big-endian bytes of a 16-bit payload (two's complement for a
      negative one). */
  function Be16(v: int): (b: seq<byte>)
    ensures |b| == 2
  {
    var u := v % 0x1_0000;
    [u / 0x100, u % 0x100]
  }

  /** The big-endian bytes of a 32-bit payload. */
  function Be32(v: int): (b: seq<byte>)
    requires 0 <= v < 0x1_0000_0000
    ensures |b| == 4
  {
    var q1 := v / 0x100;
    var q2 := q1 / 0x100;
    var q3 := q2 / 0x100;
    [q3, q2 % 0x100, q1 % 0x100, v % 0x100]
  }

  function EncodeField(f: Field): (b: seq<byte>)
    requires WellFormed(f)
    ensures b != []
  {
    match f
    case Thrust(v) => [THRUST as byte] + Be16(v)
    case Temp(v) => [TEMPERATURE as byte] + Be16(v)
    case Time(v) => [TIME_STAMP as byte] + Be32(v)
    case Noise(b) => [b as byte]
  }

  /** The byte stream of a sequence of frames. */
  function Encode(fs: seq<Field>): seq<byte>
    requires AllWellFormed(fs)
  {
    if fs == [] then [] else EncodeField(fs[0]) + Encode(fs[1..])
  }

  /** A frame's effect on the record being assembled: each reading sets its
      own field. */
  function Apply(rec: Sample, f: Field): (r: Sample)
    ensures f.Noise? ==> r == rec
    ensures f.Thrust? ==> r == rec.(thrust := ThrustOf(f.raw))
    ensures f.Temp? ==> r == rec.(temp := TempOf(f.raw))
    ensures f.Time? ==> r == rec.(time := f.raw)
  {
    match f
    case Thrust(v) => rec.(thrust := ThrustOf(v))
    case Temp(v) => rec.(temp := TempOf(v))
    case Time(v) => rec.(time := v)
    case Noise(_) => rec
  }

  /** The record being assembled after a frame: cleared when the frame
      completed it. */
  function After(rec: Sample, f: Field): (r: Sample)
    ensures !r.IsSet()
  {
    var a := Apply(rec, f);
    if a.IsSet() then Unset else a
  }

  /** The record a frame completes, if any. */
  function Handed(rec: Sample, f: Field): (h: seq<Sample>)
    ensures |h| <= 1
    ensures h != [] <==> Apply(rec, f).IsSet()
    ensures h != [] ==> h[0] == Apply(rec, f)
  {
    var a := Apply(rec, f);
    if a.IsSet() then [a] else []
  }

  /** The reference semantics: frames applied in order, each record handed on
      and cleared as soon as all three fields are set. Returns the record
      still being assembled and the records handed on. */
  function Assemble(rec: Sample, fs: seq<Field>): (Sample, seq<Sample>)
    decreases |fs|
  {
    if fs == [] then (rec, [])
    else
      var a := Assemble(After(rec, fs[0]), fs[1..]);
      (a.0, Handed(rec, fs[0]) + a.1)
  }

  /** What holds of a sequence of frames holds of its tail. */
  lemma Tail(fs: seq<Field>)
    requires fs != [] && AllWellFormed(fs)
    ensures WellFormed(fs[0]) && AllWellFormed(fs[1..])
    ensures NarrowTimes(fs) ==> (fs[0].Time? ==> fs[0].raw < 0x8000_0000) && NarrowTimes(fs[1..])
  {
    assert forall k | 0 <= k < |fs[1..]| :: fs[1..][k] == fs[k + 1];
  }

  // ---------------------------------------------------------------------
  // The wire format reads back.

  /** Two bytes of an unsigned 16-bit payload read back, through
      readUnsignedShort's mask, as the payload. */
  lemma Be16Unsigned(v: int)
    requires 0 <= v < 0x1_0000
    ensures Low16(GetShort(Be16(v)[0], Be16(v)[1])) == v
  {
    var b := Be16(v);
    assert v % 0x1_0000 == v;
    assert b[0] as int * 0x100 + b[1] == v;
  }

  /** Two bytes of a signed 16-bit payload read back, through getShort, as the
      payload. */
  lemma Be16Signed(v: int)
    requires -0x8000 <= v < 0x8000
    ensures GetShort(Be16(v)[0], Be16(v)[1]) == v
  {
    var b := Be16(v);
    var u := v % 0x1_0000;
    assert b[0] as int * 0x100 + b[1] == u;
    if v < 0 {
      assert u == v + 0x1_0000;
    } else {
      assert u == v;
    }
  }

  /** Four bytes of a 32-bit payload read back, unsigned, as the payload. */
  lemma Be32Unsigned(v: int)
    requires 0 <= v < 0x1_0000_0000
    ensures Unsigned32(Be32(v)) == v
  {
    var q1 := v / 0x100;
    var q2 := q1 / 0x100;
    var q3 := q2 / 0x100;
    assert v == q1 * 0x100 + v % 0x100;
    assert q1 == q2 * 0x100 + q1 % 0x100;
    assert q2 == q3 * 0x100 + q2 % 0x100;
  }

  // ---------------------------------------------------------------------
  // The decoder as written, on whole frames.

  /** The value the local intval holds after a frame. */
  function IntvalAfter(intval: int, f: Field): int
  {
    if f.Thrust? || f.Temp? then f.raw else intval
  }

  /** The loop state after a whole frame: its field set, the record handed
      on and cleared if the frame completed it. */
  function FrameStep(l: Loop, f: Field): Loop
  {
    l.(rec := After(l.rec, f), intval := IntvalAfter(l.intval, f), out := l.out + Handed(l.rec, f))
  }

  /** One whole frame is one pass of the decode loop: the control byte and
      its complete payload are consumed, the frame's field is set, and a
      record completed by it is handed on. The guard on the time stamp is
      the value of the previous 16-bit read, so it holds while intval is not
      Integer.MIN_VALUE. */
  lemma StepField(l: Loop, f: Field, rest: seq<byte>)
    requires l.code == 0 && l.intval != INT_MIN && WellFormed(f)
    requires f.Time? ==> f.raw < 0x8000_0000
    ensures Step(l, EncodeField(f) + rest) == (FrameStep(l, f), rest)
  {
    var s := EncodeField(f) + rest;
    var c := ReadCode(l, s);
    assert c == (l.(code := s[0]), s[1..]);
    var m := l.(rec := Apply(l.rec, f), intval := IntvalAfter(l.intval, f));
    assert Emit(m) == FrameStep(l, f);
    match f
    case Thrust(v) =>
      assert s[1..] == Be16(v) + rest;
      Be16Unsigned(v);
      assert Dispatch(c.0, c.1) == (m, rest);
    case Temp(v) =>
      assert s[1..] == Be16(v) + rest;
      Be16Signed(v);
      assert Dispatch(c.0, c.1) == (m, rest);
    case Time(v) =>
      assert s[1..] == Be32(v) + rest;
      assert s[1..][..4] == Be32(v) && s[1..][4..] == rest;
      Be32Unsigned(v);
      assert Dispatch(c.0, c.1) == (m, rest);
    case Noise(b) =>
      assert s[1..] == rest;
      assert Dispatch(c.0, c.1) == (m, rest);
  }

  /** A whole frame in front of more bytes: one pass, then the loop on the
      rest. */
  lemma RunField(l: Loop, f: Field, rest: seq<byte>)
    requires l.code == 0 && l.intval != INT_MIN && WellFormed(f)
    requires f.Time? ==> f.raw < 0x8000_0000
    ensures Run(l, EncodeField(f) + rest) == Run(FrameStep(l, f), rest)
  {
    StepField(l, f, rest);
  }

  lemma SeqAssoc(a: seq<Sample>, b: seq<Sample>, c: seq<Sample>)
    ensures a + (b + c) == (a + b) + c
  {
  }

  /** Whole frames in one buffer, with every time stamp below 2^31, are
      decoded as the reference semantics says, and no carry-over is left. */
  lemma {:induction false} RunFrames(l: Loop, fs: seq<Field>)
    requires l.code == 0 && l.intval != INT_MIN
    requires AllWellFormed(fs) && NarrowTimes(fs)
    ensures var r := Run(l, Encode(fs));
      r.code == 0 && r.leftoverBytes == l.leftoverBytes && r.carry == l.carry &&
      r.rec == Assemble(l.rec, fs).0 && r.out == l.out + Assemble(l.rec, fs).1
    decreases |fs|
  {
    if fs == [] {
      assert l.out + [] == l.out;
    } else {
      var f := fs[0];
      Tail(fs);
      var rest := Encode(fs[1..]);
      assert Encode(fs) == EncodeField(f) + rest;
      RunField(l, f, rest);
      var next := FrameStep(l, f);
      assert Run(l, Encode(fs)) == Run(next, rest);
      RunFrames(next, fs[1..]);
      var a := Assemble(next.rec, fs[1..]);
      var h := Handed(l.rec, f);
      assert next.rec == After(l.rec, f) && next.out == l.out + h;
      assert Assemble(l.rec, fs).0 == a.0 && Assemble(l.rec, fs).1 == h + a.1;
      SeqAssoc(l.out, h, a.1);
    }
  }

  /** A time stamp at or above 2^31 is read, through the int-width mask, as
      a negative value: 2^32 less than the one sent. */
  lemma StepWideTime(l: Loop, v: int, rest: seq<byte>)
    requires l.code == 0 && l.intval != INT_MIN && 0x8000_0000 <= v < 0x1_0000_0000
    ensures Step(l, EncodeField(Time(v)) + rest) ==
      (Emit(l.(rec := l.rec.(time := v - 0x1_0000_0000))), rest)
  {
    var s := EncodeField(Time(v)) + rest;
    assert s[1..] == Be32(v) + rest;
    assert s[1..][..4] == Be32(v) && s[1..][4..] == rest;
    Be32Unsigned(v);
  }

  /** A listener fed whole frames in one chunk, every time stamp below 2^31,
      hands on exactly the records of the reference semantics. */
  lemma FeedFrames(fs: seq<Field>)
    requires AllWellFormed(fs) && NarrowTimes(fs)
    ensures Feed(Fresh, Encode(fs)) == (Decoder(0, 0, [], Assemble(Unset, fs).0), Assemble(Unset, fs).1)
  {
    var st := Start(Fresh, Encode(fs));
    var l := Loop(0, 0, [], Unset, 0, []);
    assert st == (l, Encode(fs));
    RunFrames(l, fs);
    var e := Run(l, Encode(fs));
    assert e.code == 0 && e.leftoverBytes == 0 && e.carry == [];
    assert e.rec == Assemble(Unset, fs).0 && e.out == Assemble(Unset, fs).1;
    assert Feed(Fresh, Encode(fs)) == (Decoder(e.code, e.leftoverBytes, e.carry, e.rec), e.out);
  }

  /** The example frame: a stray 0xAA, thrust 100, temperature 10, time 1. */
  lemma ExampleFrame()
    ensures Feed(Fresh, [0xAA, 0xFF, 0x00, 0x64, 0xFE, 0x00, 0x0A, 0xFD, 0x00, 0x00, 0x00, 0x01]) ==
      (Fresh, [Sample(ThrustOf(100), TempOf(10), 1)])
  {
    var fs := [Noise(0xAA), Thrust(100), Temp(10), Time(1)];
    assert AllWellFormed(fs) && NarrowTimes(fs);
    assert Encode(fs) == [0xAA, 0xFF, 0x00, 0x64, 0xFE, 0x00, 0x0A, 0xFD, 0x00, 0x00, 0x00, 0x01] by {
      ExampleBytes(fs);
    }
    FeedFrames(fs);
    ExampleAssemble(fs);
  }

  lemma ExampleBytes(fs: seq<Field>)
    requires fs == [Noise(0xAA), Thrust(100), Temp(10), Time(1)]
    ensures AllWellFormed(fs)
    ensures Encode(fs) == [0xAA, 0xFF, 0x00, 0x64, 0xFE, 0x00, 0x0A, 0xFD, 0x00, 0x00, 0x00, 0x01]
  {
    assert WellFormed(fs[0]) && WellFormed(fs[1]) && WellFormed(fs[2]) && WellFormed(fs[3]);
    assert Encode(fs[4..]) == [];
    assert Encode(fs[3..]) == [0xFD, 0x00, 0x00, 0x00, 0x01] + Encode(fs[4..]);
    assert Encode(fs[2..]) == [0xFE, 0x00, 0x0A] + Encode(fs[3..]);
    assert Encode(fs[1..]) == [0xFF, 0x00, 0x64] + Encode(fs[2..]);
  }

  lemma ExampleAssemble(fs: seq<Field>)
    requires fs == [Noise(0xAA), Thrust(100), Temp(10), Time(1)]
    ensures Assemble(Unset, fs) == (Unset, [Sample(ThrustOf(100), TempOf(10), 1)])
  {
    var r1 := Sample(ThrustOf(100), MinValue, INT_MIN);
    var r2 := Sample(ThrustOf(100), TempOf(10), INT_MIN);
    var r3 := Sample(ThrustOf(100), TempOf(10), 1);
    assert fs[1..][1..] == fs[2..] && fs[2..][1..] == fs[3..] && fs[3..][1..] == fs[4..];
    assert fs[1..][0] == Thrust(100) && fs[2..][0] == Temp(10) && fs[3..][0] == Time(1);
    assert [] + [r3] == [r3] && [r3] + [] == [r3];
    assert After(r2, Time(1)) == Unset && Handed(r2, Time(1)) == [r3];
    assert After(r1, Temp(10)) == r2 && Handed(r1, Temp(10)) == [];
    assert After(Unset, Thrust(100)) == r1 && Handed(Unset, Thrust(100)) == [];
    assert After(Unset, Noise(0xAA)) == Unset && Handed(Unset, Noise(0xAA)) == [];
    assert Assemble(Unset, fs[4..]) == (Unset, []);
    assert Assemble(r2, fs[3..]) == (Unset, [r3] + []);
    assert Assemble(r1, fs[2..]) == (Unset, [] + [r3]);
    assert Assemble(Unset, fs[1..]) == (Unset, [] + [r3]);
    assert Assemble(Unset, fs) == (Unset, [] + [r3]);
  }


  // ---------------------------------------------------------------------
  // Where the decoder as written departs from the reference semantics.

  /** A thrust payload cut by a chunk boundary: the first chunk already hands
      on a record with the thrust of raw value 0, and the second completes a
      thrust that no record carries. The same bytes in one chunk give the
      record with the thrust sent. */
  lemma SplitThrustAsWritten()
    ensures var x: seq<byte> := [0xFE, 0x00, 0x0A, 0xFD, 0x00, 0x00, 0x00, 0x01, 0xFF, 0x00];
      var y: seq<byte> := [0x64];
      Feed(Fresh, x).1 == [Sample(ThrustOf(0), TempOf(10), 1)] &&
      Feed(Feed(Fresh, x).0, y).1 == [] &&
      Feed(Fresh, x + y).1 == [Sample(ThrustOf(100), TempOf(10), 1)]
  {
    var x: seq<byte> := [0xFE, 0x00, 0x0A, 0xFD, 0x00, 0x00, 0x00, 0x01, 0xFF, 0x00];
    var y: seq<byte> := [0x64];
    var fs := [Temp(10), Time(1), Thrust(100)];
    SplitThrustFrames(fs, x, y);
    SplitThrustFirst(x);
    SplitThrustSecond(Feed(Fresh, x).0, y);
    FeedFrames(fs);
  }

  lemma SplitThrustFrames(fs: seq<Field>, x: seq<byte>, y: seq<byte>)
    requires fs == [Temp(10), Time(1), Thrust(100)]
    requires x == [0xFE, 0x00, 0x0A, 0xFD, 0x00, 0x00, 0x00, 0x01, 0xFF, 0x00] && y == [0x64]
    ensures AllWellFormed(fs) && NarrowTimes(fs) && Encode(fs) == x + y
    ensures Assemble(Unset, fs).1 == [Sample(ThrustOf(100), TempOf(10), 1)]
  {
    assert WellFormed(fs[0]) && WellFormed(fs[1]) && WellFormed(fs[2]);
    assert fs[1..][1..] == fs[2..] && fs[2..][1..] == [];
    assert fs[1..][0] == Time(1) && fs[2..][0] == Thrust(100);
    assert Encode(fs[2..]) == [0xFF, 0x00, 0x64];
    assert Encode(fs[1..]) == [0xFD, 0x00, 0x00, 0x00, 0x01] + Encode(fs[2..]);
    var r1 := Sample(MinValue, TempOf(10), INT_MIN);
    var r2 := Sample(MinValue, TempOf(10), 1);
    var r3 := Sample(ThrustOf(100), TempOf(10), 1);
    assert After(Unset, Temp(10)) == r1 && Handed(Unset, Temp(10)) == [];
    assert After(r1, Time(1)) == r2 && Handed(r1, Time(1)) == [];
    assert Handed(r2, Thrust(100)) == [r3];
    assert Assemble(Unset, fs[2..][1..]).1 == [];
    assert Assemble(r2, fs[2..]).1 == [r3] + [];
    assert [] + [r3] == [r3];
  }

  /** The first chunk: temperature and time complete, then 0xFF with one of
      its two bytes. */
  lemma SplitThrustFirst(x: seq<byte>)
    requires x == [0xFE, 0x00, 0x0A, 0xFD, 0x00, 0x00, 0x00, 0x01, 0xFF, 0x00]
    ensures Feed(Fresh, x) == (Decoder(THRUST, 1, [0x00], Unset), [Sample(ThrustOf(0), TempOf(10), 1)])
  {
    var l0 := Loop(0, 0, [], Unset, 0, []);
    assert Start(Fresh, x) == (l0, x);
    var tail: seq<byte> := [0xFF, 0x00];
    assert x == EncodeField(Temp(10)) + (EncodeField(Time(1)) + tail);
    RunField(l0, Temp(10), EncodeField(Time(1)) + tail);
    var l1 := FrameStep(l0, Temp(10));
    assert l1 == Loop(0, 0, [], Sample(MinValue, TempOf(10), INT_MIN), 10, []);
    RunField(l1, Time(1), tail);
    SplitThrustTail(FrameStep(l1, Time(1)), tail);
  }

  lemma SplitThrustTail(l: Loop, tail: seq<byte>)
    requires l == Loop(0, 0, [], Sample(MinValue, TempOf(10), 1), 10, []) && tail == [0xFF, 0x00]
    ensures Run(l, tail) == Loop(THRUST, 1, [0x00], Unset, 0, [Sample(ThrustOf(0), TempOf(10), 1)])
  {
    var c := ReadCode(l, tail);
    assert c == (l.(code := THRUST), [0x00]);
    DeferredThrust(c.0, c.1);
    assert Step(l, tail) == (Loop(THRUST, 1, [0x00], Unset, 0, [Sample(ThrustOf(0), TempOf(10), 1)]), []);
  }

  /** The second chunk completes the pending thrust into a record that is
      not complete. */
  lemma SplitThrustSecond(d: Decoder, y: seq<byte>)
    requires d == Decoder(THRUST, 1, [0x00], Unset) && y == [0x64]
    ensures Feed(d, y) == (Decoder(0, 0, [], Sample(ThrustOf(100), MinValue, INT_MIN)), [])
  {
    var l := Loop(THRUST, 0, [], Unset, 0, []);
    var buffer: seq<byte> := [0x00, 0x64];
    assert d.carry + y == buffer;
    assert Start(d, y) == (l, buffer);
    CompleteRead(l, buffer);
    assert buffer[2..] == [];
    assert Step(l, buffer) == (Loop(0, 0, [], Sample(ThrustOf(100), MinValue, INT_MIN), 100, []), []);
  }

  /** A time stamp of 0x80000000 is read as Integer.MIN_VALUE, the unset
      sentinel, so the frame that should complete the record hands on
      nothing. */
  lemma WideTimeAsWritten()
    ensures Feed(Fresh, [0xFF, 0x00, 0x64, 0xFE, 0x00, 0x0A, 0xFD, 0x80, 0x00, 0x00, 0x00]) ==
      (Decoder(0, 0, [], Sample(ThrustOf(100), TempOf(10), INT_MIN)), [])
  {
    var s: seq<byte> := [0xFF, 0x00, 0x64, 0xFE, 0x00, 0x0A, 0xFD, 0x80, 0x00, 0x00, 0x00];
    var l0 := Loop(0, 0, [], Unset, 0, []);
    assert Start(Fresh, s) == (l0, s);
    var tail := EncodeField(Time(0x8000_0000));
    assert tail == [0xFD, 0x80, 0x00, 0x00, 0x00];
    assert s == EncodeField(Thrust(100)) + (EncodeField(Temp(10)) + tail);
    RunField(l0, Thrust(100), EncodeField(Temp(10)) + tail);
    var l1 := FrameStep(l0, Thrust(100));
    assert l1 == Loop(0, 0, [], Sample(ThrustOf(100), MinValue, INT_MIN), 100, []);
    RunField(l1, Temp(10), tail);
    WideTimeTail(FrameStep(l1, Temp(10)), tail);
  }

  lemma WideTimeTail(l: Loop, tail: seq<byte>)
    requires l == Loop(0, 0, [], Sample(ThrustOf(100), TempOf(10), INT_MIN), 10, [])
    requires tail == EncodeField(Time(0x8000_0000))
    ensures Run(l, tail) == l
  {
    StepWideTime(l, 0x8000_0000, []);
    assert tail + [] == tail;
    assert Step(l, tail) == (l, []);
  }

  /** A payload cut by a chunk boundary resumes: 0xFF 0x00 then 0x64 leaves
      the listener as 0xFF 0x00 0x64 at once does. */
  lemma ResumeAcrossChunks()
    ensures Feed(Feed(Fresh, [0xFF, 0x00]).0, [0x64]) == Feed(Fresh, [0xFF, 0x00, 0x64])
    ensures Feed(Fresh, [0xFF, 0x00, 0x64]) == (Decoder(0, 0, [], Sample(ThrustOf(100), MinValue, INT_MIN)), [])
  {
    var d := Decoder(THRUST, 1, [0x00], Sample(ThrustOf(0), MinValue, INT_MIN));
    ResumeFirst(d);
    ResumeSecond(d);
    ResumeWhole();
  }

  lemma ResumeFirst(d: Decoder)
    requires d == Decoder(THRUST, 1, [0x00], Sample(ThrustOf(0), MinValue, INT_MIN))
    ensures Feed(Fresh, [0xFF, 0x00]) == (d, [])
  {
    var l0 := Loop(0, 0, [], Unset, 0, []);
    var first: seq<byte> := [0xFF, 0x00];
    assert Start(Fresh, first) == (l0, first);
    var c := ReadCode(l0, first);
    assert c == (l0.(code := THRUST), [0x00]);
    DeferredThrust(c.0, c.1);
    assert Step(l0, first) == (Loop(THRUST, 1, [0x00], d.rec, 0, []), []);
  }

  lemma ResumeSecond(d: Decoder)
    requires d == Decoder(THRUST, 1, [0x00], Sample(ThrustOf(0), MinValue, INT_MIN))
    ensures Feed(d, [0x64]) == (Decoder(0, 0, [], Sample(ThrustOf(100), MinValue, INT_MIN)), [])
  {
    var l1 := Loop(THRUST, 0, [], d.rec, 0, []);
    var buffer: seq<byte> := [0x00, 0x64];
    assert d.carry + [0x64] == buffer;
    assert Start(d, [0x64]) == (l1, buffer);
    CompleteRead(l1, buffer);
    assert buffer[2..] == [];
    assert Step(l1, buffer) == (Loop(0, 0, [], Sample(ThrustOf(100), MinValue, INT_MIN), 100, []), []);
  }

  lemma ResumeWhole()
    ensures Feed(Fresh, [0xFF, 0x00, 0x64]) == (Decoder(0, 0, [], Sample(ThrustOf(100), MinValue, INT_MIN)), [])
  {
    var l0 := Loop(0, 0, [], Unset, 0, []);
    var whole: seq<byte> := [0xFF, 0x00, 0x64];
    assert Start(Fresh, whole) == (l0, whole);
    assert EncodeField(Thrust(100)) + [] == whole;
    RunField(l0, Thrust(100), []);
  }
}
