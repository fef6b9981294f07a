/** The decoder the ShepardDCS listener is evidently meant to be: a payload
    that is not complete yet is kept, with its control code, until the bytes
    that complete it arrive, and no field changes before then; a time stamp is
    read as an unsigned 32-bit value. Its state between chunks is the pending
    control code, the bytes kept back and the record being assembled. Unlike
    the decoder as written, it gives the same records however the stream is
    cut into chunks. */
module IntendedDecoder {
  import opened JavaLang
  import opened Telemetry
  import opened SerialDecoder
  import opened Frames

  datatype IState = IState(code: int, pending: seq<byte>, rec: Sample)

  const IFresh := IState(0, [], Unset)

  /** The state kept between chunks: the bytes kept back belong to a known
      pending code and do not yet complete its payload. */
  predicate IInv(d: IState)
  {
    Pending(d.code) && (d.code == 0 ==> d.pending == []) &&
    (d.code != 0 ==> |d.pending| < Width(d.code))
  }

  /** A complete payload sets its own field: thrust unsigned 16 bits,
      temperature signed 16 bits, time unsigned 32 bits. */
  function Decode(code: int, rec: Sample, payload: seq<byte>): (r: Sample)
    requires Known(code) && |payload| == Width(code)
    ensures code == TIME_STAMP ==> r.time >= 0
  {
    if code == THRUST then rec.(thrust := ThrustOf(Low16(GetShort(payload[0], payload[1]))))
    else if code == TEMPERATURE then rec.(temp := TempOf(GetShort(payload[0], payload[1])))
    else rec.(time := Unsigned32(payload))
  }

  /** Decoding a stream: the state reached and the records handed on. */
  function IRun(code: int, rec: Sample, s: seq<byte>): (r: (IState, seq<Sample>))
    requires Pending(code)
    ensures IInv(r.0)
    decreases |s|
  {
    if code == 0 then
      if s == [] then (IState(0, [], rec), [])
      else if Known(s[0] as int) then IRun(s[0] as int, rec, s[1..])
      else IRun(0, rec, s[1..])
    else if |s| < Width(code) then (IState(code, s, rec), [])
    else
      var r := Decode(code, rec, s[..Width(code)]);
      if r.IsSet() then
        var a := IRun(0, Unset, s[Width(code)..]);
        (a.0, [r] + a.1)
      else IRun(0, r, s[Width(code)..])
  }

  /** One chunk: the bytes kept back, then the chunk. */
  function IFeed(d: IState, chunk: seq<byte>): (r: (IState, seq<Sample>))
    requires IInv(d)
    ensures IInv(r.0)
  {
    IRun(d.code, d.rec, d.pending + chunk)
  }

  /** Decoding s then y is decoding s + y: what s leaves pending is completed
      by y, and the records are those of s followed by those of y. */
  lemma {:induction false} IRunAppend(code: int, rec: Sample, s: seq<byte>, y: seq<byte>)
    requires Pending(code)
    ensures var a := IRun(code, rec, s);
      var b := IRun(a.0.code, a.0.rec, a.0.pending + y);
      IRun(code, rec, s + y) == (b.0, a.1 + b.1)
    decreases |s|
  {
    if code == 0 {
      if s == [] {
        assert s + y == y;
      } else {
        assert (s + y)[0] == s[0] && (s + y)[1..] == s[1..] + y;
        if Known(s[0] as int) {
          IRunAppend(s[0] as int, rec, s[1..], y);
        } else {
          IRunAppend(0, rec, s[1..], y);
        }
      }
    } else if |s| >= Width(code) {
      var w := Width(code);
      assert (s + y)[..w] == s[..w] && (s + y)[w..] == s[w..] + y;
      var r := Decode(code, rec, s[..w]);
      if r.IsSet() {
        IRunAppend(0, Unset, s[w..], y);
        var a := IRun(0, Unset, s[w..]);
        var b := IRun(a.0.code, a.0.rec, a.0.pending + y);
        assert [r] + (a.1 + b.1) == ([r] + a.1) + b.1;
      } else {
        IRunAppend(0, r, s[w..], y);
      }
    } else {
      assert [] + IRun(code, rec, s + y).1 == IRun(code, rec, s + y).1;
    }
  }

  /** Chunk boundaries do not matter: feeding x and then y gives the state
      and, in order, the records of feeding x + y at once. */
  lemma IFeedSplit(d: IState, x: seq<byte>, y: seq<byte>)
    requires IInv(d)
    ensures var a := IFeed(d, x);
      var b := IFeed(a.0, y);
      IFeed(d, x + y) == (b.0, a.1 + b.1)
  {
    assert d.pending + (x + y) == (d.pending + x) + y;
    IRunAppend(d.code, d.rec, d.pending + x, y);
  }

  /** A control byte followed by its complete payload. */
  lemma IRunPayload(code: int, rec: Sample, payload: seq<byte>)
    requires Known(code) && |payload| == Width(code)
    ensures var r := Decode(code, rec, payload);
      IRun(0, rec, [code as byte] + payload) ==
        if r.IsSet() then (IState(0, [], Unset), [r]) else (IState(0, [], r), [])
  {
    var s := [code as byte] + payload;
    var r := Decode(code, rec, payload);
    assert s[1..] == payload && payload[..Width(code)] == payload && payload[Width(code)..] == [];
    assert IRun(0, rec, s) == IRun(code, rec, payload);
    if r.IsSet() {
      assert [r] + [] == [r];
    }
  }

  /** A single frame decodes as the reference semantics takes it. */
  lemma IRunField(rec: Sample, f: Field)
    requires WellFormed(f) && !rec.IsSet()
    ensures IRun(0, rec, EncodeField(f)) == (IState(0, [], After(rec, f)), Handed(rec, f))
  {
    match f
    case Thrust(v) =>
      Be16Unsigned(v);
      IRunPayload(THRUST, rec, Be16(v));
    case Temp(v) =>
      Be16Signed(v);
      IRunPayload(TEMPERATURE, rec, Be16(v));
    case Time(v) =>
      Be32Unsigned(v);
      IRunPayload(TIME_STAMP, rec, Be32(v));
    case Noise(b) =>
      assert EncodeField(f)[1..] == [];
  }

  /** A frame in front of more bytes: its record, if it completes one, comes
      first. */
  lemma IRunFieldThen(rec: Sample, f: Field, rest: seq<byte>)
    requires WellFormed(f) && !rec.IsSet()
    ensures var b := IRun(0, After(rec, f), rest);
      IRun(0, rec, EncodeField(f) + rest) == (b.0, Handed(rec, f) + b.1)
  {
    IRunAppend(0, rec, EncodeField(f), rest);
    IRunField(rec, f);
    assert [] + rest == rest;
  }

  /** Whole frames decode as the reference semantics says, whatever their
      time stamps. */
  lemma {:induction false} IRunFrames(rec: Sample, fs: seq<Field>)
    requires AllWellFormed(fs) && !rec.IsSet()
    ensures IRun(0, rec, Encode(fs)) == (IState(0, [], Assemble(rec, fs).0), Assemble(rec, fs).1)
    decreases |fs|
  {
    if fs != [] {
      var f := fs[0];
      Tail(fs);
      var rest := Encode(fs[1..]);
      assert Encode(fs) == EncodeField(f) + rest;
      IRunFieldThen(rec, f, rest);
      IRunFrames(After(rec, f), fs[1..]);
    }
  }

  /** However the byte stream of whole frames is cut in two, the decoder hands
      on the records of the reference semantics and ends with nothing
      pending. */
  lemma IFeedFramesSplit(fs: seq<Field>, x: seq<byte>, y: seq<byte>)
    requires AllWellFormed(fs) && x + y == Encode(fs)
    ensures var a := IFeed(IFresh, x);
      var b := IFeed(a.0, y);
      a.1 + b.1 == Assemble(Unset, fs).1 && b.0 == IState(0, [], Assemble(Unset, fs).0)
  {
    IFeedSplit(IFresh, x, y);
    assert IFresh.pending + (x + y) == Encode(fs);
    IRunFrames(Unset, fs);
  }

  // ---------------------------------------------------------------------
  // The inputs on which the decoder as written goes wrong.

  /** The thrust payload cut by a chunk boundary: one record, with the
      thrust sent. */
  lemma SplitThrustIntended()
    ensures var x: seq<byte> := [0xFE, 0x00, 0x0A, 0xFD, 0x00, 0x00, 0x00, 0x01, 0xFF, 0x00];
      var y: seq<byte> := [0x64];
      IFeed(IFresh, x).1 + IFeed(IFeed(IFresh, x).0, y).1 == [Sample(ThrustOf(100), TempOf(10), 1)]
  {
    var x: seq<byte> := [0xFE, 0x00, 0x0A, 0xFD, 0x00, 0x00, 0x00, 0x01, 0xFF, 0x00];
    var y: seq<byte> := [0x64];
    var fs := [Temp(10), Time(1), Thrust(100)];
    SplitThrustFrames(fs, x, y);
    IFeedFramesSplit(fs, x, y);
  }

  /** A time stamp of 0x80000000 completes the record. */
  lemma WideTimeIntended()
    ensures IFeed(IFresh, [0xFF, 0x00, 0x64, 0xFE, 0x00, 0x0A, 0xFD, 0x80, 0x00, 0x00, 0x00]).1 ==
      [Sample(ThrustOf(100), TempOf(10), 0x8000_0000)]
  {
    var s: seq<byte> := [0xFF, 0x00, 0x64, 0xFE, 0x00, 0x0A, 0xFD, 0x80, 0x00, 0x00, 0x00];
    var fs := [Thrust(100), Temp(10), Time(0x8000_0000)];
    WideTimeFrames(fs, s);
    IRunFrames(Unset, fs);
    assert IFresh.pending + s == s;
  }

  lemma WideTimeFrames(fs: seq<Field>, s: seq<byte>)
    requires fs == [Thrust(100), Temp(10), Time(0x8000_0000)]
    requires s == [0xFF, 0x00, 0x64, 0xFE, 0x00, 0x0A, 0xFD, 0x80, 0x00, 0x00, 0x00]
    ensures AllWellFormed(fs) && Encode(fs) == s
    ensures Assemble(Unset, fs).1 == [Sample(ThrustOf(100), TempOf(10), 0x8000_0000)]
  {
    assert WellFormed(fs[0]) && WellFormed(fs[1]) && WellFormed(fs[2]);
    assert fs[1..][1..] == fs[2..] && fs[2..][1..] == [];
    assert fs[1..][0] == Temp(10) && fs[2..][0] == Time(0x8000_0000);
    assert Encode(fs[2..]) == [0xFD, 0x80, 0x00, 0x00, 0x00];
    assert Encode(fs[1..]) == [0xFE, 0x00, 0x0A] + Encode(fs[2..]);
    var r1 := Sample(ThrustOf(100), MinValue, INT_MIN);
    var r2 := Sample(ThrustOf(100), TempOf(10), INT_MIN);
    var r3 := Sample(ThrustOf(100), TempOf(10), 0x8000_0000);
    assert After(Unset, Thrust(100)) == r1 && Handed(Unset, Thrust(100)) == [];
    assert After(r1, Temp(10)) == r2 && Handed(r1, Temp(10)) == [];
    assert Handed(r2, Time(0x8000_0000)) == [r3];
    assert Assemble(Unset, fs[2..][1..]).1 == [];
    assert Assemble(r2, fs[2..]).1 == [r3] + [];
    assert [] + [r3] == [r3];
  }
}
