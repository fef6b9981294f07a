/** The serial frame decoder of the trunk version
    (trunk ShepardSerialEventListener): each of the control bytes 0xFF
    (thrust), 0xFE (temperature) and 0xFD (time stamp) is followed by a
    big-endian signed 16-bit payload. A 0x00 read as a control code is
    skipped; any other unknown control code is never cleared, so once one is
    pending and a byte remains the decode loop makes no more progress and
    the event thread never returns. */
module TrunkSerialDecoder {
  import opened Wrappers
  import opened JavaLang
  import opened Telemetry
  import opened SerialLink
  import SD = SerialDecoder

  /** A control code the loop cannot get past: it is neither 0 nor known,
      and no branch clears it. */
  predicate Stuck(code: int)
  {
    code != 0 && !SD.Known(code)
  }

  /** The listener's state between calls. stalled records that an earlier
      call never returned: its thread is still spinning on an unknown code,
      so no later event is processed. */
  datatype Decoder = Decoder(code: int, leftoverBytes: int, carry: seq<byte>, rec: Sample, stalled: bool)

  const Fresh := Decoder(0, 0, [], Unset, false)

  /** The state inside one serialEvent call (the local intval is only read
      right after it is written, so it is not kept). */
  datatype Loop = Loop(code: int, leftoverBytes: int, carry: seq<byte>, rec: Sample, out: seq<Sample>)

  /** readShort: two bytes as a signed big-endian short, clearing the code,
      when more than one byte remains; otherwise every remaining byte (at
      most one) goes to leftover, leftoverBytes becomes what
      stream.read(leftover) returns, and Integer.MIN_VALUE is returned. */
  function ShortRead(l: Loop, rest: seq<byte>): (r: (int, seq<byte>, Loop))
    ensures |rest| >= 2 ==> r == (GetShort(rest[0], rest[1]), rest[2..], l.(code := 0))
    ensures |rest| < 2 ==> r == (INT_MIN, [], l.(leftoverBytes := if rest == [] then -1 else |rest|, carry := rest))
  {
    if |rest| >= 2 then (GetShort(rest[0], rest[1]), rest[2..], l.(code := 0))
    else (INT_MIN, [], l.(leftoverBytes := if rest == [] then -1 else |rest|, carry := rest))
  }

  /** The field a known control code selects, set to a decoded value. */
  function SetField(rec: Sample, code: int, v: int): Sample
    requires SD.Known(code)
  {
    if code == SD.THRUST then rec.(thrust := ThrustOf(v))
    else if code == SD.TEMPERATURE then rec.(temp := TempOf(v))
    else rec.(time := v)
  }

  /** The switch on controlCode: every known code reads a short and sets its
      field unless the read was deferred; the default branch does nothing. */
  function Dispatch(l: Loop, rest: seq<byte>): (r: (Loop, seq<byte>))
    ensures r.0.out == l.out && |r.1| <= |rest| && r.1 == rest[|rest| - |r.1|..]
    ensures rest != [] && SD.Known(l.code) ==> |r.1| < |rest|
    ensures !SD.Known(l.code) ==> r == (l, rest)
  {
    if SD.Known(l.code) then
      var t := ShortRead(l, rest);
      (if t.0 != INT_MIN then t.2.(rec := SetField(t.2.rec, l.code, t.0)) else t.2, t.1)
    else (l, rest)
  }

  /** After each pass: a complete record goes to handleData() and is
      cleared. */
  function Emit(l: Loop): (r: Loop)
    ensures !r.rec.IsSet()
    ensures r.out == l.out + (if l.rec.IsSet() then [l.rec] else [])
  {
    if l.rec.IsSet() then l.(rec := Unset, out := l.out + [l.rec]) else l
  }

  function ReadCode(l: Loop, rest: seq<byte>): (r: (Loop, seq<byte>))
    requires rest != []
    ensures l.code == 0 ==> r == (l.(code := rest[0]), rest[1..])
    ensures l.code != 0 ==> r == (l, rest)
  {
    if l.code == 0 then (l.(code := rest[0]), rest[1..]) else (l, rest)
  }

  /** One pass of the while loop. A pass consumes a byte unless the pending
      code is stuck, and then it changes nothing at all. */
  function Step(l: Loop, rest: seq<byte>): (r: (Loop, seq<byte>))
    requires rest != []
    ensures !r.0.rec.IsSet()
    ensures |r.1| <= |rest| && r.1 == rest[|rest| - |r.1|..]
    ensures !Stuck(l.code) ==> |r.1| < |rest|
    ensures Stuck(l.code) && !l.rec.IsSet() ==> r == (l, rest)
  {
    var c := ReadCode(l, rest);
    var d := Dispatch(c.0, c.1);
    (Emit(d.0), d.1)
  }

  /** The while loop: it runs until the stream is exhausted or, on a stuck
      code, stops making progress; the bytes it never gets to are returned
      (none unless it is stuck). */
  function Run(l: Loop, rest: seq<byte>): (r: (Loop, seq<byte>))
    requires !l.rec.IsSet()
    ensures !r.0.rec.IsSet()
    ensures r.1 != [] ==> Stuck(r.0.code)
    decreases |rest|
  {
    if rest == [] || Stuck(l.code) then (l, rest)
    else
      var next := Step(l, rest);
      Run(next.0, next.1)
  }

  /** n passes of the loop body. */
  function Passes(l: Loop, rest: seq<byte>, n: nat): (Loop, seq<byte>)
    decreases n
  {
    if n == 0 || rest == [] then (l, rest)
    else
      var next := Step(l, rest);
      Passes(next.0, next.1, n - 1)
  }

  /** On a stuck code with a byte left, no number of passes consumes a byte
      or changes anything: the loop never ends. */
  lemma {:induction false} StuckForever(l: Loop, rest: seq<byte>, n: nat)
    requires Stuck(l.code) && !l.rec.IsSet() && rest != []
    ensures Passes(l, rest, n) == (l, rest)
  {
    if n > 0 {
      StuckForever(l, rest, n - 1);
    }
  }

  /** The start of serialEvent: carried bytes go, in order, in front of the
      new chunk and leftoverBytes is reset to 0. */
  function Start(d: Decoder, chunk: seq<byte>): (r: (Loop, seq<byte>))
    ensures d.leftoverBytes > 0 ==> r.1 == d.carry + chunk && r.0.leftoverBytes == 0 && r.0.carry == []
    ensures d.leftoverBytes <= 0 ==> r.1 == chunk && r.0.leftoverBytes == d.leftoverBytes && r.0.carry == d.carry
    ensures r.0.code == d.code && r.0.rec == d.rec && r.0.out == []
  {
    if d.leftoverBytes > 0 then (Loop(d.code, 0, [], d.rec, []), d.carry + chunk)
    else (Loop(d.code, d.leftoverBytes, d.carry, d.rec, []), chunk)
  }

  /** One chunk: the new state and the records handed on. A stalled
      listener processes nothing. */
  function Feed(d: Decoder, chunk: seq<byte>): (r: (Decoder, seq<Sample>))
    requires !d.rec.IsSet()
    ensures !r.0.rec.IsSet()
  {
    if d.stalled then (d, [])
    else
      var st := Start(d, chunk);
      var e := Run(st.0, st.1);
      (Decoder(e.0.code, e.0.leftoverBytes, e.0.carry, e.0.rec, e.1 != []), e.0.out)
  }

  function OnEvent(d: Decoder, event: PortEvent): (r: (Decoder, seq<Sample>))
    requires !d.rec.IsSet()
    ensures !r.0.rec.IsSet()
  {
    match event
    case Received(Some(chunk)) => Feed(d, chunk)
    case _ => (d, [])
  }

  // ---------------------------------------------------------------------
  // What one pass does.

  /** A known code with two bytes available: the field is set to their
      signed value (the time stamp too), the code is cleared. */
  lemma CompleteShort(l: Loop, rest: seq<byte>)
    requires SD.Known(l.code) && |rest| >= 2
    ensures Dispatch(l, rest) == (l.(code := 0, rec := SetField(l.rec, l.code, GetShort(rest[0], rest[1]))), rest[2..])
  {
  }

  /** A known code with fewer than two bytes available: the bytes left (at
      most one) are carried over, the code stays pending and no field
      changes. */
  lemma DeferredShort(l: Loop, rest: seq<byte>)
    requires SD.Known(l.code) && |rest| < 2
    ensures Dispatch(l, rest) == (l.(leftoverBytes := if rest == [] then -1 else 1, carry := rest), [])
  {
  }

  /** A 0x00 control byte is consumed and skipped. */
  lemma ZeroSkipped(l: Loop, rest: seq<byte>)
    requires l.code == 0 && !l.rec.IsSet()
    ensures Step(l, [0] + rest) == (l, rest)
  {
    assert ([0] + rest)[1..] == rest;
  }

  // ---------------------------------------------------------------------
  // The loop in terms of the control code and the record alone.

  /** Where a stream leaves the decoder: the code and record, the records
      handed on, whether the last read was deferred and which bytes it
      carried over, and the bytes never reached because the code is stuck. */
  datatype Outcome = Outcome(code: int, rec: Sample, out: seq<Sample>, deferred: bool, tail: seq<byte>, rem: seq<byte>)

  /** The decoding of a stream, free of the leftover bookkeeping. */
  function CRun(code: int, rec: Sample, s: seq<byte>): (o: Outcome)
    requires !rec.IsSet()
    ensures !o.rec.IsSet() && |o.tail| < 2
    ensures !o.deferred ==> o.tail == []
    ensures o.deferred ==> SD.Known(o.code)
    ensures o.rem != [] ==> Stuck(o.code) && !o.deferred
    decreases |s|, 1
  {
    if s == [] then Outcome(code, rec, [], false, [], [])
    else if Stuck(code) then Outcome(code, rec, [], false, [], s)
    else if code == 0 then
      if SD.Known(s[0] as int) then Short(s[0] as int, rec, s[1..])
      else CRun(s[0] as int, rec, s[1..])
    else Short(code, rec, s)
  }

  /** The payload of a known code: deferred when fewer than two bytes are
      there, otherwise it sets the field and decoding goes on. */
  function Short(c: int, rec: Sample, p: seq<byte>): (o: Outcome)
    requires SD.Known(c) && !rec.IsSet()
    ensures !o.rec.IsSet() && |o.tail| < 2
    ensures !o.deferred ==> o.tail == []
    ensures o.deferred ==> SD.Known(o.code)
    ensures o.rem != [] ==> Stuck(o.code) && !o.deferred
    decreases |p|, 0
  {
    if |p| < 2 then Outcome(c, rec, [], true, p, [])
    else
      var r := SetField(rec, c, GetShort(p[0], p[1]));
      var o := CRun(0, if r.IsSet() then Unset else r, p[2..]);
      o.(out := (if r.IsSet() then [r] else []) + o.out)
  }

  /** The loop state an outcome leaves behind, from the state l it started
      in: leftoverBytes and leftover change only on a deferred read. */
  function Lift(l: Loop, o: Outcome): (Loop, seq<byte>)
  {
    (Loop(o.code,
          if o.deferred then (if o.tail == [] then -1 else |o.tail|) else l.leftoverBytes,
          if o.deferred then o.tail else l.carry,
          o.rec, l.out + o.out),
     o.rem)
  }

  /** The rest of a pass once a known code is in hand, and the passes after
      it. */
  function AfterCode(m: Loop, p: seq<byte>): (Loop, seq<byte>)
    requires SD.Known(m.code) && !m.rec.IsSet()
  {
    var d := Dispatch(m, p);
    Run(Emit(d.0), d.1)
  }

  /** A pass that starts with a known code in hand, or reads one. */
  lemma StepShort(l: Loop, s: seq<byte>)
    requires !l.rec.IsSet() && s != [] && !Stuck(l.code)
    requires l.code == 0 ==> SD.Known(s[0] as int)
    ensures l.code == 0 ==> Run(l, s) == AfterCode(l.(code := s[0] as int), s[1..])
    ensures l.code != 0 ==> Run(l, s) == AfterCode(l, s)
  {
  }

  /** A pass that reads an unknown control code. */
  lemma StepUnknown(l: Loop, s: seq<byte>)
    requires !l.rec.IsSet() && s != [] && l.code == 0 && !SD.Known(s[0] as int)
    ensures Run(l, s) == Run(l.(code := s[0] as int), s[1..])
  {
  }

  /** A complete payload: the field is set, a complete record is handed on,
      and the passes go on from code 0. */
  lemma AfterCodeComplete(m: Loop, p: seq<byte>)
    requires SD.Known(m.code) && !m.rec.IsSet() && |p| >= 2
    ensures var r := SetField(m.rec, m.code, GetShort(p[0], p[1]));
      AfterCode(m, p) == Run(m.(code := 0, rec := if r.IsSet() then Unset else r,
                                out := m.out + if r.IsSet() then [r] else []), p[2..])
  {
    var r := SetField(m.rec, m.code, GetShort(p[0], p[1]));
    var d := Dispatch(m, p);
    CompleteShort(m, p);
    assert d == (m.(code := 0, rec := r), p[2..]);
  }

  /** An outcome lifted onto a state that has already handed on h. */
  lemma LiftOnto(l: Loop, l2: Loop, h: seq<Sample>, o: Outcome)
    requires l2.leftoverBytes == l.leftoverBytes && l2.carry == l.carry && l2.out == l.out + h
    ensures Lift(l2, o) == Lift(l, o.(out := h + o.out))
  {
    assert (l.out + h) + o.out == l.out + (h + o.out);
  }

  /** The passes from a known code in hand are its payload's outcome. */
  lemma {:induction false} AfterCodeIsShort(m: Loop, p: seq<byte>)
    requires SD.Known(m.code) && !m.rec.IsSet()
    ensures AfterCode(m, p) == Lift(m, Short(m.code, m.rec, p))
    decreases |p|, 0
  {
    if |p| < 2 {
      DeferredShort(m, p);
      assert m.out + [] == m.out;
    } else {
      AfterCodeComplete(m, p);
      var r := SetField(m.rec, m.code, GetShort(p[0], p[1]));
      var h := if r.IsSet() then [r] else [];
      var next := m.(code := 0, rec := if r.IsSet() then Unset else r, out := m.out + h);
      RunIsCRun(next, p[2..]);
      var o := CRun(0, next.rec, p[2..]);
      LiftOnto(m, next, h, o);
    }
  }

  /** The loop is the outcome lifted onto its starting state. */
  lemma {:induction false} RunIsCRun(l: Loop, s: seq<byte>)
    requires !l.rec.IsSet()
    ensures Run(l, s) == Lift(l, CRun(l.code, l.rec, s))
    decreases |s|, 1
  {
    if s == [] || Stuck(l.code) {
      assert l.out + [] == l.out;
    } else if l.code == 0 {
      if SD.Known(s[0] as int) {
        StepShort(l, s);
        AfterCodeIsShort(l.(code := s[0] as int), s[1..]);
      } else {
        StepUnknown(l, s);
        RunIsCRun(l.(code := s[0] as int), s[1..]);
      }
    } else {
      StepShort(l, s);
      AfterCodeIsShort(l, s);
    }
  }

  /** What decoding s + y gives from what decoding s gives: a stream that
      got stuck stays stuck with y unread; otherwise y continues from where
      s left off, after the bytes s carried over. */
  predicate Continues(o: Outcome, y: seq<byte>, w: Outcome)
    requires !o.rec.IsSet()
  {
    if o.rem != [] then w == o.(rem := o.rem + y)
    else
      var o2 := CRun(o.code, o.rec, o.tail + y);
      w == o2.(out := o.out + o2.out)
  }

  /** Decoding s and then a non-empty y is decoding s + y. */
  lemma {:induction false} CRunAppend(code: int, rec: Sample, s: seq<byte>, y: seq<byte>)
    requires !rec.IsSet() && y != []
    ensures Continues(CRun(code, rec, s), y, CRun(code, rec, s + y))
    decreases |s|, 1
  {
    if s == [] {
      assert s + y == y && [] + y == y;
      assert [] + CRun(code, rec, y).out == CRun(code, rec, y).out;
    } else if Stuck(code) {
    } else if code == 0 {
      assert (s + y)[0] == s[0] && (s + y)[1..] == s[1..] + y;
      if SD.Known(s[0] as int) {
        ShortAppend(s[0] as int, rec, s[1..], y);
      } else {
        CRunAppend(s[0] as int, rec, s[1..], y);
      }
    } else {
      ShortAppend(code, rec, s, y);
    }
  }

  lemma {:induction false} ShortAppend(c: int, rec: Sample, p: seq<byte>, y: seq<byte>)
    requires SD.Known(c) && !rec.IsSet() && y != []
    ensures Continues(Short(c, rec, p), y, Short(c, rec, p + y))
    decreases |p|, 0
  {
    if |p| < 2 {
      assert [] + Short(c, rec, p + y).out == Short(c, rec, p + y).out;
    } else {
      var py := p + y;
      assert py[0] == p[0] && py[1] == p[1] && py[2..] == p[2..] + y;
      var r := SetField(rec, c, GetShort(p[0], p[1]));
      var h := if r.IsSet() then [r] else [];
      var rec' := if r.IsSet() then Unset else r;
      CRunAppend(0, rec', p[2..], y);
      var o := CRun(0, rec', p[2..]);
      if o.rem == [] {
        var o2 := CRun(o.code, o.rec, o.tail + y);
        assert h + (o.out + o2.out) == (h + o.out) + o2.out;
      }
    }
  }

  // ---------------------------------------------------------------------
  // The whole listener.

  /** The decoder invariant kept between calls. */
  predicate Inv(d: Decoder)
  {
    !d.rec.IsSet() &&
    (d.leftoverBytes > 0 ==> SD.Known(d.code) && |d.carry| == d.leftoverBytes == 1) &&
    (d.leftoverBytes <= 0 ==> d.carry == [])
  }

  /** What of the state affects later decoding: a non-positive leftoverBytes
      (0 or -1) carries nothing over. */
  function View(d: Decoder): (int, seq<byte>, Sample, bool)
  {
    (d.code, if d.leftoverBytes > 0 then d.carry else [], d.rec, d.stalled)
  }

  /** The bytes a call decodes: the carried byte, if any, then the chunk. */
  function Buffer(d: Decoder, chunk: seq<byte>): seq<byte>
  {
    if d.leftoverBytes > 0 then d.carry + chunk else chunk
  }

  /** The state a call leaves, from the outcome of decoding its bytes. */
  function Settle(d: Decoder, o: Outcome): Decoder
  {
    Decoder(o.code,
            if o.deferred then (if o.tail == [] then -1 else |o.tail|)
            else if d.leftoverBytes > 0 then 0 else d.leftoverBytes,
            if o.deferred then o.tail else if d.leftoverBytes > 0 then [] else d.carry,
            o.rec, o.rem != [])
  }

  /** A call of a listener that is not stalled, in terms of the outcome. */
  lemma FeedIsCRun(d: Decoder, chunk: seq<byte>)
    requires !d.rec.IsSet() && !d.stalled
    ensures var o := CRun(d.code, d.rec, Buffer(d, chunk));
      Feed(d, chunk) == (Settle(d, o), o.out)
  {
    var st := Start(d, chunk);
    RunIsCRun(st.0, st.1);
    assert [] + CRun(d.code, d.rec, Buffer(d, chunk)).out == CRun(d.code, d.rec, Buffer(d, chunk)).out;
  }

  /** Chunk boundaries do not matter in this version: feeding x and then a
      non-empty y hands on the records of feeding x + y at once, in order,
      and leaves a state that decodes every later chunk alike. */
  lemma FeedSplit(d: Decoder, x: seq<byte>, y: seq<byte>)
    requires Inv(d) && y != []
    ensures var a := Feed(d, x);
      var b := Feed(a.0, y);
      var w := Feed(d, x + y);
      a.1 + b.1 == w.1 && View(b.0) == View(w.0)
  {
    if !d.stalled {
      var B := Buffer(d, x);
      if d.leftoverBytes > 0 {
        assert d.carry + (x + y) == (d.carry + x) + y;
      }
      assert Buffer(d, x + y) == B + y;
      FeedIsCRun(d, x);
      FeedIsCRun(d, x + y);
      CRunAppend(d.code, d.rec, B, y);
      var o := CRun(d.code, d.rec, B);
      var a := Settle(d, o);
      if o.rem == [] {
        assert Buffer(a, y) == o.tail + y;
        FeedIsCRun(a, y);
      } else {
        assert o.out + [] == o.out;
      }
    }
  }

  /** Every chunk keeps the invariant. */
  lemma FeedKeepsInv(d: Decoder, chunk: seq<byte>)
    requires Inv(d)
    ensures Inv(Feed(d, chunk).0)
  {
    if !d.stalled {
      FeedIsCRun(d, chunk);
    }
  }

  /** A stray 0x01 in front of three whole frames: no frame is read, the
      listener stalls, and a later chunk is not processed. */
  lemma StrayCodeStalls()
    ensures Feed(Fresh, StrayInput) == (Decoder(0x01, 0, [], Unset, true), [])
    ensures Feed(Decoder(0x01, 0, [], Unset, true), [0xFF, 0x00, 0x64]) == (Decoder(0x01, 0, [], Unset, true), [])
  {
    assert Start(Fresh, StrayInput).1 == StrayInput;
    StepUnknown(Loop(0, 0, [], Unset, []), StrayInput);
  }

  /** A stray 0x01 followed by a thrust, a temperature and a time frame. */
  const StrayInput: seq<byte> := [0x01, 0xFF, 0x00, 0x64, 0xFE, 0x00, 0x0A, 0xFD, 0x00, 0x01]

  // ---------------------------------------------------------------------
  // The default branch as the ShepardDCS version writes it

  /** The switch with an unknown control code cleared, as the ShepardDCS
      version's default branch does. */
  function ResetDispatch(l: Loop, rest: seq<byte>): (r: (Loop, seq<byte>))
    ensures SD.Known(l.code) ==> r == Dispatch(l, rest)
    ensures !SD.Known(l.code) ==> r == (l.(code := 0), rest)
  {
    if SD.Known(l.code) then Dispatch(l, rest) else (l.(code := 0), rest)
  }

  /** One pass with that default branch; a code left pending is always a
      known one, and every pass consumes a byte. */
  function ResetStep(l: Loop, rest: seq<byte>): (r: (Loop, seq<byte>))
    requires rest != [] && SD.Pending(l.code)
    ensures SD.Pending(r.0.code) && !r.0.rec.IsSet()
    ensures |r.1| < |rest|
  {
    var c := ReadCode(l, rest);
    var d := ResetDispatch(c.0, c.1);
    (Emit(d.0), d.1)
  }

  /** The loop with that default branch: it always reaches the end of the
      stream. */
  function ResetRun(l: Loop, rest: seq<byte>): (r: Loop)
    requires SD.Pending(l.code)
    ensures SD.Pending(r.code) && (rest != [] ==> !r.rec.IsSet())
    decreases |rest|
  {
    if rest == [] then l
    else
      var next := ResetStep(l, rest);
      ResetRun(next.0, next.1)
  }

  /** With the unknown code cleared, a stray byte costs only itself: the
      loop goes on as if it had not been there. */
  lemma ResetSkipsStray(l: Loop, b: byte, rest: seq<byte>)
    requires l.code == 0 && !SD.Known(b) && !l.rec.IsSet()
    ensures ResetRun(l, [b] + rest) == ResetRun(l, rest)
  {
    assert ([b] + rest)[1..] == rest;
    assert ResetStep(l, [b] + rest) == (l, rest);
  }

  /** With the code cleared, the same input as in StrayCodeStalls hands on
      the record of its three frames. */
  lemma StrayCodeRecovers()
    ensures ResetRun(Loop(0, 0, [], Unset, []), StrayInput).out == [Sample(ThrustOf(100), TempOf(10), 1)]
  {
    var l := Loop(0, 0, [], Unset, []);
    ResetSkipsStray(l, 0x01, StrayInput[1..]);
    assert [0x01 as byte] + StrayInput[1..] == StrayInput;
    ResetFrames(l, StrayInput[1..]);
  }

  lemma ResetFrames(l: Loop, t: seq<byte>)
    requires l == Loop(0, 0, [], Unset, []) && t == [0xFF, 0x00, 0x64, 0xFE, 0x00, 0x0A, 0xFD, 0x00, 0x01]
    ensures ResetRun(l, t).out == [Sample(ThrustOf(100), TempOf(10), 1)]
  {
    GetShortValues();
    var l1 := Loop(0, 0, [], Sample(ThrustOf(100), MinValue, INT_MIN), []);
    assert ResetStep(l, t) == (l1, t[3..]);
    var l2 := Loop(0, 0, [], Sample(ThrustOf(100), TempOf(10), INT_MIN), []);
    assert ResetStep(l1, t[3..]) == (l2, t[6..]);
    var t3 := t[6..];
    assert t3 == [0xFD, 0x00, 0x01];
    var c := ReadCode(l2, t3);
    assert c == (l2.(code := 0xFD), [0x00, 0x01]);
    var d := ResetDispatch(c.0, c.1);
    assert d == (l2.(rec := Sample(ThrustOf(100), TempOf(10), 1)), []);
    var l3 := Loop(0, 0, [], Unset, [Sample(ThrustOf(100), TempOf(10), 1)]);
    assert d.0.rec.IsSet();
    assert Emit(d.0) == l3;
    assert ResetStep(l2, t3) == (l3, []);
    assert ResetRun(l2, t3) == l3;
    assert ResetRun(l1, t[3..]) == l3;
    assert ResetRun(l, t) == l3;
  }

  lemma GetShortValues()
    ensures GetShort(0x00, 0x64) == 100 && GetShort(0x00, 0x0A) == 10 && GetShort(0x00, 0x01) == 1
  {
  }

  /** ShepardSerialEventListener (trunk). */
  class TrunkSerialEventListener {
    var controlCode: int
    var leftoverBytes: int
    const leftover: array<byte>
    const datapoint: ShepardData
    /** Whether an earlier serialEvent is still spinning on a stuck code. */
    var stalled: bool

    ghost predicate Valid()
      reads this, leftover, datapoint
    {
      leftover.Length == 256 && leftoverBytes <= leftover.Length && !datapoint.IsSet()
    }

    ghost function Carry(): seq<byte>
      reads this, leftover
      requires leftoverBytes <= leftover.Length
    {
      if leftoverBytes > 0 then leftover[..leftoverBytes] else []
    }

    ghost function State(): Decoder
      reads this, leftover, datapoint
      requires Valid()
    {
      Decoder(controlCode, leftoverBytes, Carry(), datapoint.Value(), stalled)
    }

    ghost function Current(out: seq<Sample>): Loop
      reads this, leftover, datapoint
      requires leftoverBytes <= leftover.Length
    {
      Loop(controlCode, leftoverBytes, Carry(), datapoint.Value(), out)
    }

    constructor()
      ensures Valid() && State() == Fresh
      ensures fresh(leftover) && fresh(datapoint)
    {
      controlCode := 0;
      leftoverBytes := 0;
      leftover := new byte[256](_ => 0);
      datapoint := new ShepardData();
      stalled := false;
    }

    /** readShort */
    method ReadShort(buffer: seq<byte>, pos: nat, ghost out: seq<Sample>) returns (v: int, pos': nat)
      requires leftover.Length == 256 && leftoverBytes <= 256 && pos <= |buffer|
      modifies this, leftover
      ensures leftoverBytes <= 256 && pos' <= |buffer| && stalled == old(stalled)
      ensures (v, buffer[pos'..], Current(out)) == ShortRead(old(Current(out)), buffer[pos..])
    {
      ghost var before := old(Current(out));
      ghost var rest := buffer[pos..];
      if |buffer| - pos > 1 {
        v := GetShort(buffer[pos], buffer[pos + 1]);
        pos' := pos + 2;
        controlCode := 0;
        assert rest[2..] == buffer[pos'..] && rest[0] == buffer[pos] && rest[1] == buffer[pos + 1];
        assert Current(out) == before.(code := 0);
      } else {
        v := INT_MIN;
        if |buffer| - pos == 1 {
          leftover[0] := buffer[pos];
          leftoverBytes := 1;
          assert leftover[..1] == rest;
        } else {
          leftoverBytes := -1;
          assert rest == [];
        }
        pos' := |buffer|;
        assert buffer[pos'..] == [] && |rest| < 2;
        assert Current(out) == before.(leftoverBytes := if rest == [] then -1 else |rest|, carry := rest);
      }
    }

    /** The switch on controlCode. */
    method Switch(buffer: seq<byte>, pos: nat, ghost out: seq<Sample>) returns (pos': nat)
      requires leftover.Length == 256 && leftoverBytes <= 256 && pos <= |buffer|
      modifies this, leftover, datapoint
      ensures leftoverBytes <= 256 && pos' <= |buffer| && stalled == old(stalled)
      ensures (Current(out), buffer[pos'..]) == Dispatch(old(Current(out)), buffer[pos..])
    {
      pos' := pos;
      if SD.Known(controlCode) {
        var code := controlCode;
        var intval;
        intval, pos' := ReadShort(buffer, pos, out);
        if intval != INT_MIN {
          if code == SD.THRUST {
            datapoint.thrust := ThrustOf(intval);
          } else if code == SD.TEMPERATURE {
            datapoint.temp := TempOf(intval);
          } else {
            datapoint.time := intval;
          }
        }
      }
    }

    /** One pass of the decode loop. */
    method Iterate(buffer: seq<byte>, pos: nat, emitted: seq<Sample>) returns (pos': nat, emitted': seq<Sample>)
      requires Valid() && pos < |buffer|
      modifies this, leftover, datapoint
      ensures Valid() && pos' <= |buffer| && stalled == old(stalled)
      ensures (Current(emitted'), buffer[pos'..]) == Step(old(Current(emitted)), buffer[pos..])
    {
      ghost var before := Current(emitted);
      ghost var rest := buffer[pos..];
      pos' := pos;
      if controlCode == 0 {
        controlCode := buffer[pos];
        pos' := pos + 1;
      }
      assert (Current(emitted), buffer[pos'..]) == ReadCode(before, rest);
      pos' := Switch(buffer, pos', emitted);
      ghost var mid := Current(emitted);
      emitted' := emitted;
      if datapoint.IsSet() {
        emitted' := emitted + [datapoint.Value()];
        datapoint.Clear();
      }
      assert Current(emitted') == Emit(mid);
    }

    /** serialEvent(event), proved against OnEvent. The loop exits where the
        source's loop would spin forever, and the listener is marked
        stalled. */
    method SerialEvent(event: PortEvent) returns (emitted: seq<Sample>)
      requires Valid()
      modifies this, leftover, datapoint
      ensures Valid()
      ensures (State(), emitted) == OnEvent(old(State()), event)
    {
      emitted := [];
      if !stalled && event.Received? && event.read.Some? {
        var chunk := event.read.value;
        ghost var start := Start(State(), chunk);
        var buffer := chunk;
        if leftoverBytes > 0 {
          buffer := leftover[..leftoverBytes] + chunk;
          leftoverBytes := 0;
        }
        var pos := 0;
        assert Current(emitted) == start.0 && buffer[pos..] == start.1;
        while pos < |buffer| && !Stuck(controlCode)
          invariant Valid() && pos <= |buffer| && !stalled
          invariant Run(Current(emitted), buffer[pos..]) == Run(start.0, start.1)
          decreases |buffer| - pos
        {
          ghost var before := Current(emitted);
          ghost var rest := buffer[pos..];
          pos, emitted := Iterate(buffer, pos, emitted);
          assert Run(before, rest) == Run(Current(emitted), buffer[pos..]);
        }
        stalled := pos < |buffer|;
      }
    }
  }
}
