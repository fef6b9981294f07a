/** One telemetry record (ShepardData): thrust, temperature and a timestamp,
    each with a sentinel that means "not yet received". */
module Telemetry {
  import opened Wrappers
  import opened JavaLang

  /** A Java float as the core handles it. The core never computes with a
      float; it only stores the result of a conversion, compares it with
      Float.MIN_VALUE and prints it. So a float is represented by where it
      came from: the sentinel MinValue, the thrust or temperature conversion
      of a raw reading (neither conversion can yield Float.MIN_VALUE for a
      16-bit raw value), or the result of Float.parseFloat on some text. */
  datatype Float = MinValue | ThrustOf(raw: int) | TempOf(raw: int) | Parsed(text: string)

  /** The value held by a ShepardData object; time is a Java long. */
  datatype Sample = Sample(thrust: Float, temp: Float, time: int)
  {
    /** isSet(): no field holds its sentinel. */
    predicate IsSet()
    {
      thrust != MinValue && temp != MinValue && time != INT_MIN
    }
  }

  /** What clear() leaves behind. */
  const Unset := Sample(MinValue, MinValue, INT_MIN)

  /** toString(): time, thrust and temp joined by commas, in that order, with
      Float.toString given as fmt. */
  function Render(d: Sample, fmt: Float -> string): string
  {
    LongToString(d.time) + "," + fmt(d.thrust) + "," + fmt(d.temp)
  }

  /** The String constructor: split on ","; anything but exactly three parts
      is an Exception, then part 0 is read by Integer.parseInt into time and
      parts 1 and 2 by Float.parseFloat (given as pf, None for its
      NumberFormatException) into thrust and temp. None is the exception. */
  function ParseSample(s: string, pf: string -> Option<Float>): (r: Option<Sample>)
    ensures |Split(s, ',')| != 3 ==> r.None?
    ensures var p := Split(s, ',');
      r.Some? <==> |p| == 3 && ParseInt(p[0]).Some? && pf(p[1]).Some? && pf(p[2]).Some?
    ensures r.Some? ==> IsInt(r.value.time)
    ensures r.Some? ==>
      var parts := Split(s, ',');
      ParseInt(parts[0]) == Some(r.value.time) &&
      pf(parts[1]) == Some(r.value.thrust) && pf(parts[2]) == Some(r.value.temp)
  {
    var parts := Split(s, ',');
    if |parts| != 3 then None
    else
      match (ParseInt(parts[0]), pf(parts[1]), pf(parts[2]))
      case (Some(time), Some(thrust), Some(temp)) => Some(Sample(thrust, temp, time))
      case _ => None
  }

  /** toString writes the three fields as separate comma-delimited texts, time
      first, whenever Float.toString writes no comma and never an empty text. */
  lemma RenderFields(d: Sample, fmt: Float -> string)
    requires ',' !in fmt(d.thrust) && ',' !in fmt(d.temp) && fmt(d.temp) != ""
    ensures Split(Render(d, fmt), ',') == [LongToString(d.time), fmt(d.thrust), fmt(d.temp)]
  {
    var t := LongToString(d.time);
    assert Render(d, fmt) == t + [','] + fmt(d.thrust) + [','] + fmt(d.temp);
    SplitJoined(t, fmt(d.thrust), fmt(d.temp), ',');
  }

  /** The String constructor reads back what toString wrote, provided the time
      fits an int (it is read back by Integer.parseInt) and Float.parseFloat
      reads back what Float.toString wrote. */
  lemma ParseRender(d: Sample, fmt: Float -> string, pf: string -> Option<Float>)
    requires IsInt(d.time)
    requires ',' !in fmt(d.thrust) && ',' !in fmt(d.temp) && fmt(d.temp) != ""
    requires pf(fmt(d.thrust)) == Some(d.thrust) && pf(fmt(d.temp)) == Some(d.temp)
    ensures ParseSample(Render(d, fmt), pf) == Some(d)
  {
    RenderFields(d, fmt);
    ParseIntOfLongToString(d.time);
  }

  /** A time outside the int range is written by toString but refused by the
      String constructor, whatever the floats are. */
  lemma ParseRenderWideTime(d: Sample, fmt: Float -> string, pf: string -> Option<Float>)
    requires !IsInt(d.time)
    requires ',' !in fmt(d.thrust) && ',' !in fmt(d.temp) && fmt(d.temp) != ""
    ensures ParseSample(Render(d, fmt), pf).None?
  {
    RenderFields(d, fmt);
    ParseIntOfLongToString(d.time);
  }

  /** One record as the decoder assembles it and hands it on. */
  class ShepardData {
    var thrust: Float
    var temp: Float
    var time: int

    /** The record's current value. */
    function Value(): Sample
      reads this
    {
      Sample(thrust, temp, time)
    }

    /** ShepardData(): every field at its sentinel. */
    constructor()
      ensures Value() == Unset && !Value().IsSet()
    {
      new;
      Clear();
    }

    /** The String constructor, as a factory: null where the constructor
        throws. */
    static method FromString(s: string, pf: string -> Option<Float>) returns (d: ShepardData?)
      ensures d == null <==> ParseSample(s, pf).None?
      ensures d != null ==> fresh(d) && d.Value() == ParseSample(s, pf).value
    {
      var parts := Split(s, ',');
      if |parts| != 3 {
        return null;
      }
      var time := ParseInt(parts[0]);
      if time.None? {
        return null;
      }
      var thrust := pf(parts[1]);
      if thrust.None? {
        return null;
      }
      var temp := pf(parts[2]);
      if temp.None? {
        return null;
      }
      d := new ShepardData();
      d.time, d.thrust, d.temp := time.value, thrust.value, temp.value;
    }

    /** isSet() */
    predicate IsSet()
      reads this
    {
      Value().IsSet()
    }

    /** clear(): every field back to its sentinel. */
    method Clear()
      modifies this
      ensures Value() == Unset && !IsSet()
    {
      thrust := MinValue;
      temp := MinValue;
      time := INT_MIN;
    }

    /** toString() */
    function ToString(fmt: Float -> string): string
      reads this
    {
      Render(Value(), fmt)
    }
  }
}
