/** The recording side of the trunk ShepardDataCollectionPanel: the name of
    the CSV file, the lines written to it, the connect and record buttons and
    the listener that plots and records each decoded sample. Files are the
    contents written to each name; the date stamp, the save location and
    the outcome of every file operation are parameters. */
module CollectionPanel {
  import opened Wrappers
  import opened JavaLang
  import opened Telemetry

  const CSV_HEADER: string := "TIME(ms),THRUST(N),TEMPERATURE(c)"

  /** The text the regular expression " \t/\\:" matches: space, tab, '/'
      and ':' in a row (the backslash only escapes the colon). */
  const SPECIAL_RUN: string := " \t/:"

  const CSV_SUFFIX: string := ".csv"

  // ---------------------------------------------------------------------
  // getFileName

  /** The notation part of the name: empty for a blank notation, otherwise
      "__" and the trimmed notation with every run of SPECIAL_RUN made "_". */
  function NotationPart(notation: string): (p: string)
    ensures p == [] <==> Trim(notation) == []
    ensures p != [] ==> |p| >= 2 && p[..2] == "__"
  {
    var n := Trim(notation);
    if n == [] then [] else "__" + ReplaceAll(n, SPECIAL_RUN, "_")
  }

  /** getFileName(): save location, date stamp, notation part, ".csv". A
      null save location is written as "null", as string concatenation does. */
  function FileName(saveLocation: Option<string>, dateStamp: string, notation: string): (name: string)
  {
    Str(saveLocation) + dateStamp + NotationPart(notation) + CSV_SUFFIX
  }

  /** The name starts with the save location and the date stamp and always
      ends in ".csv". */
  lemma FileNameShape(saveLocation: Option<string>, dateStamp: string, notation: string)
    ensures var name := FileName(saveLocation, dateStamp, notation);
      EndsWith(name, CSV_SUFFIX) &&
      |Str(saveLocation) + dateStamp| <= |name| &&
      name[..|Str(saveLocation) + dateStamp|] == Str(saveLocation) + dateStamp
  {
    var name := FileName(saveLocation, dateStamp, notation);
    var head := Str(saveLocation) + dateStamp;
    assert name == head + (NotationPart(notation) + CSV_SUFFIX);
    assert name[|name| - |CSV_SUFFIX|..] == CSV_SUFFIX;
    assert name[..|head|] == head;
  }

  /** With a blank notation the name is exactly location, stamp and ".csv";
      with any other notation a "__" follows the stamp. */
  lemma NotationSegmentIffText(saveLocation: Option<string>, dateStamp: string, notation: string)
    ensures var head := Str(saveLocation) + dateStamp;
      var name := FileName(saveLocation, dateStamp, notation);
      (Trim(notation) == [] <==> name == head + CSV_SUFFIX) &&
      (Trim(notation) != [] <==> (|head| + 2 <= |name| && name[|head|..|head| + 2] == "__"))
  {
    Segment(Str(saveLocation) + dateStamp, NotationPart(notation));
  }

  /** A middle part that is empty or starts with "__", between a head and
      ".csv": the name equals head + ".csv" exactly when the part is empty,
      and "__" follows the head exactly when it is not. */
  lemma Segment(head: string, p: string)
    requires p == [] || (|p| >= 2 && p[..2] == "__")
    ensures var name := head + p + CSV_SUFFIX;
      (p == [] <==> name == head + CSV_SUFFIX) &&
      (p != [] <==> (|head| + 2 <= |name| && name[|head|..|head| + 2] == "__"))
  {
    var name := head + p + CSV_SUFFIX;
    if p == [] {
      assert name[|head|..|head| + 2] == CSV_SUFFIX[..2];
      assert CSV_SUFFIX[0] != '_';
    } else {
      assert |name| != |head + CSV_SUFFIX|;
      assert name[|head|..|head| + 2] == p[..2];
    }
  }

  lemma TrimIdempotent(s: string)
    ensures Trim(Trim(s)) == Trim(s)
  {
    var r := Trim(s);
    assert TrimStart(r) == r;
    assert TrimEnd(r) == r;
  }

  /** Spaces around the notation do not change the name. */
  lemma NameIgnoresSurroundingBlanks(saveLocation: Option<string>, dateStamp: string, notation: string)
    ensures FileName(saveLocation, dateStamp, Trim(notation)) == FileName(saveLocation, dateStamp, notation)
  {
    TrimIdempotent(notation);
  }

  /** A directory separator on its own survives into the name: the notation
      "a/b" leaves "__a/b", and the name leaves the save directory. */
  lemma SeparatorSurvives(saveLocation: Option<string>, dateStamp: string)
    ensures NotationPart("a/b") == "__a/b"
    ensures FileName(saveLocation, dateStamp, "a/b") == Str(saveLocation) + dateStamp + "__a/b.csv"
  {
    assert TrimStart("a/b") == "a/b";
    assert TrimEnd("a/b") == "a/b";
    assert !Occurs(SPECIAL_RUN, "a/b");
    ReplaceAllWithoutMatch("a/b", SPECIAL_RUN, "_");
  }

  /** The characters the doc comment of getFileName means: each of space,
      tab, '/', '\' and ':'. */
  predicate Special(c: char)
  {
    c == ' ' || c == '\t' || c == '/' || c == '\\' || c == ':'
  }

  /** Every special character replaced by '_' on its own. */
  function ReplaceSpecial(s: string): (r: string)
    ensures |r| == |s|
    ensures forall i :: 0 <= i < |s| ==> r[i] == if Special(s[i]) then '_' else s[i]
  {
    if s == [] then [] else [if Special(s[0]) then '_' else s[0]] + ReplaceSpecial(s[1..])
  }

  function IntendedNotationPart(notation: string): (p: string)
  {
    var n := Trim(notation);
    if n == [] then [] else "__" + ReplaceSpecial(n)
  }

  function IntendedFileName(saveLocation: Option<string>, dateStamp: string, notation: string): (name: string)
  {
    Str(saveLocation) + dateStamp + IntendedNotationPart(notation) + CSV_SUFFIX
  }

  /** With every special character replaced, nothing the notation adds can
      leave the save directory: the notation part holds no special character,
      keeps the trimmed notation's length, and "__" appears iff there is text. */
  lemma IntendedNameStaysInDirectory(saveLocation: Option<string>, dateStamp: string, notation: string)
    ensures var p := IntendedNotationPart(notation);
      (forall i :: 0 <= i < |p| ==> !Special(p[i])) &&
      (p == [] <==> Trim(notation) == []) &&
      (p != [] ==> |p| == |Trim(notation)| + 2)
    ensures IntendedFileName(saveLocation, dateStamp, notation) == Str(saveLocation) + dateStamp + IntendedNotationPart(notation) + CSV_SUFFIX
  {
    var n := Trim(notation);
    if n != [] {
      var p := IntendedNotationPart(notation);
      var r := ReplaceSpecial(n);
      assert p == "__" + r;
      forall i | 0 <= i < |p|
        ensures !Special(p[i])
      {
        if i >= 2 {
          assert p[i] == r[i - 2];
        }
      }
    }
  }

  // ---------------------------------------------------------------------
  // addLineToCSV

  /** The outcome of the two writes of addLineToCSV: the string's bytes,
      then the newline. */
  datatype Writes = Writes(textOk: bool, newlineOk: bool)

  /** addLineToCSV: the file after the writes that succeeded, and whether
      both did (false is the IOException). */
  function AppendLine(file: string, str: string, w: Writes): (r: (string, bool))
  {
    if !w.textOk then (file, false)
    else if !w.newlineOk then (file + str, false)
    else (file + str + "\n", true)
  }

  /** A line is written completely, with exactly one '\n' after it, or the
      call fails; a failure leaves at most the text without the newline. */
  lemma AppendLineWritesOneLine(file: string, str: string, w: Writes)
    ensures var r := AppendLine(file, str, w);
      (r.1 <==> w.textOk && w.newlineOk) &&
      (r.1 ==> |r.0| == |file| + |str| + 1 && r.0[..|file|] == file &&
               r.0[|file|..|file| + |str|] == str && r.0[|r.0| - 1] == '\n') &&
      (!r.1 ==> r.0 == file || r.0 == file + str)
  {
    var r := AppendLine(file, str, w);
    if r.1 {
      assert r.0 == file + str + "\n";
      assert r.0[..|file|] == file;
      assert r.0[|file|..|file| + |str|] == str;
    }
  }

  // ---------------------------------------------------------------------
  // The panel's recording state

  /** connected, recording, csvOutput (the name of the open file, None for
      null), the contents written to each file, the samples plotted, and the
      connection threads started. */
  datatype Panel = Panel(connected: bool, recording: bool, csvOutput: Option<string>,
                         files: map<string, string>, plotted: seq<Sample>, attempts: nat)

  const Initial := Panel(false, false, None, map[], [], 0)

  /** While recording, there is an open output file. */
  predicate Recordable(p: Panel)
  {
    p.recording ==> p.csvOutput.Some? && p.csvOutput.value in p.files
  }

  /** The buttons of actionPerformed that touch this state. */
  datatype Button = ConnectButton | RecordButton | ClearButton

  /** What a press of the record button meets: the file name getFileName
      gives, whether new FileOutputStream succeeds, and the header's writes. */
  datatype Opening = Opening(name: string, opens: bool, header: Writes)

  /** Starting a recording: open (creating or emptying) the file, write the
      header; any IOException leaves csvOutput null and recording false. */
  function StartRecording(p: Panel, o: Opening): Panel
  {
    if !o.opens then p.(csvOutput := None)
    else
      var r := AppendLine("", CSV_HEADER, o.header);
      var files := p.files[o.name := r.0];
      if r.1 then p.(csvOutput := Some(o.name), files := files, recording := true)
      else p.(csvOutput := None, files := files)
  }

  /** actionPerformed for one button. */
  function Press(p: Panel, b: Button, o: Opening): Panel
  {
    match b
    case ConnectButton => if !p.connected then p.(attempts := p.attempts + 1) else p
    case RecordButton =>
      if !p.connected then p
      else if p.recording then p.(recording := false, csvOutput := None)
      else StartRecording(p, o)
    case ClearButton => p.(plotted := [])
  }

  /** ShepardServerCommunications.run ends: ok says that init, listen and
      handleClient all returned without an exception, and only then is the
      panel connected. handleClient also returns normally when it gives up
      after an error status, so ok does not mean the hardware answered. */
  function ConnectionDone(p: Panel, ok: bool): Panel
  {
    if ok then p.(connected := true) else p
  }

  /** ShepardDataListener.handleData: only while recording, plot the sample
      and append its line; a failed append stops recording and keeps the
      stream. */
  function Record(p: Panel, d: Sample, fmt: Float -> string, w: Writes): Panel
    requires Recordable(p)
  {
    if !p.recording then p
    else
      var out := p.csvOutput.value;
      var r := AppendLine(p.files[out], Render(d, fmt), w);
      p.(plotted := p.plotted + [d], files := p.files[out := r.0], recording := r.1)
  }

  /** Every action keeps an open file behind recording. */
  lemma ActionsKeepRecordable(p: Panel, b: Button, o: Opening, ok: bool, d: Sample, fmt: Float -> string, w: Writes)
    requires Recordable(p)
    ensures Recordable(Press(p, b, o)) && Recordable(ConnectionDone(p, ok)) && Recordable(Record(p, d, fmt, w))
  {
  }

  /** The record button does nothing until connected; the connect button
      starts a connection only while not connected. */
  lemma PressNeedsConnection(p: Panel, o: Opening)
    ensures !p.connected ==> Press(p, RecordButton, o) == p
    ensures Press(p, ConnectButton, o).attempts == p.attempts + (if p.connected then 0 else 1)
    ensures Press(p, ConnectButton, o).(attempts := p.attempts) == p
  {
  }

  /** A recording starts only on a clean open and header; then the new file
      holds exactly the header line. Otherwise recording stays off and
      csvOutput is null. */
  lemma StartWritesHeader(p: Panel, o: Opening)
    requires p.connected && !p.recording
    ensures var q := Press(p, RecordButton, o);
      (q.recording <==> o.opens && o.header.textOk && o.header.newlineOk) &&
      (q.recording ==> q.csvOutput == Some(o.name) && q.files[o.name] == CSV_HEADER + "\n") &&
      (!q.recording ==> q.csvOutput.None?)
  {
  }

  /** Stopping turns recording off and nulls csvOutput, keeping the file. */
  lemma StopClosesOutput(p: Panel, o: Opening)
    requires p.connected && p.recording
    ensures var q := Press(p, RecordButton, o);
      !q.recording && q.csvOutput.None? && q.files == p.files
  {
  }

  /** Outside a recording no sample is plotted or written. */
  lemma IdleIgnoresData(p: Panel, d: Sample, fmt: Float -> string, w: Writes)
    requires Recordable(p) && !p.recording
    ensures Record(p, d, fmt, w) == p
  {
  }

  /** A failed append stops recording but leaves csvOutput set. */
  lemma AppendFailureStops(p: Panel, d: Sample, fmt: Float -> string, w: Writes)
    requires Recordable(p) && p.recording && !(w.textOk && w.newlineOk)
    ensures var q := Record(p, d, fmt, w);
      !q.recording && q.csvOutput == p.csvOutput && q.plotted == p.plotted + [d]
  {
  }

  /** The lines of samples, each followed by '\n'. */
  function Lines(ds: seq<Sample>, fmt: Float -> string): string
  {
    if ds == [] then [] else Render(ds[0], fmt) + "\n" + Lines(ds[1..], fmt)
  }

  function RecordAll(p: Panel, ds: seq<Sample>, fmt: Float -> string): Panel
    requires Recordable(p)
    decreases |ds|
  {
    if ds == [] then p
    else
      ActionsKeepRecordable(p, ClearButton, Opening([], false, Writes(false, false)), false, ds[0], fmt, Writes(true, true));
      RecordAll(Record(p, ds[0], fmt, Writes(true, true)), ds[1..], fmt)
  }

  /** While every write succeeds, a recording appends each sample's line to
      its file in arrival order and plots each sample. */
  lemma {:induction false} RecordingAppendsEveryLine(p: Panel, ds: seq<Sample>, fmt: Float -> string)
    requires Recordable(p) && p.recording
    ensures var q := RecordAll(p, ds, fmt);
      q.recording && q.csvOutput == p.csvOutput &&
      q.files == p.files[p.csvOutput.value := p.files[p.csvOutput.value] + Lines(ds, fmt)] &&
      q.plotted == p.plotted + ds
    decreases |ds|
  {
    var out := p.csvOutput.value;
    if ds == [] {
      assert p.files[out] + Lines(ds, fmt) == p.files[out];
      assert p.files[out := p.files[out]] == p.files;
    } else {
      var line := Render(ds[0], fmt) + "\n";
      var p1 := p.(plotted := p.plotted + [ds[0]], files := p.files[out := p.files[out] + line]);
      RecordAllStep(p, ds, fmt);
      RecordingAppendsEveryLine(p1, ds[1..], fmt);
      var f := p.files[out];
      var rest := Lines(ds[1..], fmt);
      LinesHead(ds, fmt);
      Overwrite(p.files, out, f + line, rest);
      StrAssoc(f, line, rest);
      assert f + Lines(ds, fmt) == (f + line) + rest;
      assert p1.plotted + ds[1..] == p.plotted + ds;
    }
  }

  lemma LinesHead(ds: seq<Sample>, fmt: Float -> string)
    requires ds != []
    ensures Lines(ds, fmt) == (Render(ds[0], fmt) + "\n") + Lines(ds[1..], fmt)
  {
  }

  lemma StrAssoc(a: string, b: string, c: string)
    ensures (a + b) + c == a + (b + c)
  {
  }

  /** Appending twice to one file of a map is appending once. */
  lemma Overwrite(m: map<string, string>, k: string, a: string, b: string)
    requires k in m
    ensures m[k := a][k := a + b] == m[k := a + b]
  {
  }

  /** One successful record, unfolded. */
  lemma RecordAllStep(p: Panel, ds: seq<Sample>, fmt: Float -> string)
    requires Recordable(p) && p.recording && ds != []
    ensures var out := p.csvOutput.value;
      var p1 := p.(plotted := p.plotted + [ds[0]], files := p.files[out := p.files[out] + (Render(ds[0], fmt) + "\n")]);
      Recordable(p1) && p1.recording && RecordAll(p, ds, fmt) == RecordAll(p1, ds[1..], fmt)
  {
    var out := p.csvOutput.value;
    assert p.files[out] + Render(ds[0], fmt) + "\n" == p.files[out] + (Render(ds[0], fmt) + "\n");
  }

  // ---------------------------------------------------------------------
  // The panel object

  class ShepardDataCollectionPanel {
    var connected: bool
    var recording: bool
    var csvOutput: Option<string>
    var files: map<string, string>
    var plotted: seq<Sample>
    var attempts: nat

    function State(): Panel
      reads this
    {
      Panel(connected, recording, csvOutput, files, plotted, attempts)
    }

    predicate Valid()
      reads this
    {
      Recordable(State())
    }

    constructor()
      ensures State() == Initial && Valid()
    {
      connected, recording, csvOutput := false, false, None;
      files, plotted, attempts := map[], [], 0;
    }

    /** addLineToCSV on the open stream; false is the IOException. */
    method AddLineToCsv(str: string, w: Writes) returns (ok: bool)
      requires csvOutput.Some? && csvOutput.value in files
      modifies this
      ensures State() == old(State()).(files := files)
      ensures var r := AppendLine(old(files)[old(csvOutput).value], str, w);
        ok == r.1 && files == old(files)[old(csvOutput).value := r.0]
    {
      var out := csvOutput.value;
      var file := files[out];
      if w.textOk {
        file := file + str;
        if w.newlineOk {
          file := file + "\n";
        }
      }
      files := files[out := file];
      ok := w.textOk && w.newlineOk;
    }

    /** actionPerformed, proved against Press. */
    method ActionPerformed(b: Button, o: Opening)
      requires Valid()
      modifies this
      ensures State() == Press(old(State()), b, o) && Valid()
    {
      match b
      case ConnectButton =>
        if !connected {
          attempts := attempts + 1;
        }
      case RecordButton =>
        if connected {
          if recording {
            recording := false;
            csvOutput := None;
          } else if !o.opens {
            csvOutput := None;
          } else {
            csvOutput := Some(o.name);
            files := files[o.name := ""];
            var ok := AddLineToCsv(CSV_HEADER, o.header);
            if ok {
              recording := true;
            } else {
              csvOutput := None;
            }
          }
        }
      case ClearButton =>
        plotted := [];
    }

    /** The end of the connection thread. */
    method ConnectionFinished(ok: bool)
      requires Valid()
      modifies this
      ensures State() == ConnectionDone(old(State()), ok) && Valid()
    {
      if ok {
        connected := true;
      }
    }

    /** ShepardDataListener.handleData, proved against Record. */
    method HandleData(d: Sample, fmt: Float -> string, w: Writes)
      requires Valid()
      modifies this
      ensures State() == Record(old(State()), d, fmt, w) && Valid()
    {
      if recording {
        plotted := plotted + [d];
        var ok := AddLineToCsv(Render(d, fmt), w);
        if !ok {
          recording := false;
        }
      }
    }
  }
}
