/** The serial side of the collection server (CollectionServer): its
    command-line arguments, the choice of candidate ports, the discovery of
    the port the data acquisition hardware answers on, and the status it
    reports along the way. Serial ports are reduced to what each probe of a
    candidate turned out to be; the sleeps, the progress dots and the
    discovery write itself are not modelled. */
module SerialServer {
  import opened Wrappers
  import opened JavaLang
  import opened SerialLink

  // ---------------------------------------------------------------------
  // Arguments

  const PORT := "-port"
  const RATE := "-rate"
  const DATA_BITS := "-dbits"
  const STOP_BITS := "-sbits"
  const PARITY := "-parity"
  const CONNECTION_DELAY := "-conxdelay"
  const CONNECTION_RETRYS := "-retrys"

  /** The flags whose value is an integer setting. */
  predicate IntFlag(arg: string)
  {
    arg == RATE || arg == DATA_BITS || arg == STOP_BITS || arg == PARITY ||
    arg == CONNECTION_DELAY || arg == CONNECTION_RETRYS
  }

  /** The serial settings. */
  datatype Config = Config(portName: Option<string>, baudRate: int, dataBits: int, stopBits: int,
                           parity: int, delay: int, retrys: int)

  const Defaults := Config(None, 115200, 8, 1, 0, 2500, 2)

  /** The setting an integer flag names. */
  function Get(c: Config, flag: string): int
    requires IntFlag(flag)
  {
    if flag == RATE then c.baudRate
    else if flag == DATA_BITS then c.dataBits
    else if flag == STOP_BITS then c.stopBits
    else if flag == PARITY then c.parity
    else if flag == CONNECTION_DELAY then c.delay
    else c.retrys
  }

  /** The message of the Exception a bad integer value raises. */
  function BadValue(arg: string): string
  {
    "Failed to parse parameter for " + arg + " argument.  Expected a positive integer value"
  }

  /** The value of a non-port flag: Integer.parseInt, and negative values
      refused like unparseable ones. */
  function NonNegative(param: string): (r: Option<int>)
    ensures r.Some? <==> ParseInt(param).Some? && ParseInt(param).value >= 0
    ensures r.Some? ==> r == ParseInt(param)
  {
    match ParseInt(param)
    case Some(v) => if v < 0 then None else Some(v)
    case None => None
  }

  /** One (flag, value) pair: the new settings, or the exception's message. */
  function ApplyPair(c: Config, arg: string, param: string): (r: (Config, Option<string>))
  {
    if arg == PORT then (c.(portName := Some(param)), None)
    else match NonNegative(param)
      case None => (c, Some(BadValue(arg)))
      case Some(v) =>
        if arg == RATE then (c.(baudRate := v), None)
        else if arg == DATA_BITS then (c.(dataBits := v), None)
        else if arg == STOP_BITS then (c.(stopBits := v), None)
        else if arg == PARITY then (c.(parity := v), None)
        else if arg == CONNECTION_DELAY then (c.(delay := v), None)
        else if arg == CONNECTION_RETRYS then (c.(retrys := v), None)
        else (c, None)
  }

  /** parseArgs: the tokens are read in (flag, value) pairs, and a last token
      without a value is ignored. The settings are those reached when the
      loop ends, with the exception's message if a value was refused (the
      pairs before it have taken effect). */
  function ApplyArgs(c: Config, args: seq<string>): (r: (Config, Option<string>))
    decreases |args|
  {
    if |args| < 2 then (c, None)
    else
      var p := ApplyPair(c, args[0], args[1]);
      if p.1.Some? then p else ApplyArgs(p.0, args[2..])
  }

  /** A pair sets its own setting and nothing else: -port the port name,
      verbatim; an integer flag its own field, when the value is a
      non-negative int; an unknown flag nothing, though its value must
      still be one. Any other value is refused and changes nothing. */
  lemma PairSetsOwnField(c: Config, arg: string, param: string)
    ensures var r := ApplyPair(c, arg, param);
      if arg == PORT then r == (c.(portName := Some(param)), None)
      else if NonNegative(param).None? then r == (c, Some(BadValue(arg)))
      else
        r.1 == None && r.0.portName == c.portName &&
        (IntFlag(arg) ==> Get(r.0, arg) == NonNegative(param).value) &&
        (forall g :: IntFlag(g) && g != arg ==> Get(r.0, g) == Get(c, g))
  {
  }

  /** Arguments cut after a whole number of pairs: the second part continues
      from the settings the first leaves, unless the first failed. */
  lemma {:induction false} ArgsAppend(c: Config, x: seq<string>, y: seq<string>)
    requires |x| % 2 == 0
    ensures var a := ApplyArgs(c, x);
      ApplyArgs(c, x + y) == if a.1.Some? then a else ApplyArgs(a.0, y)
    decreases |x|
  {
    if x == [] {
      assert x + y == y;
    } else {
      assert (x + y)[0] == x[0] && (x + y)[1] == x[1] && (x + y)[2..] == x[2..] + y;
      ArgsAppend(ApplyPair(c, x[0], x[1]).0, x[2..], y);
    }
  }

  /** A trailing token without a value is ignored. */
  lemma TrailingTokenIgnored(c: Config, args: seq<string>, t: string)
    requires |args| % 2 == 0
    ensures ApplyArgs(c, args + [t]) == ApplyArgs(c, args)
  {
    ArgsAppend(c, args, [t]);
  }

  /** The last occurrence of a flag wins. */
  lemma LastOccurrenceWins(c: Config, args: seq<string>, flag: string, param: string)
    requires |args| % 2 == 0 && IntFlag(flag) && NonNegative(param).Some?
    requires ApplyArgs(c, args).1.None?
    ensures var r := ApplyArgs(c, args + [flag, param]);
      r.1.None? && Get(r.0, flag) == NonNegative(param).value
  {
    ArgsAppend(c, args, [flag, param]);
    PairSetsOwnField(ApplyArgs(c, args).0, flag, param);
  }

  // ---------------------------------------------------------------------
  // Candidate ports

  /** getPortNames: the configured port name alone when port is set, and
      otherwise every port the platform lists (given as available). */
  function PortNames(port: Option<SerialPort>, portName: Option<string>, available: seq<string>): (names: seq<Option<string>>)
    ensures port.Some? ==> names == [portName]
    ensures port.None? ==> |names| == |available| && forall i :: 0 <= i < |names| ==> names[i] == Some(available[i])
  {
    if port.Some? then [portName] else Listed(available)
  }

  function Listed(available: seq<string>): (names: seq<Option<string>>)
    ensures |names| == |available| && forall i :: 0 <= i < |names| ==> names[i] == Some(available[i])
  {
    if available == [] then [] else [Some(available[0])] + Listed(available[1..])
  }

  /** The port name the detector is evidently meant to honour: a port named
      by -port is the only candidate, and discovery searches the platform
      list only when none was named. */
  function IntendedPortNames(portName: Option<string>, available: seq<string>): (names: seq<Option<string>>)
    ensures portName.Some? ==> names == [portName]
    ensures portName.None? ==> names == Listed(available)
  {
    if portName.Some? then [portName] else Listed(available)
  }

  /** As written, while no port is open (as when discovery starts), a port
      named by -port is ignored and every listed port is tried in turn. */
  lemma PortNameIgnored()
    ensures PortNames(None, Some("COM3"), ["COM1", "COM3"]) == [Some("COM1"), Some("COM3")]
    ensures IntendedPortNames(Some("COM3"), ["COM1", "COM3"]) == [Some("COM3")]
  {
  }

  // ---------------------------------------------------------------------
  // The acknowledgement detector

  /** A received chunk of exactly one byte: the device's acknowledgement. */
  predicate OneByte(e: PortEvent)
  {
    e.Received? && e.read.Some? && |e.read.value| == 1
  }

  /** DetectionListener.connected after a sequence of events. */
  function Heard(connected: bool, events: seq<PortEvent>): bool
    decreases |events|
  {
    if events == [] then connected else Heard(connected || OneByte(events[0]), events[1..])
  }

  /** The listener reports connected exactly when it started so or some
      event was a one-byte chunk; once connected it never reverts. */
  lemma {:induction false} HeardExactly(connected: bool, events: seq<PortEvent>)
    ensures Heard(connected, events) <==> connected || exists i :: 0 <= i < |events| && OneByte(events[i])
    decreases |events|
  {
    if events != [] {
      HeardExactly(connected || OneByte(events[0]), events[1..]);
      if exists i :: 0 <= i < |events[1..]| && OneByte(events[1..][i]) {
        var i :| 0 <= i < |events[1..]| && OneByte(events[1..][i]);
        assert OneByte(events[i + 1]);
      }
      if exists i :: 0 <= i < |events| && OneByte(events[i]) {
        var i :| 0 <= i < |events| && OneByte(events[i]);
        if i > 0 {
          assert OneByte(events[1..][i - 1]);
        }
      }
    }
  }

  /** DetectionListener */
  class DetectionListener {
    var connected: bool

    constructor()
      ensures !connected
    {
      connected := false;
    }

    /** serialEvent */
    method SerialEvent(e: PortEvent)
      modifies this
      ensures connected == (old(connected) || OneByte(e))
    {
      if e.Received? && e.read.Some? {
        if !connected && |e.read.value| == 1 {
          connected := true;
        }
      }
    }

    /** isConnected */
    method IsConnected() returns (c: bool)
      ensures c == connected
    {
      c := connected;
    }
  }

  // ---------------------------------------------------------------------
  // Discovery

  /** What became of probing one candidate: openPort() returned false,
      setParams() returned false, a SerialPortException or (interrupted) an
      InterruptedException was raised before the port was taken, or the
      discovery command went out and the listener was handed these events. */
  datatype Probe = OpenFailed | ParamsRejected | Raised(interrupted: bool) | Answered(events: seq<PortEvent>)

  predicate Acked(p: Probe)
  {
    p.Answered? && Heard(false, p.events)
  }

  /** The server's and the detector's fields discovery touches; printed is
      every status line written, in order. */
  datatype DState = DState(currport: Option<SerialPort>, ex: Option<string>, port: Option<SerialPort>,
                           deviceConnected: bool, status: string, errorStatus: bool, printed: seq<string>)

  /** setStatus */
  function Say(s: DState, m: string): (r: DState)
    ensures r.status == m && r.errorStatus == s.errorStatus && r.printed == s.printed + [m]
  {
    s.(status := m, printed := s.printed + [m])
  }

  /** setErrorStatus */
  function SayError(s: DState, m: string): (r: DState)
    ensures r.status == m && r.errorStatus && r.printed == s.printed + [m]
  {
    s.(status := m, errorStatus := true, printed := s.printed + [m])
  }

  function StartMessage(attempt: nat, retrys: int): string
  {
    "Starting attempt " + LongToString(attempt + 1) + " of " + LongToString(retrys) +
    " at connecting to the DAta Acquisition hardware"
  }

  function EndMessage(attempt: nat, retrys: int): string
  {
    "Attempt " + LongToString(attempt + 1) + " of " + LongToString(retrys) +
    " failed to locate the Data Acquisition hardware."
  }

  const NoHardware := "Unable to connect to Data Collection Hardware"

  /** One pass of the inner loop: the candidate is opened and probed. A probe
      that was answered without an acknowledgement closes the port again;
      any failure leaves currport set. Note that a failed open reports the
      configured portName rather than the candidate's name. */
  function TryPort(s: DState, name: Option<string>, portName: Option<string>, p: Probe): (r: DState)
    ensures r.currport == if p.Answered? && !Acked(p) then None else Some(SerialPort(name))
    ensures r.port == if Acked(p) then Some(SerialPort(name)) else s.port
    ensures r.deviceConnected == (s.deviceConnected || Acked(p))
  {
    Probed(Say(s, "Trying " + Str(name)).(currport := Some(SerialPort(name))), name, portName, p)
  }

  /** The status of a failed open: it names the configured port, not the
      candidate. */
  function OpenFailedMessage(portName: Option<string>): string
  {
    "Failed to open port " + Str(portName)
  }

  const ParamsMessage := "Unable to initialize serial connection"

  function ConnectedMessage(name: Option<string>): string
  {
    "Connected on port " + Str(name)
  }

  function RaisedMessage(interrupted: bool): string
  {
    if interrupted then "An interrupt was encountered."
    else "An error occurred initializing the serial connection"
  }

  /** What a probe does once the candidate is currport. */
  function Probed(t: DState, name: Option<string>, portName: Option<string>, p: Probe): (r: DState)
    requires t.currport == Some(SerialPort(name))
    ensures r.currport == if p.Answered? && !Acked(p) then None else Some(SerialPort(name))
    ensures r.port == if Acked(p) then Some(SerialPort(name)) else t.port
    ensures r.deviceConnected == (t.deviceConnected || Acked(p))
  {
    match p
    case OpenFailed => SayError(t, OpenFailedMessage(portName))
    case ParamsRejected => SayError(t, ParamsMessage)
    case Raised(interrupted) => t.(ex := Some(RaisedMessage(interrupted)))
    case Answered(events) =>
      if Heard(false, events) then
        Say(t.(port := t.currport), ConnectedMessage(name)).(deviceConnected := true)
      else t.(currport := None)
  }

  /** The first candidate from index i on that acknowledged in this attempt. */
  function FirstAck(names: seq<Option<string>>, i: nat, attempt: nat, probe: (nat, nat) -> Probe): (r: Option<nat>)
    requires i <= |names|
    ensures r.Some? ==> i <= r.value < |names| && Acked(probe(attempt, r.value))
    ensures r.Some? ==> forall j :: i <= j < r.value ==> !Acked(probe(attempt, j))
    ensures r.None? ==> forall j :: i <= j < |names| ==> !Acked(probe(attempt, j))
    decreases |names| - i
  {
    if i == |names| then None
    else if Acked(probe(attempt, i)) then Some(i)
    else FirstAck(names, i + 1, attempt, probe)
  }

  /** The inner loop from candidate i on: it stops at the first
      acknowledgement. Afterwards port is the acknowledging candidate, if
      any; and currport is that candidate, or else the last candidate if
      its probe failed, and otherwise null. */
  function Ports(s: DState, names: seq<Option<string>>, i: nat, attempt: nat, portName: Option<string>,
                 probe: (nat, nat) -> Probe): (r: DState)
    requires i <= |names|
    ensures var k := FirstAck(names, i, attempt, probe);
      r.port == (if k.Some? then Some(SerialPort(names[k.value])) else s.port) &&
      r.deviceConnected == (s.deviceConnected || k.Some?) &&
      r.currport == (if k.Some? then Some(SerialPort(names[k.value]))
                     else if i == |names| then s.currport
                     else if probe(attempt, |names| - 1).Answered? then None
                     else Some(SerialPort(names[|names| - 1])))
    decreases |names| - i
  {
    if i == |names| then s
    else
      var t := TryPort(s, names[i], portName, probe(attempt, i));
      if Acked(probe(attempt, i)) then t else Ports(t, names, i + 1, attempt, portName, probe)
  }

  /** One attempt: its opening status, the candidates, its closing status. */
  function Attempt(s: DState, names: seq<Option<string>>, attempt: nat, retrys: int, portName: Option<string>,
                   probe: (nat, nat) -> Probe): DState
  {
    Say(Ports(Say(s, StartMessage(attempt, retrys)), names, 0, attempt, portName, probe), EndMessage(attempt, retrys))
  }

  /** The outer loop from attempt a on: it runs while attempts remain and
      currport is null. */
  function Attempts(s: DState, names: seq<Option<string>>, a: nat, retrys: int, portName: Option<string>,
                    probe: (nat, nat) -> Probe): DState
    decreases if a < retrys then retrys - a else 0
  {
    if a < retrys && s.currport.None? then
      Attempts(Attempt(s, names, a, retrys, portName, probe), names, a + 1, retrys, portName, probe)
    else s
  }

  /** PortDetector.run, on a new detector over the server state s: the
      candidates from getPortNames, the attempts, and the final error status
      when currport ends null. */
  function Detect(s: DState, c: Config, available: seq<string>, probe: (nat, nat) -> Probe): DState
  {
    var names := PortNames(s.port, c.portName, available);
    var e := Attempts(s.(currport := None, ex := None), names, 0, c.retrys, c.portName, probe);
    if e.currport.None? then SayError(e, NoHardware) else e
  }

  /** An attempt in which a candidate acknowledges is the last one: that
      candidate becomes port, the device is connected, and, because the
      closing status is set after the inner loop is left, the status ends as
      the attempt's failure message. */
  lemma AckEndsDiscovery(s: DState, names: seq<Option<string>>, a: nat, retrys: int, portName: Option<string>,
                         probe: (nat, nat) -> Probe, k: nat)
    requires a < retrys && s.currport.None? && FirstAck(names, 0, a, probe) == Some(k)
    ensures var r := Attempts(s, names, a, retrys, portName, probe);
      r == Attempt(s, names, a, retrys, portName, probe) &&
      r.port == Some(SerialPort(names[k])) && r.currport == r.port && r.deviceConnected &&
      r.status == EndMessage(a, retrys)
  {
  }

  /** A failed probe of the last candidate leaves currport set, so no further
      attempt starts and no final error status is set: the status ends as
      the attempt's failure message. */
  lemma LastFailureEndsDiscovery(s: DState, names: seq<Option<string>>, a: nat, retrys: int,
                                 portName: Option<string>, probe: (nat, nat) -> Probe)
    requires a < retrys && s.currport.None? && names != []
    requires FirstAck(names, 0, a, probe).None? && !probe(a, |names| - 1).Answered?
    ensures var r := Attempts(s, names, a, retrys, portName, probe);
      r == Attempt(s, names, a, retrys, portName, probe) &&
      r.port == s.port && r.deviceConnected == s.deviceConnected &&
      r.currport == Some(SerialPort(names[|names| - 1])) && r.status == EndMessage(a, retrys)
  {
  }

  /** An attempt that ends without an acknowledgement and with the last
      candidate answered (or no candidate at all) leaves currport null, so
      the next attempt starts. */
  lemma NoAckRetries(s: DState, names: seq<Option<string>>, a: nat, retrys: int, portName: Option<string>,
                     probe: (nat, nat) -> Probe)
    requires a < retrys && s.currport.None? && FirstAck(names, 0, a, probe).None?
    requires names != [] ==> probe(a, |names| - 1).Answered?
    ensures var t := Attempt(s, names, a, retrys, portName, probe);
      t.currport.None? && t.port == s.port && t.deviceConnected == s.deviceConnected &&
      Attempts(s, names, a, retrys, portName, probe) == Attempts(t, names, a + 1, retrys, portName, probe)
  {
  }

  /** When every probe of every attempt is answered without an
      acknowledgement, discovery gives up: port stays as it was and the
      status ends as the error "Unable to connect to Data Collection
      Hardware". */
  lemma {:induction false} NoAckGivesUp(s: DState, names: seq<Option<string>>, a: nat, retrys: int,
                                        portName: Option<string>, probe: (nat, nat) -> Probe)
    requires s.currport.None?
    requires forall i, j :: a <= i < retrys && 0 <= j < |names| ==> probe(i, j).Answered? && !Acked(probe(i, j))
    ensures var r := Attempts(s, names, a, retrys, portName, probe);
      r.currport.None? && r.port == s.port && r.deviceConnected == s.deviceConnected
    decreases if a < retrys then retrys - a else 0
  {
    if a < retrys {
      if names != [] {
        assert probe(a, |names| - 1).Answered?;
      }
      var f := FirstAck(names, 0, a, probe);
      if f.Some? {
        assert !Acked(probe(a, f.value));
      }
      NoAckRetries(s, names, a, retrys, portName, probe);
      NoAckGivesUp(Attempt(s, names, a, retrys, portName, probe), names, a + 1, retrys, portName, probe);
    }
  }

  /** Discovery as a whole: when no probe acknowledges and the last
      candidate is always answered, the final status is the error. */
  lemma NoHardwareFound(s: DState, c: Config, available: seq<string>, probe: (nat, nat) -> Probe)
    requires var names := PortNames(s.port, c.portName, available);
      forall i, j :: 0 <= i < c.retrys && 0 <= j < |names| ==> probe(i, j).Answered? && !Acked(probe(i, j))
    ensures var r := Detect(s, c, available, probe);
      r.status == NoHardware && r.errorStatus && r.port == s.port && r.deviceConnected == s.deviceConnected
  {
    var names := PortNames(s.port, c.portName, available);
    NoAckGivesUp(s.(currport := None, ex := None), names, 0, c.retrys, c.portName, probe);
  }

  /** Discovery as a whole: when the first attempt reaches an acknowledging
      candidate, that candidate is the port and the status is still the
      first attempt's failure message. */
  lemma FirstAttemptConnects(s: DState, c: Config, available: seq<string>, probe: (nat, nat) -> Probe, k: nat)
    requires c.retrys >= 1 && s.port.None?
    requires FirstAck(PortNames(s.port, c.portName, available), 0, 0, probe) == Some(k)
    ensures var r := Detect(s, c, available, probe);
      k < |available| && r.port == Some(SerialPort(Some(available[k]))) && r.deviceConnected &&
      r.status == EndMessage(0, c.retrys)
  {
    var names := PortNames(s.port, c.portName, available);
    AckEndsDiscovery(s.(currport := None, ex := None), names, 0, c.retrys, c.portName, probe, k);
  }

  /** Discovery as the listen() documentation describes it: the candidates
      come from IntendedPortNames, so a port named by -port is the only one
      tried. Otherwise as Detect. */
  function IntendedDetect(s: DState, c: Config, available: seq<string>, probe: (nat, nat) -> Probe): DState
  {
    var names := IntendedPortNames(c.portName, available);
    var e := Attempts(s.(currport := None, ex := None), names, 0, c.retrys, c.portName, probe);
    if e.currport.None? then SayError(e, NoHardware) else e
  }

  /** With a single candidate x, no attempt makes any other port current or
      connected: currport is null or x, and port is x or what it was before. */
  lemma {:induction false} AttemptsStayOnCandidate(s: DState, x: Option<string>, a: nat, retrys: int,
                                                   portName: Option<string>, probe: (nat, nat) -> Probe,
                                                   before: Option<SerialPort>)
    requires s.port == before || s.port == Some(SerialPort(x))
    requires s.currport.None? || s.currport == Some(SerialPort(x))
    ensures var r := Attempts(s, [x], a, retrys, portName, probe);
      (r.port == before || r.port == Some(SerialPort(x))) &&
      (r.currport.None? || r.currport == Some(SerialPort(x)))
    decreases if a < retrys then retrys - a else 0
  {
    if a < retrys && s.currport.None? {
      var t := Attempt(s, [x], a, retrys, portName, probe);
      AttemptsStayOnCandidate(t, x, a + 1, retrys, portName, probe, before);
    }
  }

  /** With the intended candidates and -port n, discovery never makes any
      port but n current, and the connected port is n or the one held before
      discovery started, whatever the platform lists and the probes give. */
  lemma IntendedDetectOnlyNamedPort(s: DState, c: Config, available: seq<string>, probe: (nat, nat) -> Probe)
    requires c.portName.Some?
    ensures var r := IntendedDetect(s, c, available, probe);
      (r.port == s.port || r.port == Some(SerialPort(c.portName))) &&
      (r.currport.None? || r.currport == Some(SerialPort(c.portName)))
  {
    assert IntendedPortNames(c.portName, available) == [c.portName];
    AttemptsStayOnCandidate(s.(currport := None, ex := None), c.portName, 0, c.retrys, c.portName, probe, s.port);
  }

  /** With the intended candidates and -port n, an acknowledgement of n in
      the first attempt connects exactly n. */
  lemma IntendedNamedPortConnects(s: DState, c: Config, available: seq<string>, probe: (nat, nat) -> Probe)
    requires c.portName.Some? && c.retrys >= 1 && Acked(probe(0, 0))
    ensures var r := IntendedDetect(s, c, available, probe);
      r.port == Some(SerialPort(c.portName)) && r.currport == r.port && r.deviceConnected &&
      r.status == EndMessage(0, c.retrys)
  {
    var names := IntendedPortNames(c.portName, available);
    assert names == [c.portName];
    assert FirstAck(names, 0, 0, probe) == Some(0);
    AckEndsDiscovery(s.(currport := None, ex := None), names, 0, c.retrys, c.portName, probe, 0);
  }

  // ---------------------------------------------------------------------
  // The server object

  /** CollectionServer: the settings, the connected port and the status. */
  class CollectionServer {
    var portName: Option<string>
    var baudRate: int
    var dataBits: int
    var stopBits: int
    var parity: int
    var delay: int
    var retrys: int
    var port: Option<SerialPort>
    /** A static field in the source, shared by every server. */
    var deviceConnected: bool
    var status: string
    var errorStatus: bool
    /** Every status line written to the console, in order. */
    var printed: seq<string>

    function Settings(): Config
      reads this
    {
      Config(portName, baudRate, dataBits, stopBits, parity, delay, retrys)
    }

    constructor()
      ensures Settings() == Defaults && port.None? && !deviceConnected
      ensures status == "" && !errorStatus && printed == []
    {
      portName, baudRate, dataBits, stopBits, parity, delay, retrys := None, 115200, 8, 1, 0, 2500, 2;
      port, deviceConnected := None, false;
      status, errorStatus, printed := "", false, [];
    }

    /** The fields other than the settings. */
    function Others(): (Option<SerialPort>, bool, string, bool, seq<string>)
      reads this
    {
      (port, deviceConnected, status, errorStatus, printed)
    }

    /** parseArgs, proved against ApplyArgs; error is the message of the
        Exception raised, if any. */
    method ParseArgs(args: seq<string>) returns (error: Option<string>)
      modifies this
      ensures (Settings(), error) == ApplyArgs(old(Settings()), args)
      ensures Others() == old(Others())
    {
      var i := 0;
      error := None;
      while i < |args|
        invariant 0 <= i <= |args| && i % 2 == 0 && error.None?
        invariant ApplyArgs(Settings(), args[i..]) == ApplyArgs(old(Settings()), args)
        invariant Others() == old(Others())
        decreases |args| - i
      {
        var arg := args[i];
        if i + 1 >= |args| {
          break;
        }
        var param := args[i + 1];
        ghost var before := Settings();
        assert args[i..][0] == arg && args[i..][1] == param && args[i..][2..] == args[i + 2..];
        i := i + 2;
        error := ApplyParam(arg, param);
        if error.Some? {
          assert (Settings(), error) == ApplyArgs(before, args[i - 2..]);
          return;
        }
      }
    }

    /** The body of the parseArgs loop for one (flag, value) pair. */
    method ApplyParam(arg: string, param: string) returns (error: Option<string>)
      modifies this
      ensures (Settings(), error) == ApplyPair(old(Settings()), arg, param)
      ensures Others() == old(Others())
    {
      error := None;
      if arg == PORT {
        portName := Some(param);
      } else {
        var intParam := NonNegative(param);
        if intParam.None? {
          return Some(BadValue(arg));
        }
        var v := intParam.value;
        if arg == RATE {
          baudRate := v;
        } else if arg == DATA_BITS {
          dataBits := v;
        } else if arg == STOP_BITS {
          stopBits := v;
        } else if arg == PARITY {
          parity := v;
        } else if arg == CONNECTION_DELAY {
          delay := v;
        } else if arg == CONNECTION_RETRYS {
          retrys := v;
        }
      }
    }

    /** getPortNames */
    method GetPortNames(available: seq<string>) returns (names: seq<Option<string>>)
      ensures names == PortNames(port, portName, available)
    {
      if port.Some? {
        names := [portName];
      } else {
        names := [];
        var i := 0;
        while i < |available|
          invariant 0 <= i <= |available|
          invariant names == Listed(available[..i])
        {
          ListedAppend(available[..i], available[i]);
          assert available[..i + 1] == available[..i] + [available[i]];
          names := names + [Some(available[i])];
          i := i + 1;
        }
        assert available[..i] == available;
      }
    }

    /** setStatus */
    method SetStatus(message: string)
      modifies this
      ensures status == message && printed == old(printed) + [message] && errorStatus == old(errorStatus)
      ensures Settings() == old(Settings()) && port == old(port) && deviceConnected == old(deviceConnected)
    {
      status := message;
      printed := printed + [message];
    }

    /** setErrorStatus */
    method SetErrorStatus(message: string)
      modifies this
      ensures status == message && printed == old(printed) + [message] && errorStatus
      ensures Settings() == old(Settings()) && port == old(port) && deviceConnected == old(deviceConnected)
    {
      status := message;
      errorStatus := true;
      printed := printed + [message];
    }
  }

  lemma ListedAppend(a: seq<string>, x: string)
    ensures Listed(a + [x]) == Listed(a) + [Some(x)]
  {
  }

  /** PortDetector: the discovery thread of a server. */
  class PortDetector {
    const server: CollectionServer
    var ex: Option<string>
    var currport: Option<SerialPort>

    constructor(server: CollectionServer)
      ensures this.server == server && ex.None? && currport.None?
    {
      this.server := server;
      ex, currport := None, None;
    }

    function State(): DState
      reads this, server
    {
      DState(currport, ex, server.port, server.deviceConnected, server.status, server.errorStatus, server.printed)
    }

    /** A new DetectionListener handed the events of one probe, in order:
        whether it then reports connected. */
    static method Listen(events: seq<PortEvent>) returns (acked: bool)
      ensures acked == Heard(false, events)
    {
      var listener := new DetectionListener();
      var i := 0;
      while i < |events|
        invariant 0 <= i <= |events|
        invariant Heard(listener.connected, events[i..]) == Heard(false, events)
        modifies listener
      {
        assert events[i..][1..] == events[i + 1..];
        listener.SerialEvent(events[i]);
        i := i + 1;
      }
      acked := listener.IsConnected();
    }

    /** One candidate, proved against TryPort. */
    method TryPortAt(name: Option<string>, p: Probe) returns (acked: bool)
      modifies this, server
      ensures State() == TryPort(old(State()), name, server.portName, p) && acked == Acked(p)
      ensures server.Settings() == old(server.Settings())
    {
      server.SetStatus("Trying " + Str(name));
      currport := Some(SerialPort(name));
      acked := ProbeCurrent(name, p);
    }

    /** The try block: the probe of the candidate held in currport, proved
        against Probed. */
    method ProbeCurrent(name: Option<string>, p: Probe) returns (acked: bool)
      requires currport == Some(SerialPort(name))
      modifies this, server
      ensures State() == Probed(old(State()), name, server.portName, p) && acked == Acked(p)
      ensures server.Settings() == old(server.Settings())
    {
      acked := false;
      match p
      case OpenFailed =>
        server.SetErrorStatus(OpenFailedMessage(server.portName));
      case ParamsRejected =>
        server.SetErrorStatus(ParamsMessage);
      case Raised(interrupted) =>
        ex := Some(RaisedMessage(interrupted));
      case Answered(events) =>
        acked := Listen(events);
        if acked {
          server.port := currport;
          server.SetStatus(ConnectedMessage(name));
          server.deviceConnected := true;
        } else {
          currport := None;
        }
    }

    /** The inner loop of run over the candidates, proved against Ports. */
    method TryCandidates(names: seq<Option<string>>, attempt: nat, probe: (nat, nat) -> Probe)
      modifies this, server
      ensures State() == Ports(old(State()), names, 0, attempt, server.portName, probe)
      ensures server.Settings() == old(server.Settings())
    {
      var idx := 0;
      while idx < |names|
        invariant 0 <= idx <= |names| && server.Settings() == old(server.Settings())
        invariant Ports(State(), names, idx, attempt, server.portName, probe) ==
                  Ports(old(State()), names, 0, attempt, server.portName, probe)
        decreases |names| - idx
      {
        var acked := TryPortAt(names[idx], probe(attempt, idx));
        idx := idx + 1;
        if acked {
          assert State() == Ports(old(State()), names, 0, attempt, server.portName, probe);
          break;
        }
      }
    }

    /** The body of run's outer loop, proved against Attempt. */
    method RunAttempt(names: seq<Option<string>>, attempt: nat, probe: (nat, nat) -> Probe)
      modifies this, server
      ensures State() == Attempt(old(State()), names, attempt, server.retrys, server.portName, probe)
      ensures server.Settings() == old(server.Settings())
    {
      server.SetStatus(StartMessage(attempt, server.retrys));
      TryCandidates(names, attempt, probe);
      server.SetStatus(EndMessage(attempt, server.retrys));
    }

    /** run, proved against Detect: candidates are taken from getPortNames,
        and the probe of candidate j in attempt i is probe(i, j). */
    method Run(available: seq<string>, probe: (nat, nat) -> Probe)
      requires ex.None? && currport.None?
      modifies this, server
      ensures State() == Detect(old(State()), old(server.Settings()), available, probe)
    {
      ghost var c := server.Settings();
      var names := server.GetPortNames(available);
      ghost var s0 := State();
      var attempt := 0;
      while attempt < server.retrys && currport.None?
        invariant server.Settings() == c
        invariant Attempts(State(), names, attempt, c.retrys, c.portName, probe) ==
                  Attempts(s0, names, 0, c.retrys, c.portName, probe)
        decreases c.retrys - attempt
      {
        RunAttempt(names, attempt, probe);
        attempt := attempt + 1;
      }
      if currport.None? {
        server.SetErrorStatus(NoHardware);
      }
    }
  }
}
