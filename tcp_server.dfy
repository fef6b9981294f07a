/** The TCP front of the collection server (ShepardDCS TcpCollectionServer):
    the -tcpport argument, the client thread that accepts one client at a
    time and turns its lines into command bytes for the device, the status
    lines pushed to the client while discovery runs, and the records written
    to the client. Sockets are reduced to the outcome of each socket call,
    and the server state the client thread sees (whether a port was found,
    whether the device answered, the status, whether a serial write
    succeeds) is given with each step. */
module TcpServer {
  import opened Wrappers
  import opened JavaLang
  import opened Telemetry
  import opened SerialLink
  import SerialServer

  // ---------------------------------------------------------------------
  // Arguments

  const SERVER_PORT_ARG := "-tcpport"
  const DEFAULT_SERVER_PORT := 9999

  /** The -tcpport scan that follows the inherited parseArgs: every token is
      looked at, a -tcpport followed by a token takes that token as its
      value through Integer.parseInt, and a -tcpport with nothing after it is
      ignored. None is the NumberFormatException. */
  function ScanServerPort(serverPort: int, args: seq<string>): (r: Option<int>)
    ensures r.Some? ==> r.value == serverPort || IsInt(r.value)
    decreases |args|
  {
    if args == [] then Some(serverPort)
    else if args[0] == SERVER_PORT_ARG && |args| >= 2 then
      match ParseInt(args[1])
      case None => None
      case Some(v) => ScanServerPort(v, args[2..])
    else ScanServerPort(serverPort, args[1..])
  }

  /** The last -tcpport wins when its value parses, and a scan that got past
      the earlier tokens ends refused when it does not. */
  lemma {:induction false} LastServerPortWins(serverPort: int, args: seq<string>, v: string)
    requires ScanServerPort(serverPort, args).Some?
    requires args == [] || args[|args| - 1] != SERVER_PORT_ARG
    ensures ScanServerPort(serverPort, args + [SERVER_PORT_ARG, v]) == ParseInt(v)
    decreases |args|
  {
    var y := [SERVER_PORT_ARG, v];
    if args == [] {
      assert ([] + y)[2..] == [];
    } else if args[0] == SERVER_PORT_ARG && |args| >= 2 {
      assert (args + y)[1] == args[1] && (args + y)[2..] == args[2..] + y;
      LastServerPortWins(ParseInt(args[1]).value, args[2..], v);
    } else {
      assert (args + y)[0] == args[0] && (args + y)[1..] == args[1..] + y;
      LastServerPortWins(serverPort, args[1..], v);
    }
  }

  /** A -tcpport with nothing after it changes nothing. */
  lemma {:induction false} TrailingServerPortIgnored(serverPort: int, args: seq<string>)
    requires args == [] || args[|args| - 1] != SERVER_PORT_ARG
    ensures ScanServerPort(serverPort, args + [SERVER_PORT_ARG]) == ScanServerPort(serverPort, args)
    decreases |args|
  {
    var y := [SERVER_PORT_ARG];
    if args == [] {
    } else if args[0] == SERVER_PORT_ARG && |args| >= 2 {
      assert (args + y)[1] == args[1] && (args + y)[2..] == args[2..] + y;
      if ParseInt(args[1]).Some? {
        TrailingServerPortIgnored(ParseInt(args[1]).value, args[2..]);
      }
    } else {
      assert (args + y)[0] == args[0] && (args + y)[1..] == args[1..] + y;
      TrailingServerPortIgnored(serverPort, args[1..]);
    }
  }

  /** Without a -tcpport the server port stays the default. */
  lemma {:induction false} NoServerPortArg(serverPort: int, args: seq<string>)
    requires forall i :: 0 <= i < |args| ==> args[i] != SERVER_PORT_ARG
    ensures ScanServerPort(serverPort, args) == Some(serverPort)
    decreases |args|
  {
    if args != [] {
      assert args[0] != SERVER_PORT_ARG;
      NoServerPortArg(serverPort, args[1..]);
    }
  }

  // ---------------------------------------------------------------------
  // The client thread

  /** A client line as a command byte: "R" the ready command, "Q" the quit
      command, anything else none. */
  function Command(line: string): (b: Option<byte>)
    ensures b == Some(READY_COMMAND) <==> line == "R"
    ensures b == Some(QUIT_COMMAND) <==> line == "Q"
    ensures b.None? <==> line != "R" && line != "Q"
  {
    if line == "R" then Some(READY_COMMAND)
    else if line == "Q" then Some(QUIT_COMMAND)
    else None
  }

  /** Where the client thread is: waiting in accept(), reading lines,
      holding a line until the device is connected, or gone. */
  datatype Phase = Accepting | Reading | Waiting(line: string) | Ended

  /** What the client thread is handed next: accept() and the two stream
      openings (socket None for an IOException from accept), a readLine()
      result (None at end of stream), an IOException from readLine(), or a
      fresh look at the device state while a line is held. */
  datatype ClientEvent = Connect(socket: Option<nat>, outOk: bool, inOk: bool)
                       | Input(line: Option<string>) | ReadFailed | Poll

  /** The server state the client thread reads: port != null,
      deviceConnected, status, and whether port.writeByte succeeds. */
  datatype Env = Env(portSet: bool, deviceConnected: bool, status: string, writeOk: bool)

  /** The fields the client thread touches, with what it has written:
      sockets and writers are known by the number of the client they belong
      to; sent is every line written to a client, commands every byte written
      to the device, and closedDown records that close() ran. */
  datatype Tcp = Tcp(phase: Phase, clientSocket: Option<nat>, clientOut: Option<nat>, clientIn: Option<nat>,
                     sent: seq<(nat, string)>, commands: seq<byte>, closedDown: bool)

  const Start := Tcp(Accepting, None, None, None, [], [], false)

  /** The greeting a new client gets: the connection notice, then the
      current status when there is one. */
  function Greeting(status: string): (g: seq<string>)
    ensures |g| >= 1 && g[0] == "Connection established"
    ensures |g| == 2 <==> status != ""
    ensures |g| == 1 <==> status == ""
    ensures |g| == 2 ==> g[1] == "Current server status: " + status
  {
    ["Connection established"] + if status != "" then ["Current server status: " + status] else []
  }

  function To(w: nat, lines: seq<string>): (r: seq<(nat, string)>)
    ensures |r| == |lines| && forall i :: 0 <= i < |r| ==> r[i] == (w, lines[i])
  {
    if lines == [] then [] else [(w, lines[0])] + To(w, lines[1..])
  }

  predicate Ready(env: Env)
  {
    env.portSet && env.deviceConnected
  }

  /** closeClientConnection: the client's socket and both streams become
      null. */
  function CloseClient(t: Tcp): (r: Tcp)
    ensures r.clientSocket.None? && r.clientOut.None? && r.clientIn.None?
    ensures r.sent == t.sent && r.commands == t.commands
  {
    t.(clientSocket := None, clientOut := None, clientIn := None)
  }

  /** A line acted on: its command byte, if any, is written to the device;
      a failed write runs close(), which shuts the client, the server socket
      and the serial port, after which the thread cannot go on. */
  function Act(t: Tcp, line: string, env: Env): (r: Tcp)
    ensures Command(line).None? ==> r == t.(phase := Reading)
    ensures Command(line).Some? && env.writeOk ==> r == t.(phase := Reading, commands := t.commands + [Command(line).value])
    ensures Command(line).Some? && !env.writeOk ==> r == t.(phase := Ended, closedDown := true)
  {
    match Command(line)
    case None => t.(phase := Reading)
    case Some(b) =>
      if env.writeOk then t.(phase := Reading, commands := t.commands + [b])
      else t.(phase := Ended, closedDown := true)
  }

  /** One step of TcpClientComms.run. An IOException from accept() leaves
      clientSocket null and the stream opening then fails outside any
      handler, as does the closeClientConnection after a failed stream
      opening (clientIn is still null there): both end the thread. */
  function Step(t: Tcp, env: Env, ev: ClientEvent): Tcp
  {
    match (t.phase, ev)
    case (Accepting, Connect(None, _, _)) => t.(clientSocket := None, phase := Ended)
    case (Accepting, Connect(Some(id), outOk, inOk)) =>
      if !outOk then t.(clientSocket := Some(id), phase := Ended)
      else if !inOk then t.(clientSocket := Some(id), clientOut := Some(id), phase := Ended)
      else t.(phase := Reading, clientSocket := Some(id), clientOut := Some(id), clientIn := Some(id),
              sent := t.sent + To(id, Greeting(env.status)))
    case (Reading, Input(None)) => CloseClient(t).(phase := Accepting)
    case (Reading, ReadFailed) => CloseClient(t).(phase := Accepting)
    case (Reading, Input(Some(line))) => if Ready(env) then Act(t, line, env) else t.(phase := Waiting(line))
    case (Waiting(line), Poll) => if Ready(env) then Act(t, line, env) else t
    case _ => t
  }

  /** A script of steps. */
  function Serve(t: Tcp, script: seq<(Env, ClientEvent)>): Tcp
    decreases |script|
  {
    if script == [] then t else Serve(Step(t, script[0].0, script[0].1), script[1..])
  }

  /** A new connection with working streams greets its client, first with
      the connection notice and then with the status if it is not empty. */
  lemma ConnectGreets(t: Tcp, env: Env, id: nat)
    requires t.phase == Accepting
    ensures var r := Step(t, env, Connect(Some(id), true, true));
      r.phase == Reading && r.clientSocket == r.clientOut == r.clientIn == Some(id) &&
      r.sent[..|t.sent|] == t.sent &&
      r.sent[|t.sent|..] == [(id, "Connection established")] +
        (if env.status != "" then [(id, "Current server status: " + env.status)] else [])
  {
    var r := Step(t, env, Connect(Some(id), true, true));
    assert r.sent == t.sent + To(id, Greeting(env.status));
  }

  /** A clean disconnect or a read error resets the client's fields to null
      and the thread goes back to accept(). */
  lemma DisconnectResets(t: Tcp, env: Env, ev: ClientEvent)
    requires t.phase == Reading && (ev == Input(None) || ev == ReadFailed)
    ensures var r := Step(t, env, ev);
      r.phase == Accepting && r.clientSocket.None? && r.clientOut.None? && r.clientIn.None? &&
      r.sent == t.sent && r.commands == t.commands
  {
  }

  /** A line that arrives while no device is connected is held, not dropped:
      whatever the device state over the polls in between, nothing is
      written until the first poll that finds the device ready, and that
      poll acts on the line. */
  lemma {:induction false} LineHeldUntilReady(t: Tcp, line: string, polls: seq<Env>)
    requires t.phase == Waiting(line)
    ensures var r := Serve(t, Polls(polls));
      var k := FirstReady(polls);
      if k.None? then r == t
      else r == Serve(Act(t, line, polls[k.value]), Polls(polls[k.value + 1..]))
    decreases |polls|
  {
    if polls != [] {
      assert Polls(polls)[1..] == Polls(polls[1..]);
      if !Ready(polls[0]) {
        LineHeldUntilReady(t, line, polls[1..]);
        var k := FirstReady(polls[1..]);
        if k.Some? {
          assert polls[1..][k.value + 1..] == polls[k.value + 2..];
        }
      }
    }
  }

  function Polls(envs: seq<Env>): (s: seq<(Env, ClientEvent)>)
    ensures |s| == |envs| && forall i :: 0 <= i < |s| ==> s[i] == (envs[i], Poll)
  {
    if envs == [] then [] else [(envs[0], Poll)] + Polls(envs[1..])
  }

  /** The first poll that finds the device ready. */
  function FirstReady(envs: seq<Env>): (k: Option<nat>)
    ensures k.Some? ==> (k.value < |envs| && Ready(envs[k.value]) &&
      forall i :: 0 <= i < k.value ==> !Ready(envs[i]))
    ensures k.None? ==> forall i :: 0 <= i < |envs| ==> !Ready(envs[i])
  {
    if envs == [] then None
    else if Ready(envs[0]) then Some(0)
    else match FirstReady(envs[1..])
      case None => None
      case Some(k) => Some(k + 1)
  }

  /** A line read while the device is ready writes exactly its command
      byte, once. */
  lemma ReadyLineWrites(t: Tcp, line: string, env: Env)
    requires t.phase == Reading && Ready(env) && env.writeOk
    ensures var r := Step(t, env, Input(Some(line)));
      r.phase == Reading && r.sent == t.sent &&
      r.commands == t.commands + (if line == "R" then [READY_COMMAND] else if line == "Q" then [QUIT_COMMAND] else [])
  {
  }

  /** No step writes anything to the device before it is ready. */
  lemma NothingWrittenUnready(t: Tcp, env: Env, ev: ClientEvent)
    requires !Ready(env)
    ensures Step(t, env, ev).commands == t.commands
  {
  }

  // ---------------------------------------------------------------------
  // The status pushed by handleClient and the records written

  /** One pass of handleClient's loop: what the client has been sent is what
      it gets handed now (status differs from lastStatus and there is a
      client writer), and lastStatus becomes the status either way. */
  function Push(lastStatus: string, status: string, clientOut: Option<nat>): (r: (string, seq<(nat, string)>))
  {
    if lastStatus != status then (status, if clientOut.Some? then [(clientOut.value, status)] else [])
    else (lastStatus, [])
  }

  /** What handleClient's loop sees in one pass: status, clientOut, and
      whether port is set (which ends the loop). */
  datatype Observation = Observation(status: string, clientOut: Option<nat>, portSet: bool)

  /** handleClient's loop over its passes: the final lastStatus and the
      lines pushed; the loop stops at the first pass that finds a port. */
  function Watch(lastStatus: string, obs: seq<Observation>): (r: (string, seq<(nat, string)>))
    decreases |obs|
  {
    if obs == [] then (lastStatus, [])
    else
      var p := Push(lastStatus, obs[0].status, obs[0].clientOut);
      if obs[0].portSet then p
      else
        var w := Watch(p.0, obs[1..]);
        (w.0, p.1 + w.1)
  }

  /** A status is pushed only when it changed since the last pass and a
      client is connected; lastStatus follows status either way. */
  lemma PushRule(lastStatus: string, status: string, clientOut: Option<nat>)
    ensures var r := Push(lastStatus, status, clientOut);
      r.0 == status && (r.1 != [] <==> lastStatus != status && clientOut.Some?) &&
      (r.1 != [] ==> r.1 == [(clientOut.value, status)])
  {
  }

  /** The statuses a client that is connected throughout sees: each change,
      with repeats of the same status dropped. */
  function Changes(last: string, statuses: seq<string>): seq<string>
    decreases |statuses|
  {
    if statuses == [] then []
    else (if statuses[0] != last then [statuses[0]] else []) + Changes(statuses[0], statuses[1..])
  }

  function Statuses(obs: seq<Observation>): (s: seq<string>)
    ensures |s| == |obs| && forall i :: 0 <= i < |s| ==> s[i] == obs[i].status
  {
    if obs == [] then [] else [obs[0].status] + Statuses(obs[1..])
  }

  /** With the same client connected on every pass and no port found, the
      client is sent exactly the status changes; with none connected it is
      sent nothing; either way lastStatus ends as the last status seen. */
  lemma {:induction false} WatchSendsChanges(lastStatus: string, obs: seq<Observation>, w: Option<nat>)
    requires forall i :: 0 <= i < |obs| ==> obs[i].clientOut == w && !obs[i].portSet
    ensures var r := Watch(lastStatus, obs);
      r.0 == (if obs == [] then lastStatus else obs[|obs| - 1].status) &&
      r.1 == (if w.Some? then To(w.value, Changes(lastStatus, Statuses(obs))) else [])
    decreases |obs|
  {
    if obs != [] {
      var o := obs[0];
      var rest := Watch(o.status, obs[1..]);
      WatchSendsChanges(o.status, obs[1..], w);
      var h := if o.status != lastStatus then [o.status] else [];
      var c := Changes(o.status, Statuses(obs[1..]));
      assert Statuses(obs) == [o.status] + Statuses(obs[1..]);
      assert Changes(lastStatus, Statuses(obs)) == h + c;
      assert Watch(lastStatus, obs) == (rest.0, Push(lastStatus, o.status, w).1 + rest.1);
      if w.Some? {
        ToAppend(w.value, h, c);
        assert Push(lastStatus, o.status, w).1 == To(w.value, h);
      }
    }
  }

  lemma {:induction false} ToAppend(w: nat, a: seq<string>, b: seq<string>)
    ensures To(w, a + b) == To(w, a) + To(w, b)
    decreases |a|
  {
    if a == [] {
      assert a + b == b;
    } else {
      assert (a + b)[1..] == a[1..] + b;
      ToAppend(w, a[1..], b);
    }
  }

  /** TcpWriteOnEventListener.handleData: a record is written, as toString
      renders it with Float.toString given as fmt, to the connected client
      only. */
  function WriteRecord(t: Tcp, d: Sample, fmt: Float -> string): (r: Tcp)
    ensures t.clientOut.None? ==> r == t
    ensures t.clientOut.Some? ==> r == t.(sent := t.sent + [(t.clientOut.value, Render(d, fmt))])
  {
    if t.clientOut.Some? then t.(sent := t.sent + [(t.clientOut.value, Render(d, fmt))]) else t
  }

  // ---------------------------------------------------------------------
  // The server object

  /** TcpCollectionServer: the inherited server part and the client fields. */
  class TcpCollectionServer {
    const base: SerialServer.CollectionServer
    var serverPort: int
    var clientSocket: Option<nat>
    var clientOut: Option<nat>
    var clientIn: Option<nat>
    /** Where the client thread is. */
    var phase: Phase
    /** Every line written to a client, with the client it went to. */
    var sent: seq<(nat, string)>
    /** Every byte written to the device. */
    var commands: seq<byte>
    var closedDown: bool

    function State(): Tcp
      reads this
    {
      Tcp(phase, clientSocket, clientOut, clientIn, sent, commands, closedDown)
    }

    constructor()
      ensures State() == Start && serverPort == DEFAULT_SERVER_PORT && fresh(base)
      ensures base.Settings() == SerialServer.Defaults
    {
      base := new SerialServer.CollectionServer();
      serverPort := DEFAULT_SERVER_PORT;
      clientSocket, clientOut, clientIn := None, None, None;
      phase, sent, commands, closedDown := Accepting, [], [], false;
    }

    /** parseArgs: the inherited parse, then the -tcpport scan; error is the
        message of whichever exception ends it. */
    method ParseArgs(args: seq<string>) returns (error: Option<string>)
      modifies this, base
      ensures var a := SerialServer.ApplyArgs(old(base.Settings()), args);
        base.Settings() == a.0 &&
        if a.1.Some? then error == a.1 && serverPort == old(serverPort)
        else var p := ScanServerPort(old(serverPort), args);
          (error.None? <==> p.Some?) && (p.Some? ==> serverPort == p.value)
      ensures State() == old(State())
    {
      error := base.ParseArgs(args);
      if error.Some? {
        return;
      }
      ghost var settled := base.Settings();
      var i := 0;
      while i < |args|
        invariant 0 <= i <= |args|
        invariant ScanServerPort(serverPort, args[i..]) == ScanServerPort(old(serverPort), args)
        invariant State() == old(State()) && base.Settings() == settled
        decreases |args| - i
      {
        var arg := args[i];
        i := i + 1;
        if arg == SERVER_PORT_ARG && i < |args| {
          var v := ParseInt(args[i]);
          assert args[i - 1..][1] == args[i] && args[i - 1..][2..] == args[i + 1..];
          if v.None? {
            return Some("For input string: \"" + args[i] + "\"");
          }
          serverPort := v.value;
          i := i + 1;
        } else {
          assert args[i - 1..][1..] == args[i..];
        }
      }
    }

    /** closeClientConnection */
    method CloseClientConnection()
      modifies this
      ensures State() == CloseClient(old(State())) && serverPort == old(serverPort)
    {
      clientSocket, clientIn, clientOut := None, None, None;
    }

    /** One step of the client thread, proved against Step. */
    method ClientStep(env: Env, ev: ClientEvent)
      modifies this
      ensures State() == Step(old(State()), env, ev) && serverPort == old(serverPort)
    {
      match (phase, ev)
      case (Accepting, Connect(None, _, _)) =>
        clientSocket := None;
        phase := Ended;
      case (Accepting, Connect(Some(id), outOk, inOk)) =>
        clientSocket := Some(id);
        if !outOk {
          phase := Ended;
        } else if !inOk {
          clientOut := Some(id);
          phase := Ended;
        } else {
          clientOut, clientIn := Some(id), Some(id);
          sent := sent + To(id, Greeting(env.status));
          phase := Reading;
        }
      case (Reading, Input(None)) =>
        CloseClientConnection();
        phase := Accepting;
      case (Reading, ReadFailed) =>
        CloseClientConnection();
        phase := Accepting;
      case (Reading, Input(Some(line))) =>
        if Ready(env) {
          Execute(line, env);
        } else {
          phase := Waiting(line);
        }
      case (Waiting(line), Poll) =>
        if Ready(env) {
          Execute(line, env);
        }
      case _ =>
    }

    /** What the client thread does with a line once the device is ready. */
    method Execute(line: string, env: Env)
      modifies this
      ensures State() == Act(old(State()), line, env) && serverPort == old(serverPort)
    {
      phase := Reading;
      if line == "R" || line == "Q" {
        if env.writeOk {
          commands := commands + [if line == "R" then READY_COMMAND else QUIT_COMMAND];
        } else {
          closedDown := true;
          phase := Ended;
        }
      }
    }

    /** The client thread over a script, proved against Serve. */
    method Run(script: seq<(Env, ClientEvent)>)
      modifies this
      ensures State() == Serve(old(State()), script)
    {
      var i := 0;
      while i < |script|
        invariant 0 <= i <= |script|
        invariant Serve(State(), script[i..]) == Serve(old(State()), script)
      {
        assert script[i..][1..] == script[i + 1..];
        ClientStep(script[i].0, script[i].1);
        i := i + 1;
      }
    }

    /** TcpWriteOnEventListener.handleData */
    method HandleData(d: Sample, fmt: Float -> string)
      modifies this
      ensures State() == WriteRecord(old(State()), d, fmt)
    {
      if clientOut.Some? {
        sent := sent + [(clientOut.value, Render(d, fmt))];
      }
    }

    /** One pass of handleClient's loop, proved against Push: returns the
        new lastStatus. */
    method PushStatus(lastStatus: string, status: string, out: Option<nat>) returns (last: string)
      modifies this
      ensures (last, sent) == (Push(lastStatus, status, out).0, old(sent) + Push(lastStatus, status, out).1)
      ensures State() == old(State()).(sent := sent)
    {
      last := lastStatus;
      if last != status {
        last := status;
        if out.Some? {
          sent := sent + [(out.value, last)];
        } else {
          assert sent == old(sent) + [];
        }
      } else {
        assert sent == old(sent) + [];
      }
    }

    /** handleClient's loop over its passes, proved against Watch: returns
        the final lastStatus. */
    method WatchStatus(lastStatus: string, obs: seq<Observation>) returns (last: string)
      modifies this
      ensures (last, sent) == (Watch(lastStatus, obs).0, old(sent) + Watch(lastStatus, obs).1)
      ensures State() == old(State()).(sent := sent)
    {
      last := lastStatus;
      var i := 0;
      while i < |obs|
        invariant 0 <= i <= |obs|
        invariant (Watch(last, obs[i..]).0, sent + Watch(last, obs[i..]).1) ==
                  (Watch(lastStatus, obs).0, old(sent) + Watch(lastStatus, obs).1)
        invariant State() == old(State()).(sent := sent)
      {
        ghost var before := sent;
        ghost var w := Watch(last, obs[i..]);
        ghost var p := Push(last, obs[i].status, obs[i].clientOut);
        ghost var rest := Watch(p.0, obs[i + 1..]);
        assert obs[i..][0] == obs[i] && obs[i..][1..] == obs[i + 1..];
        last := PushStatus(last, obs[i].status, obs[i].clientOut);
        if obs[i].portSet {
          assert w == p;
          return;
        }
        assert w == (rest.0, p.1 + rest.1);
        assert before + (p.1 + rest.1) == sent + rest.1;
        i := i + 1;
      }
      assert obs[i..] == [] && sent + [] == sent;
    }
  }
}
