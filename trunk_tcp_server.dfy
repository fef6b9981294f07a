/** The trunk version of the TCP front (trunk TcpCollectionServer). Its
    argument scan and status push are the same as in the ShepardDCS version
    and are taken from there; its client thread differs: only "R" is a
    command and it is written at once, without waiting for the device;
    closeClientConnection resets only the socket; a clean disconnect ends the
    thread; and a record is written to clientOut without checking for null. */
module TrunkTcpServer {
  import opened Wrappers
  import opened JavaLang
  import opened Telemetry
  import opened SerialLink
  import SerialServer
  import opened TcpServer

  /** What the trunk thread writes for a client line: the ready command for
      "R" and nothing for anything else, "Q" included. */
  function TrunkCommand(line: string): (b: Option<byte>)
    ensures b.Some? <==> line == "R"
    ensures b.Some? ==> b.value == READY_COMMAND
  {
    if line == "R" then Some(READY_COMMAND) else None
  }

  /** closeClientConnection (trunk): only the socket becomes null. */
  function TrunkCloseClient(t: Tcp): (r: Tcp)
    ensures r.clientSocket.None? && r.clientOut == t.clientOut && r.clientIn == t.clientIn
  {
    t.(clientSocket := None)
  }

  /** A line is acted on at once. With port null the write raises a
      NullPointerException, which nothing catches, and the thread ends; a
      failed write runs close(), after which the thread cannot go on. */
  function TrunkAct(t: Tcp, line: string, env: Env): Tcp
  {
    match TrunkCommand(line)
    case None => t
    case Some(b) =>
      if !env.portSet then t.(phase := Ended)
      else if env.writeOk then t.(commands := t.commands + [b])
      else t.(phase := Ended, closedDown := true)
  }

  /** One step of the trunk TcpClientComms.run. A failed stream opening
      closes the socket and goes back to accept(); a clean disconnect leaves
      clientSocket set, so the accept loop ends. */
  function TrunkStep(t: Tcp, env: Env, ev: ClientEvent): Tcp
  {
    match (t.phase, ev)
    case (Accepting, Connect(None, _, _)) => t.(clientSocket := None, phase := Ended)
    case (Accepting, Connect(Some(id), outOk, inOk)) =>
      if !outOk then TrunkCloseClient(t.(clientSocket := Some(id)))
      else if !inOk then TrunkCloseClient(t.(clientSocket := Some(id), clientOut := Some(id)))
      else t.(phase := Reading, clientSocket := Some(id), clientOut := Some(id), clientIn := Some(id),
              sent := t.sent + To(id, Greeting(env.status)))
    case (Reading, Input(None)) => t.(phase := Ended)
    case (Reading, ReadFailed) => TrunkCloseClient(t).(phase := Accepting)
    case (Reading, Input(Some(line))) => TrunkAct(t, line, env)
    case _ => t
  }

  function TrunkServe(t: Tcp, script: seq<(Env, ClientEvent)>): Tcp
    decreases |script|
  {
    if script == [] then t else TrunkServe(TrunkStep(t, script[0].0, script[0].1), script[1..])
  }

  /** Only "R" writes to the device, exactly the ready command, and at once:
      whether the device has answered discovery does not matter, only that
      a port is set and the write succeeds. */
  lemma OnlyReadyWritten(t: Tcp, env: Env, line: string)
    requires t.phase == Reading
    ensures var r := TrunkStep(t, env, Input(Some(line)));
      r.commands == t.commands + (if line == "R" && env.portSet && env.writeOk then [READY_COMMAND] else []) &&
      r.sent == t.sent && (line != "R" ==> r == t)
  {
  }

  /** A clean disconnect ends the thread with clientSocket still set: no
      later client is accepted and nothing else changes. */
  lemma {:induction false} DisconnectEndsAccepting(t: Tcp, env: Env, script: seq<(Env, ClientEvent)>)
    requires t.phase == Reading
    ensures var r := TrunkStep(t, env, Input(None));
      r.phase == Ended && r.clientSocket == t.clientSocket && TrunkServe(r, script) == r
  {
    EndedStays(TrunkStep(t, env, Input(None)), script);
  }

  lemma {:induction false} EndedStays(t: Tcp, script: seq<(Env, ClientEvent)>)
    requires t.phase == Ended
    ensures TrunkServe(t, script) == t
    decreases |script|
  {
    if script != [] {
      EndedStays(TrunkStep(t, script[0].0, script[0].1), script[1..]);
    }
  }

  /** A read error resets only the socket: the old client's streams stay in
      clientOut and clientIn, and the thread goes back to accept(). */
  lemma ReadErrorKeepsStreams(t: Tcp, env: Env)
    requires t.phase == Reading
    ensures var r := TrunkStep(t, env, ReadFailed);
      r.phase == Accepting && r.clientSocket.None? && r.clientOut == t.clientOut && r.clientIn == t.clientIn
  {
  }

  /** handleData (trunk): the record goes to clientOut without a null check;
      None is the NullPointerException when no client ever connected. */
  function TrunkWriteRecord(t: Tcp, d: Sample, fmt: Float -> string): (r: Option<Tcp>)
    ensures r.None? <==> t.clientOut.None?
    ensures r.Some? ==> r.value == t.(sent := t.sent + [(t.clientOut.value, Render(d, fmt))])
  {
    if t.clientOut.None? then None else Some(t.(sent := t.sent + [(t.clientOut.value, Render(d, fmt))]))
  }

  /** After a read error the records of the next decoded data still go to
      the old client's writer, until another client connects. */
  lemma RecordsToStaleWriter(t: Tcp, env: Env, d: Sample, fmt: Float -> string)
    requires t.phase == Reading && t.clientOut.Some?
    ensures var r := TrunkWriteRecord(TrunkStep(t, env, ReadFailed), d, fmt);
      r.Some? && r.value.sent == t.sent + [(t.clientOut.value, Render(d, fmt))]
  {
  }

  /** TcpCollectionServer (trunk). */
  class TrunkTcpCollectionServer {
    const base: SerialServer.CollectionServer
    var serverPort: int
    var clientSocket: Option<nat>
    var clientOut: Option<nat>
    var clientIn: Option<nat>
    var phase: Phase
    var sent: seq<(nat, string)>
    var commands: seq<byte>
    var closedDown: bool

    function State(): Tcp
      reads this
    {
      Tcp(phase, clientSocket, clientOut, clientIn, sent, commands, closedDown)
    }

    constructor()
      ensures State() == Start && serverPort == DEFAULT_SERVER_PORT && fresh(base)
      ensures base.Settings() == SerialServer.Defaults
    {
      base := new SerialServer.CollectionServer();
      serverPort := DEFAULT_SERVER_PORT;
      clientSocket, clientOut, clientIn := None, None, None;
      phase, sent, commands, closedDown := Accepting, [], [], false;
    }

    /** closeClientConnection */
    method CloseClientConnection()
      modifies this
      ensures State() == TrunkCloseClient(old(State())) && serverPort == old(serverPort)
    {
      clientSocket := None;
    }

    /** One step of the client thread, proved against TrunkStep. */
    method ClientStep(env: Env, ev: ClientEvent)
      modifies this
      ensures State() == TrunkStep(old(State()), env, ev) && serverPort == old(serverPort)
    {
      match (phase, ev)
      case (Accepting, Connect(None, _, _)) =>
        clientSocket := None;
        phase := Ended;
      case (Accepting, Connect(Some(id), outOk, inOk)) =>
        clientSocket := Some(id);
        if !outOk {
          CloseClientConnection();
        } else if !inOk {
          clientOut := Some(id);
          CloseClientConnection();
        } else {
          clientOut, clientIn := Some(id), Some(id);
          sent := sent + To(id, Greeting(env.status));
          phase := Reading;
        }
      case (Reading, Input(None)) =>
        phase := Ended;
      case (Reading, ReadFailed) =>
        CloseClientConnection();
        phase := Accepting;
      case (Reading, Input(Some(line))) =>
        if line == "R" {
          if !env.portSet {
            phase := Ended;
          } else if env.writeOk {
            commands := commands + [READY_COMMAND];
          } else {
            closedDown := true;
            phase := Ended;
          }
        }
      case _ =>
    }

    /** The client thread over a script, proved against TrunkServe. */
    method Run(script: seq<(Env, ClientEvent)>)
      modifies this
      ensures State() == TrunkServe(old(State()), script)
    {
      var i := 0;
      while i < |script|
        invariant 0 <= i <= |script|
        invariant TrunkServe(State(), script[i..]) == TrunkServe(old(State()), script)
      {
        assert script[i..][1..] == script[i + 1..];
        ClientStep(script[i].0, script[i].1);
        i := i + 1;
      }
    }

    /** TcpWriteOnEventListener.handleData (trunk); ok is false where the
        source raises a NullPointerException. */
    method HandleData(d: Sample, fmt: Float -> string) returns (ok: bool)
      modifies this
      ensures ok == TrunkWriteRecord(old(State()), d, fmt).Some?
      ensures ok ==> State() == TrunkWriteRecord(old(State()), d, fmt).value
      ensures !ok ==> State() == old(State())
    {
      ok := clientOut.Some?;
      if ok {
        sent := sent + [(clientOut.value, Render(d, fmt))];
      }
    }
  }
}
