/** What a session acquires and releases on every path, and the search for a
    clipboard port that is free at both ends (internal/session/session.go and
    tunnel.go, and the listener part of internal/protocol/server.go). */
module SessionLifetime {
  import opened Text
  import Argv
  import RemoteEnv
  import opened ShellWords

  /** clipboardForwardAttempts. */
  const ATTEMPTS: nat := 8

  /** What a session holds. The clipboard listener may change its port. */
  datatype Resource = ClipboardListener | TempDir | Master

  /** A started client is recorded with its arguments and the remote forwards that
      are established at that moment. */
  datatype Event =
    | Acquired(resource: Resource)
    | Released(resource: Resource)
    | StartedClient(client: Client)

  datatype Client = Client(args: seq<string>, forwards: set<nat>)

  // Outcomes of the outside world, chosen before the run.

  /** net.Listen: refused, bound to a port, or bound with an address that cannot be
      read back. */
  datatype Listening = Refused | Bound(port: nat) | Unreadable(port: nat)

  datatype Forwarding = Forwarded | Busy | Rejected

  datatype Probe = RemoteMosh | RemoteSSH | ProbeFailed | UnexpectedAnswer

  /** process.Run: not started at all, killed because it could not have the terminal,
      or run to its end. */
  datatype ClientRun = CannotStart | Killed | Exited(status: int)

  /** The temporary directory is given by the path of the control socket in it, and the
      agent check by the socket that it reports. */
  datatype Outcomes = Outcomes(
    token: Option<string>,
    listen: Listening,
    firstClientPath: bool,
    sshPath: bool,
    tempDir: Option<string>,
    startMaster: bool,
    masterReady: bool,
    forwards: seq<Forwarding>,
    relistens: seq<Listening>,
    agent: Option<string>,
    localMosh: bool,
    probe: Probe,
    secondClientPath: bool,
    client: ClientRun)
  {
    /** What the i-th forward attempt meets; the sequences may be of any length. */
    function Forward(i: nat): Forwarding { if i < |forwards| then forwards[i] else Rejected }

    function Relisten(i: nat): Listening { if i < |relistens| then relistens[i] else Refused }
  }

  /** The order in which a trace acquires and releases, as a stack. Releases out of
      order, or a client without all resources, are not accepted. */
  function Replay(trace: seq<Event>): Option<seq<Resource>> {
    if trace == [] then Some([])
    else
      match Replay(trace[..|trace| - 1])
      case None => None
      case Some(held) => After(held, trace[|trace| - 1])
  }

  function After(held: seq<Resource>, event: Event): Option<seq<Resource>> {
    match event
    case Acquired(resource) => Some(held + [resource])
    case Released(resource) =>
      if held != [] && held[|held| - 1] == resource then Some(held[..|held| - 1]) else None
    case StartedClient(_) =>
      if held == [ClipboardListener, TempDir, Master] then Some(held) else None
  }

  function Clients(trace: seq<Event>): seq<Client> {
    if trace == [] then []
    else
      Clients(trace[..|trace| - 1]) +
      match trace[|trace| - 1]
      case StartedClient(client) => [client]
      case _ => []
  }

  /** The parts of the machine that a session can affect. */
  class World {
    /** Every loopback port with an open listener, of this session or not. */
    var listeners: set<nat>
    /** The resources of this session, in the order in which they were acquired. */
    var held: seq<Resource>
    /** The remote forwards that the master has established. */
    var forwards: set<nat>
    /** The ports for which a remote forward was attempted. */
    var attempts: seq<nat>
    var trace: seq<Event>

    ghost predicate Valid()
      reads this
    {
      && Replay(trace) == Some(held)
      && (Master !in held ==> forwards == {})
    }

    method Acquire(resource: Resource)
      requires Valid() && (resource.Master? ==> forwards == {})
      modifies this`held, this`trace
      ensures Valid() && held == old(held) + [resource] && Clients(trace) == Clients(old(trace))
    {
      held := held + [resource];
      trace := trace + [Acquired(resource)];
      assert trace[..|trace| - 1] == old(trace);
    }

    /** Only the resource acquired last can be released. */
    method Release(resource: Resource)
      requires Valid() && held != [] && held[|held| - 1] == resource
      requires Master !in held[..|held| - 1]
      modifies this`held, this`trace, this`forwards
      ensures Valid() && held == old(held)[..|old(held)| - 1] && Clients(trace) == Clients(old(trace))
      ensures resource.Master? ==> forwards == {}
      ensures !resource.Master? ==> forwards == old(forwards)
    {
      if resource.Master? {
        forwards := {};
      }
      held := held[..|held| - 1];
      trace := trace + [Released(resource)];
      assert trace[..|trace| - 1] == old(trace);
    }

    method StartClient(args: seq<string>)
      requires Valid() && held == [ClipboardListener, TempDir, Master]
      modifies this`trace
      ensures Valid() && Clients(trace) == Clients(old(trace)) + [Client(args, forwards)]
    {
      trace := trace + [StartedClient(Client(args, forwards))];
      assert trace[..|trace| - 1] == old(trace);
    }

    /** The kernel never hands out a port that is in use. An address that cannot be
        read back closes the listener again. */
    method Listen(outcome: Listening) returns (port: Option<nat>)
      modifies this`listeners
      ensures port == Granted(outcome, old(listeners))
      ensures listeners == old(listeners) + (if port.Some? then {port.value} else {})
    {
      if outcome.Refused? || outcome.port in listeners {
        return None;
      }
      listeners := listeners + {outcome.port};
      if outcome.Unreadable? {
        listeners := listeners - {outcome.port};
        return None;
      }
      return Some(outcome.port);
    }
  }

  function Granted(outcome: Listening, listeners: set<nat>): Option<nat> {
    if outcome.Bound? && outcome.port !in listeners then Some(outcome.port) else None
  }

  /** protocol.Server: the listener it holds and the port it reports. */
  class Server {
    var listener: nat
    var port: nat

    constructor (bound: nat)
      ensures listener == bound && port == bound
    {
      listener, port := bound, bound;
    }

    /** The new listener is open before the old one is closed, so the two never
        have the same port. */
    method Relisten(world: World, outcome: Listening) returns (ok: bool)
      requires listener in world.listeners && port == listener
      modifies this, world`listeners
      ensures ok == Granted(outcome, old(world.listeners)).Some?
      ensures port == listener && listener in world.listeners
      ensures ok ==> Granted(outcome, old(world.listeners)) == Some(port) && port != old(port)
      ensures !ok ==> port == old(port)
      ensures world.listeners == old(world.listeners) - {old(port)} + {port}
    {
      var bound := world.Listen(outcome);
      if bound.None? {
        return false;
      }
      var previous := listener;
      listener := bound.value;
      port := bound.value;
      world.listeners := world.listeners - {previous};
      return true;
    }

    method Stop(world: World)
      modifies world`listeners
      ensures world.listeners == old(world.listeners) - {listener}
    {
      world.listeners := world.listeners - {listener};
    }
  }

  /** One listener was replaced by another, which took no port from anybody else. */
  ghost predicate ListenersMoved(before: set<nat>, from: nat, after: set<nat>, to: nat) {
    after == before - {from} + {to} && to !in before - {from}
  }

  lemma ListenersMoveAgain(before: set<nat>, from: nat, middle: set<nat>, port: nat, to: nat)
    requires ListenersMoved(before, from, middle, port) && to !in middle
    ensures ListenersMoved(before, from, middle - {port} + {to}, to)
  {
  }

  datatype BindResult = BindDone | ForwardRejected | RelistenFailed | PortsExhausted

  datatype Found = Found(result: BindResult, port: nat, made: seq<nat>)

  /** The search from its i-th attempt on, as a function of the outcomes: its
      result, the server's last port and the ports it attempted. */
  function Search(o: Outcomes, i: nat, listeners: set<nat>, port: nat): Found
    requires i <= ATTEMPTS
    decreases ATTEMPTS - i
  {
    if i == ATTEMPTS then Found(PortsExhausted, port, [])
    else match o.Forward(i)
      case Forwarded => Found(BindDone, port, [port])
      case Rejected => Found(ForwardRejected, port, [port])
      case Busy =>
        match Granted(o.Relisten(i), listeners)
        case None => Found(RelistenFailed, port, [port])
        case Some(next) =>
          var later := Search(o, i + 1, listeners - {port} + {next}, next);
          later.(made := [port] + later.made)
  }

  function FirstSearch(o: Outcomes, listeners: set<nat>, port: nat): Found { Search(o, 0, listeners, port) }

  lemma SearchMoves(o: Outcomes, i: nat, listeners: set<nat>, port: nat)
    requires i < ATTEMPTS && o.Forward(i) == Busy && Granted(o.Relisten(i), listeners).Some?
    ensures var next := Granted(o.Relisten(i), listeners).value;
            var later := Search(o, i + 1, listeners - {port} + {next}, next);
            Search(o, i, listeners, port) == later.(made := [port] + later.made)
  {
  }

  /** Whatever the outcomes, there are at most eight attempts, each on the port
      that the server has at that moment; only a busy port leads to another attempt;
      and success means that the last attempt, on the server's final port, was
      forwarded. */
  lemma {:induction false} SearchIsBounded(o: Outcomes, i: nat, listeners: set<nat>, port: nat)
    requires i < 8 && port in listeners
    ensures var found := Search(o, i, listeners, port);
            && 0 < |found.made| <= 8 - i
            && found.made[0] == port
            && AllMovedOn(o, i, found.made)
            && SearchEnded(o, i, found)
    decreases ATTEMPTS - i
  {
    if o.Forward(i) == Busy && Granted(o.Relisten(i), listeners).Some? {
      var next := Granted(o.Relisten(i), listeners).value;
      var moved := listeners - {port} + {next};
      SearchMoves(o, i, listeners, port);
      if i + 1 < ATTEMPTS {
        SearchIsBounded(o, i + 1, moved, next);
        MovedOnShift(o, i, port, next, Search(o, i + 1, moved, next).made);
      }
    }
  }

  lemma MovedOnShift(o: Outcomes, i: nat, port: nat, next: nat, later: seq<nat>)
    requires o.Forward(i) == Busy && o.Relisten(i) == Bound(next) && port != next
    requires later != [] && later[0] == next && AllMovedOn(o, i + 1, later)
    ensures AllMovedOn(o, i, [port] + later)
  {
    forall k | 0 < k < |[port] + later| ensures MovedOn(o, i, [port] + later, k) {
      if k > 1 {
        assert MovedOn(o, i + 1, later, k - 1);
      }
    }
  }

  /** The k-th port was taken because the forward of the one before it was busy. */
  predicate MovedOn(o: Outcomes, i: nat, made: seq<nat>, k: nat)
    requires 0 < k < |made|
  {
    o.Forward(i + k - 1) == Busy && o.Relisten(i + k - 1) == Bound(made[k]) && made[k] != made[k - 1]
  }

  predicate AllMovedOn(o: Outcomes, i: nat, made: seq<nat>) {
    forall k :: 0 < k < |made| ==> MovedOn(o, i, made, k)
  }

  /** Why a search ended after its last attempt. */
  predicate SearchEnded(o: Outcomes, i: nat, found: Found)
    requires 0 < |found.made| <= ATTEMPTS - i
  {
    var last := i + |found.made| - 1;
    if o.Forward(last) == Busy && found.result == PortsExhausted then
      |found.made| == ATTEMPTS - i && o.Relisten(last) == Bound(found.port)
    else if o.Forward(last) == Busy then
      found.result == RelistenFailed && found.port == found.made[|found.made| - 1]
    else
      found.port == found.made[|found.made| - 1]
      && found.result == if o.Forward(last) == Forwarded then BindDone else ForwardRejected
  }

  /** The goal is what was attempted so far and then the later search. */
  ghost predicate Continues(goal: Found, made: seq<nat>, later: Found) {
    goal.result == later.result && goal.port == later.port && goal.made == made + later.made
  }

  lemma ContinuesOneMore(goal: Found, made: seq<nat>, port: nat, later: Found)
    requires Continues(goal, made, later.(made := [port] + later.made))
    ensures Continues(goal, made + [port], later)
  {
    assert made + ([port] + later.made) == (made + [port]) + later.made;
  }

  lemma BusyContinues(goal: Found, made: seq<nat>, o: Outcomes, i: nat, listeners: set<nat>, port: nat)
    requires i < ATTEMPTS && o.Forward(i) == Busy && Granted(o.Relisten(i), listeners).Some?
    requires Continues(goal, made, Search(o, i, listeners, port))
    ensures var next := Granted(o.Relisten(i), listeners).value;
            Continues(goal, made + [port], Search(o, i + 1, listeners - {port} + {next}, next))
  {
    var next := Granted(o.Relisten(i), listeners).value;
    SearchMoves(o, i, listeners, port);
    ContinuesOneMore(goal, made, port, Search(o, i + 1, listeners - {port} + {next}, next));
  }

  /** Relisten, as one of possibly several moves from the first port. */
  method MoveOn(world: World, server: Server, outcome: Listening, ghost before: set<nat>, ghost from: nat)
    returns (ok: bool)
    requires server.listener in world.listeners && server.port == server.listener
    requires ListenersMoved(before, from, world.listeners, server.port)
    modifies world`listeners, server
    ensures server.port == server.listener && server.listener in world.listeners
    ensures ListenersMoved(before, from, world.listeners, server.port)
    ensures ok == Granted(outcome, old(world.listeners)).Some?
    ensures !ok ==> server.port == old(server.port)
    ensures ok ==> Granted(outcome, old(world.listeners)) == Some(server.port)
                   && world.listeners == old(world.listeners) - {old(server.port)} + {server.port}
  {
    ghost var listeners, port := world.listeners, server.port;
    ok := server.Relisten(world, outcome);
    if ok {
      ListenersMoveAgain(before, from, listeners, port, server.port);
    }
  }

  /** forwardClipboard: asks the master for one remote forward. */
  method ForwardClipboard(world: World, port: nat, outcome: Forwarding) returns (result: Forwarding)
    modifies world`attempts, world`forwards
    ensures result == outcome && world.attempts == old(world.attempts) + [port]
    ensures world.forwards == if outcome == Forwarded then {port} else old(world.forwards)
  {
    world.attempts := world.attempts + [port];
    if outcome == Forwarded {
      world.forwards := {port};
    }
    return outcome;
  }

  /** bindClipboardForward. The server has exactly one open listener at each attempt and
      at return, and a forward is left behind only on success, for the port of that listener. */
  method BindClipboardForward(world: World, server: Server, o: Outcomes) returns (result: BindResult)
    requires world.forwards == {} && server.listener in world.listeners && server.port == server.listener
    modifies world`listeners, world`forwards, world`attempts, server
    ensures server.port == server.listener && server.listener in world.listeners
    ensures ListenersMoved(old(world.listeners), old(server.port), world.listeners, server.port)
    ensures var found := FirstSearch(o, old(world.listeners), old(server.port));
            && result == found.result && server.port == found.port
            && world.attempts == old(world.attempts) + found.made
    ensures world.forwards == if result.BindDone? then {server.port} else {}
  {
    ghost var goal := FirstSearch(o, world.listeners, server.port);
    ghost var made: seq<nat> := [];
    for i := 0 to ATTEMPTS
      invariant world.forwards == {} && server.listener in world.listeners && server.port == server.listener
      invariant ListenersMoved(old(world.listeners), old(server.port), world.listeners, server.port)
      invariant world.attempts == old(world.attempts) + made
      invariant Continues(goal, made, Search(o, i, world.listeners, server.port))
    {
      ghost var before, listeners, port := made, world.listeners, server.port;
      var outcome := ForwardClipboard(world, server.port, o.Forward(i));
      made := made + [port];
      if outcome == Forwarded {
        return BindDone;
      }
      if outcome != Busy {
        return ForwardRejected;
      }
      var ok := MoveOn(world, server, o.Relisten(i), old(world.listeners), old(server.port));
      if !ok {
        return RelistenFailed;
      }
      BusyContinues(goal, before, o, i, listeners, port);
    }
    return PortsExhausted;
  }

  // Setting up and tearing down.

  datatype SetupFailure =
    | NoToken | NoListener | NoClient | NoSSH | NoHost | NoTempDir | MasterNotStarted | MasterNotReady
    | NoForward(bind: BindResult) | NoAgent | NoTransport | NoArguments

  datatype Setup<+T> = SetUp(value: T) | SetupFailed(failure: SetupFailure)

  datatype RunResult = Finished(exit: int) | ClientFailed | NotStarted(failure: SetupFailure)

  /** sessionParams: what the client's arguments need from the session. */
  datatype Params = Params(controlPath: string, env: RemoteEnv.Environment)

  datatype Session = Session(transport: Argv.Transport, params: Params)

  function OrEmpty(text: Option<string>): string { if text.Some? then text.value else "" }

  /** The parameters of a session whose server ended up on the port. */
  function SessionParams(options: Argv.Options, token: string, o: Outcomes, port: nat): Params {
    Params(OrEmpty(o.tempDir),
           RemoteEnv.Environment(token, port, if options.forwardAgent then OrEmpty(o.agent) else ""))
  }

  /** The state of a session whose master is up and forwards the server's port. */
  ghost predicate Established(world: World, server: Server)
    reads world, server
  {
    && world.held == [ClipboardListener, TempDir, Master]
    && world.forwards == {server.port}
    && server.port == server.listener && server.listener in world.listeners
  }

  ghost predicate ServerOnly(world: World, server: Server)
    reads world, server
  {
    && world.held == [ClipboardListener] && world.forwards == {}
    && server.port == server.listener && server.listener in world.listeners
  }

  /** The remaining listeners are those of others and the server's own. */
  twostate predicate OnlyPortMoved(world: World, server: Server)
    reads world, server
  {
    && ListenersMoved(old(world.listeners), old(server.port), world.listeners, server.port)
    && Clients(world.trace) == Clients(old(world.trace))
  }

  /** sshTunnel.Stop, and then the directory of the control socket. */
  method Teardown(world: World)
    requires world.Valid() && world.held == [ClipboardListener, TempDir, Master]
    modifies world`held, world`trace, world`forwards
    ensures world.Valid() && world.held == [ClipboardListener] && world.forwards == {}
    ensures Clients(world.trace) == Clients(old(world.trace))
  {
    world.Release(Master);
    world.Release(TempDir);
  }

  method StartTunnel(world: World, o: Outcomes) returns (failure: Option<SetupFailure>)
    requires world.Valid() && world.held == [ClipboardListener, TempDir] && world.forwards == {}
    modifies world`held, world`trace, world`forwards
    ensures world.Valid() && world.forwards == {} && Clients(world.trace) == Clients(old(world.trace))
    ensures world.held == [ClipboardListener, TempDir] + if failure.None? then [Master] else []
    ensures failure == if !o.startMaster then Some(MasterNotStarted)
                       else if !o.masterReady then Some(MasterNotReady) else None
  {
    if !o.startMaster {
      return Some(MasterNotStarted);
    }
    world.Acquire(Master);
    if !o.masterReady {
      world.Release(Master);
      return Some(MasterNotReady);
    }
    return None;
  }

  /** Whether the host can be found in the translated options. */
  predicate HostKnown(options: Argv.Options) { Argv.SessionHostIndex(Argv.NativeOptions(options)).Some? }

  predicate MasterWorks(options: Argv.Options, o: Outcomes, listeners: set<nat>, port: nat) {
    && o.tempDir.Some? && o.startMaster && o.masterReady
    && FirstSearch(o, listeners, port).result.BindDone?
    && (options.forwardAgent ==> o.agent.Some?)
  }

  /** establishSession. */
  method EstablishSession(world: World, server: Server, options: Argv.Options, token: string, o: Outcomes)
    returns (session: Setup<Params>)
    requires world.Valid() && ServerOnly(world, server)
    modifies world, server
    ensures world.Valid() && OnlyPortMoved(world, server)
    ensures session.SetUp? ==>
              && Established(world, server)
              && server.port == FirstSearch(o, old(world.listeners), old(server.port)).port
              && session.value == SessionParams(options, token, o, server.port)
    ensures session.SetupFailed? ==> ServerOnly(world, server)
    ensures session.SetUp? <==> MasterWorks(options, o, old(world.listeners), old(server.port))
  {
    if o.tempDir.None? {
      return SetupFailed(NoTempDir);
    }
    world.Acquire(TempDir);
    var failure := StartTunnel(world, o);
    if failure.Some? {
      world.Release(TempDir);
      return SetupFailed(failure.value);
    }
    var bind := BindClipboardForward(world, server, o);
    if !bind.BindDone? {
      Teardown(world);
      return SetupFailed(NoForward(bind));
    }
    var env := RemoteEnv.Environment(token, server.port, "");
    if options.forwardAgent {
      if o.agent.None? {
        Teardown(world);
        return SetupFailed(NoAgent);
      }
      env := env.(agentSocket := o.agent.value);
    }
    // Provisioning reports its failure and the session continues without it.
    return SetUp(Params(o.tempDir.value, env));
  }

  /** The terminal transport of a session: Auto asks this machine and then the
      remote one, and an unexpected answer is an error. */
  function ChosenTransport(options: Argv.Options, o: Outcomes): Option<Argv.Transport> {
    if options.transport != Argv.Auto then Some(options.transport)
    else if !o.localMosh then Some(Argv.SSH)
    else match o.probe
      case RemoteMosh => Some(Argv.Mosh)
      case RemoteSSH => Some(Argv.SSH)
      case _ => None
  }

  /** autoTransport: ssh without a local mosh, and otherwise what the remote side says. */
  method AutoTransport(o: Outcomes) returns (mode: Option<Argv.Transport>)
    ensures mode == if o.localMosh && o.probe == RemoteMosh then Some(Argv.Mosh)
                    else if !o.localMosh || o.probe == RemoteSSH then Some(Argv.SSH) else None
  {
    if !o.localMosh {
      return Some(Argv.SSH);
    }
    match o.probe {
      case ProbeFailed => return None;
      case RemoteMosh => return Some(Argv.Mosh);
      case RemoteSSH => return Some(Argv.SSH);
      case UnexpectedAnswer => return None;
    }
  }

  /** Mosh was asked for, or detection found it on both sides. */
  predicate WantsMosh(options: Argv.Options, o: Outcomes) {
    options.transport == Argv.Mosh || (options.transport == Argv.Auto && o.localMosh && o.probe == RemoteMosh)
  }

  /** Detection got no usable answer from the remote side. */
  predicate CannotTell(options: Argv.Options, o: Outcomes) {
    options.transport == Argv.Auto && o.localMosh && (o.probe == ProbeFailed || o.probe == UnexpectedAnswer)
  }

  predicate OpenWorks(options: Argv.Options, o: Outcomes, listeners: set<nat>, port: nat) {
    && o.sshPath && HostKnown(options)
    && MasterWorks(options, o, listeners, port)
    && ChosenTransport(options, o).Some?
  }

  /** Open: the transport and the parameters of the prepared session. */
  method Open(world: World, server: Server, options: Argv.Options, token: string, o: Outcomes)
    returns (session: Setup<Session>)
    requires world.Valid() && ServerOnly(world, server)
    modifies world, server
    ensures world.Valid() && OnlyPortMoved(world, server)
    ensures session.SetUp? ==>
              && Established(world, server)
              && server.port == FirstSearch(o, old(world.listeners), old(server.port)).port
              && Some(session.value.transport) == ChosenTransport(options, o)
              && session.value.params == SessionParams(options, token, o, server.port)
    ensures session.SetUp? <==> OpenWorks(options, o, old(world.listeners), old(server.port))
    ensures session.SetupFailed? ==> ServerOnly(world, server)
  {
    if !o.sshPath {
      return SetupFailed(NoSSH);
    }
    if !HostKnown(options) {
      return SetupFailed(NoHost);
    }
    var established := EstablishSession(world, server, options, token, o);
    if established.SetupFailed? {
      return SetupFailed(established.failure);
    }
    if options.transport == Argv.Auto {
      var mode := AutoTransport(o);
      if mode.None? {
        Teardown(world);
        return SetupFailed(NoTransport);
      }
      return SetUp(Session(mode.value, established.value));
    }
    return SetUp(Session(options.transport, established.value));
  }

  /** The arguments of the terminal client, if a host is found in them. */
  function ClientArgs(options: Argv.Options, session: Session, terminal: bool): Option<seq<string>> {
    var native := Argv.NativeOptions(options.(transport := session.transport));
    if session.transport == Argv.Mosh then
      Argv.MoshClientArgs(native, session.params.controlPath, session.params.env)
    else Argv.SSHClientArgs(native, session.params.controlPath, session.params.env, terminal)
  }

  /** The clients started from the arguments: one unless it cannot be started. */
  function Launched(args: Option<seq<string>>, port: nat, o: Outcomes): seq<Client> {
    if args.None? || o.client.CannotStart? then [] else [Client(args.value, {port})]
  }

  method RunClient(world: World, server: Server, args: Option<seq<string>>, o: Outcomes)
    returns (result: RunResult)
    requires world.Valid() && Established(world, server)
    modifies world`trace
    ensures world.Valid()
    ensures result == if args.None? then NotStarted(NoArguments)
                      else if o.client.Exited? then Finished(o.client.status) else ClientFailed
    ensures Clients(world.trace) == Clients(old(world.trace)) + Launched(args, server.port, o)
  {
    assert Clients(world.trace) + [] == Clients(world.trace);
    if args.None? {
      return NotStarted(NoArguments);
    }
    if o.client.CannotStart? {
      return ClientFailed;
    }
    world.StartClient(args.value);
    return if o.client.Exited? then Finished(o.client.status) else ClientFailed;
  }

  /** The arguments of the client when every step before it works. */
  function PlannedArgs(options: Argv.Options, terminal: bool, token: string, o: Outcomes,
                       listeners: set<nat>, port: nat)
    : Option<seq<string>>
  {
    if o.firstClientPath && OpenWorks(options, o, listeners, port)
       && (options.transport == Argv.Auto ==> o.secondClientPath) then
      var bound := FirstSearch(o, listeners, port).port;
      var params := SessionParams(options, token, o, bound);
      ClientArgs(options, Session(ChosenTransport(options, o).value, params), terminal)
    else None
  }

  /** The clients that a run starts behind the first listener: its arguments name the
      port that the search ended on, and that port is forwarded. */
  function SessionClients(options: Argv.Options, terminal: bool, token: string, o: Outcomes,
                          listeners: set<nat>, port: nat)
    : seq<Client>
  {
    Launched(PlannedArgs(options, terminal, token, o, listeners, port), FirstSearch(o, listeners, port).port, o)
  }

  /** Every step before the terminal client works. */
  predicate SetupWorks(options: Argv.Options, terminal: bool, o: Outcomes, listeners: set<nat>) {
    var bound := Granted(o.listen, listeners);
    && o.token.Some? && bound.Some?
    && PlannedArgs(options, terminal, o.token.value, o, listeners + {bound.value}, bound.value).Some?
  }

  function PlannedClients(options: Argv.Options, terminal: bool, o: Outcomes, listeners: set<nat>): seq<Client> {
    var bound := Granted(o.listen, listeners);
    if o.token.None? || bound.None? then []
    else SessionClients(options, terminal, o.token.value, o, listeners + {bound.value}, bound.value)
  }

  /** Run: whatever fails, everything acquired has been released in reverse order,
      no listener is left, and the client was started at most once: with everything in
      place when setting up worked and it could be started, and otherwise never. */
  method Run(world: World, options: Argv.Options, terminal: bool, o: Outcomes) returns (result: RunResult)
    requires world.Valid() && world.held == [] && world.forwards == {}
    modifies world
    ensures world.Valid() && world.held == [] && world.forwards == {}
    ensures world.listeners == old(world.listeners)
    ensures Clients(world.trace) ==
            Clients(old(world.trace)) + PlannedClients(options, terminal, o, old(world.listeners))
    ensures result.NotStarted? <==> !SetupWorks(options, terminal, o, old(world.listeners))
    ensures !result.NotStarted? ==>
              result == if o.client.Exited? then Finished(o.client.status) else ClientFailed
  {
    assert Clients(world.trace) + [] == Clients(world.trace);
    if o.token.None? {
      return NotStarted(NoToken);
    }
    var bound := world.Listen(o.listen);
    if bound.None? {
      return NotStarted(NoListener);
    }
    var server := new Server(bound.value);
    world.Acquire(ClipboardListener);
    result := RunWithServer(world, server, options, terminal, o.token.value, o);
    server.Stop(world);
    world.Release(ClipboardListener);
  }

  /** The part of Run that the deferred server.Stop covers. */
  method RunWithServer(world: World, server: Server, options: Argv.Options, terminal: bool, token: string, o: Outcomes)
    returns (result: RunResult)
    requires world.Valid() && ServerOnly(world, server)
    modifies world, server
    ensures world.Valid() && ServerOnly(world, server)
    ensures ListenersMoved(old(world.listeners), old(server.port), world.listeners, server.port)
    ensures Clients(world.trace) ==
            Clients(old(world.trace))
            + SessionClients(options, terminal, token, o, old(world.listeners), old(server.port))
    ensures result.NotStarted? <==>
            PlannedArgs(options, terminal, token, o, old(world.listeners), old(server.port)).None?
    ensures !result.NotStarted? ==>
              result == if o.client.Exited? then Finished(o.client.status) else ClientFailed
  {
    assert Clients(world.trace) + [] == Clients(world.trace);
    if !o.firstClientPath {
      return NotStarted(NoClient);
    }
    var session := Open(world, server, options, token, o);
    if session.SetupFailed? {
      return NotStarted(session.failure);
    }
    if options.transport == Argv.Auto && !o.secondClientPath {
      Teardown(world);
      return NotStarted(NoClient);
    }
    result := RunClient(world, server, ClientArgs(options, session.value, terminal), o);
    Teardown(world);
  }

  // Which client is started.

  lemma TransportIsWanted(options: Argv.Options, o: Outcomes)
    ensures ChosenTransport(options, o) ==
            if CannotTell(options, o) then None
            else if WantsMosh(options, o) then Some(Argv.Mosh) else Some(Argv.SSH)
  {
  }

  /** The arguments show which program they are for: Mosh exactly when it was asked for
      or detected on both sides, and ssh in every other case. Both go through the control
      socket in the session's own directory. */
  lemma StartedClientsAreWanted(options: Argv.Options, terminal: bool, o: Outcomes, listeners: set<nat>)
    ensures forall client :: client in PlannedClients(options, terminal, o, listeners) ==>
              && |client.args| >= 2
              && (client.args[0] == "--no-ssh-pty" <==> WantsMosh(options, o))
              && (client.args[0] == "-o" <==> !WantsMosh(options, o))
              && if WantsMosh(options, o)
                 then client.args[1] == "--ssh=" + Argv.FinalSSHOption(Argv.ConnOpts(options), OrEmpty(o.tempDir))
                 else client.args[1] == "ControlPath=" + OrEmpty(o.tempDir)
  {
    TransportIsWanted(options, o);
    forall client | client in PlannedClients(options, terminal, o, listeners)
      ensures |client.args| >= 2
      ensures client.args[0] == if WantsMosh(options, o) then "--no-ssh-pty" else "-o"
      ensures client.args[1] ==
              if WantsMosh(options, o)
              then "--ssh=" + Argv.FinalSSHOption(Argv.ConnOpts(options), OrEmpty(o.tempDir))
              else "ControlPath=" + OrEmpty(o.tempDir)
    {
      var bound := Granted(o.listen, listeners).value;
      var port := FirstSearch(o, listeners + {bound}, bound).port;
      var transport, params := ChosenTransport(options, o).value, SessionParams(options, OrEmpty(o.token), o, port);
      ClientBegins(options, Session(transport, params), terminal);
    }
  }

  lemma ClientBegins(options: Argv.Options, session: Session, terminal: bool)
    requires ClientArgs(options, session, terminal).Some?
    ensures var args := ClientArgs(options, session, terminal).value;
            && |args| >= 2
            && args[0] == (if session.transport == Argv.Mosh then "--no-ssh-pty" else "-o")
            && args[1] == if session.transport == Argv.Mosh
                          then "--ssh=" + Argv.FinalSSHOption(Argv.ConnOpts(options), session.params.controlPath)
                          else "ControlPath=" + session.params.controlPath
  {
    var native := Argv.NativeOptions(options.(transport := session.transport));
    assert native.connOpts == Argv.ConnOpts(options);
    if session.transport == Argv.Mosh {
      Argv.MoshClientKeepsCommand(native, session.params.controlPath, session.params.env);
    }
  }

  /** Without a usable answer nothing is started, whatever else would have worked. */
  lemma UnansweredProbeStartsNothing(options: Argv.Options, terminal: bool, o: Outcomes, listeners: set<nat>)
    requires CannotTell(options, o)
    ensures PlannedClients(options, terminal, o, listeners) == [] && !SetupWorks(options, terminal, o, listeners)
  {
    TransportIsWanted(options, o);
  }

  /** With a host that is no option, a client is started exactly when each step of the
      setup works and the program itself can be started. */
  lemma ClientNeedsEveryStep(options: Argv.Options, terminal: bool, o: Outcomes, listeners: set<nat>)
    requires !HasPrefix(options.host, "-")
    ensures PlannedClients(options, terminal, o, listeners) != [] <==>
            && o.token.Some?
            && o.listen.Bound? && o.listen.port !in listeners
            && o.firstClientPath && o.sshPath
            && o.tempDir.Some? && o.startMaster && o.masterReady
            && FirstSearch(o, listeners + {o.listen.port}, o.listen.port).result.BindDone?
            && (options.forwardAgent ==> o.agent.Some?)
            && !CannotTell(options, o)
            && (options.transport == Argv.Auto ==> o.secondClientPath)
            && !o.client.CannotStart?
  {
    TransportIsWanted(options, o);
    if o.token.Some? && o.listen.Bound? && o.listen.port !in listeners && !CannotTell(options, o) {
      var port := FirstSearch(o, listeners + {o.listen.port}, o.listen.port).port;
      var params := SessionParams(options, o.token.value, o, port);
      EstablishedSessionsStart(options, Session(ChosenTransport(options, o).value, params), terminal);
    }
  }

  // What a started client exports.

  /** The script is read as exports that begin with the token and the port. */
  ghost predicate Exports(script: string, token: string, port: nat) {
    var tokens := START.Run(script).tokens;
    |tokens| >= 4 && tokens[0] == Word("export")
    && tokens[2] == Word("SLUSH_TOKEN=" + token) && tokens[3] == Word("SLUSH_PORT=" + Itoa(port))
  }

  /** Some argument of the client is such a script. */
  ghost predicate ClientExports(args: seq<string>, token: string, port: nat) {
    exists i :: 0 <= i < |args| && Exports(args[i], token, port)
  }

  lemma BeginsWithEnvTokens(script: string, env: RemoteEnv.Environment)
    requires RemoteEnv.EnvTokens(env) <= START.Run(script).tokens
    ensures Exports(script, env.token, env.port)
  {
    var tokens := START.Run(script).tokens;
    assert forall i :: 0 <= i < 7 ==> tokens[i] == RemoteEnv.EnvTokens(env)[i];
  }

  lemma SSHClientExports(native: Argv.SessionOptions, params: Params, terminal: bool)
    requires AllLiteral(params.env.token)
    ensures var args := Argv.SSHClientArgs(native, params.controlPath, params.env, terminal);
            args.Some? ==> ClientExports(args.value, params.env.token, params.env.port)
  {
    var args := Argv.SSHClientArgs(native, params.controlPath, params.env, terminal);
    if args.Some? {
      var (head, command) := Argv.SplitSSH(native.args).value;
      RemoteEnv.LineBeginsWithExports(command, params.env);
      BeginsWithEnvTokens(RemoteEnv.SSHCommand(command, params.env).0, params.env);
      assert args.value[|args.value| - 1] == RemoteEnv.SSHCommand(command, params.env).0;
    }
  }

  lemma MoshClientExports(native: Argv.SessionOptions, params: Params)
    requires AllLiteral(params.env.token)
    ensures var args := Argv.MoshClientArgs(native, params.controlPath, params.env);
            args.Some? ==> ClientExports(args.value, params.env.token, params.env.port)
  {
    var args := Argv.MoshClientArgs(native, params.controlPath, params.env);
    if args.Some? {
      var parts := Argv.SplitMosh(native.args).value;
      Argv.MoshClientKeepsCommand(native, params.controlPath, params.env);
      RemoteEnv.ScriptBeginsWithExports(parts.command, params.env);
      BeginsWithEnvTokens(RemoteEnv.MoshScript(parts.command, params.env), params.env);
      assert args.value[|parts.options| + 6] == RemoteEnv.MoshScript(parts.command, params.env);
    }
  }

  /** The script's second export is the agent's socket. */
  ghost predicate ExportsSocket(script: string, socket: string) {
    var tokens := START.Run(script).tokens;
    |tokens| >= 10 && tokens[7] == Word("export") && tokens[8] == Word("SSH_AUTH_SOCK=" + socket)
    && tokens[9] == Operator(';')
  }

  /** With agent forwarding a Mosh client exports the socket that the check reported. */
  lemma MoshClientsExportSocket(options: Argv.Options, terminal: bool, o: Outcomes, listeners: set<nat>)
    requires AllLiteral(OrEmpty(o.token)) && WantsMosh(options, o) && options.forwardAgent && OrEmpty(o.agent) != ""
    ensures forall client :: client in PlannedClients(options, terminal, o, listeners) ==>
              exists i :: 0 <= i < |client.args| && ExportsSocket(client.args[i], OrEmpty(o.agent))
  {
    TransportIsWanted(options, o);
    forall client | client in PlannedClients(options, terminal, o, listeners)
      ensures exists i :: 0 <= i < |client.args| && ExportsSocket(client.args[i], OrEmpty(o.agent))
    {
      var bound := Granted(o.listen, listeners).value;
      var port := FirstSearch(o, listeners + {bound}, bound).port;
      MoshExportsSocket(Argv.NativeOptions(options.(transport := Argv.Mosh)),
                        SessionParams(options, OrEmpty(o.token), o, port));
    }
  }

  lemma MoshExportsSocket(native: Argv.SessionOptions, params: Params)
    requires AllLiteral(params.env.token) && params.env.agentSocket != ""
    ensures var args := Argv.MoshClientArgs(native, params.controlPath, params.env);
            args.Some? ==> exists i :: 0 <= i < |args.value| && ExportsSocket(args.value[i], params.env.agentSocket)
  {
    var args := Argv.MoshClientArgs(native, params.controlPath, params.env);
    if args.Some? {
      var parts := Argv.SplitMosh(native.args).value;
      Argv.MoshClientKeepsCommand(native, params.controlPath, params.env);
      ScriptExportsSocket(parts.command, params.env);
      assert args.value[|parts.options| + 6] == RemoteEnv.MoshScript(parts.command, params.env);
    }
  }

  lemma ScriptExportsSocket(command: seq<string>, env: RemoteEnv.Environment)
    requires AllLiteral(env.token) && env.agentSocket != ""
    ensures ExportsSocket(RemoteEnv.MoshScript(command, env), env.agentSocket)
  {
    RemoteEnv.ScriptBeginsWithExports(command, env);
    var tokens := START.Run(RemoteEnv.MoshScript(command, env)).tokens;
    assert forall i :: 7 <= i < 10 ==> tokens[i] == RemoteEnv.ExportTokens(env)[i];
  }

  lemma {:induction false} SearchIgnoresAgent(o: Outcomes, i: nat, listeners: set<nat>, port: nat)
    requires i <= ATTEMPTS
    ensures Search(o.(agent := None), i, listeners, port) == Search(o, i, listeners, port)
    decreases ATTEMPTS - i
  {
    if i < ATTEMPTS && o.Forward(i) == Busy && Granted(o.Relisten(i), listeners).Some? {
      var next := Granted(o.Relisten(i), listeners).value;
      SearchIgnoresAgent(o, i + 1, listeners - {port} + {next}, next);
    }
  }

  lemma PlannedArgsIgnoreAgent(options: Argv.Options, terminal: bool, token: string, o: Outcomes,
                               listeners: set<nat>, port: nat)
    requires !options.forwardAgent
    ensures PlannedArgs(options, terminal, token, o.(agent := None), listeners, port)
            == PlannedArgs(options, terminal, token, o, listeners, port)
  {
    SearchIgnoresAgent(o, 0, listeners, port);
    var bound := FirstSearch(o, listeners, port).port;
    assert SessionParams(options, token, o.(agent := None), bound) == SessionParams(options, token, o, bound);
    assert ChosenTransport(options, o.(agent := None)) == ChosenTransport(options, o);
    assert OpenWorks(options, o.(agent := None), listeners, port) == OpenWorks(options, o, listeners, port);
  }

  /** Without agent forwarding the agent makes no difference. */
  lemma AgentOnlyWhenAskedFor(options: Argv.Options, terminal: bool, o: Outcomes, listeners: set<nat>)
    requires !options.forwardAgent
    ensures PlannedClients(options, terminal, o.(agent := None), listeners)
            == PlannedClients(options, terminal, o, listeners)
  {
    var bound := Granted(o.listen, listeners);
    if o.token.Some? && bound.Some? {
      PlannedArgsIgnoreAgent(options, terminal, o.token.value, o, listeners + {bound.value}, bound.value);
      SearchIgnoresAgent(o, 0, listeners + {bound.value}, bound.value);
    }
  }

  /** Whatever port the search ended on, every client that a run starts exports exactly
      the one port that is forwarded at that moment, and the session's token. */
  lemma StartedClientsExportTheirForward(options: Argv.Options, terminal: bool, o: Outcomes, listeners: set<nat>)
    requires AllLiteral(OrEmpty(o.token))
    ensures forall client :: client in PlannedClients(options, terminal, o, listeners) ==>
              exists port :: client.forwards == {port} && ClientExports(client.args, OrEmpty(o.token), port)
  {
    forall client | client in PlannedClients(options, terminal, o, listeners)
      ensures exists port :: client.forwards == {port} && ClientExports(client.args, OrEmpty(o.token), port)
    {
      var bound := Granted(o.listen, listeners).value;
      var port := FirstSearch(o, listeners + {bound}, bound).port;
      var transport, params := ChosenTransport(options, o).value, SessionParams(options, OrEmpty(o.token), o, port);
      var native := Argv.NativeOptions(options.(transport := transport));
      SSHClientExports(native, params, terminal);
      MoshClientExports(native, params);
      assert client.forwards == {port};
    }
  }

  // What the acquisition discipline means for a trace.

  function Count(trace: seq<Event>, event: Event): nat {
    if trace == [] then 0
    else Count(trace[..|trace| - 1], event) + (if trace[|trace| - 1] == event then 1 else 0)
  }

  function CountHeld(held: seq<Resource>, resource: Resource): nat {
    if held == [] then 0
    else CountHeld(held[..|held| - 1], resource) + (if held[|held| - 1] == resource then 1 else 0)
  }

  lemma HeldPush(held: seq<Resource>, added: Resource, resource: Resource)
    ensures CountHeld(held + [added], resource) == CountHeld(held, resource) + (if added == resource then 1 else 0)
  {
    assert (held + [added])[..|held|] == held;
  }

  lemma ReplaySnoc(trace: seq<Event>)
    requires trace != [] && Replay(trace).Some?
    ensures Replay(trace[..|trace| - 1]).Some?
    ensures var last := trace[|trace| - 1];
            && (last.Acquired? ==> Replay(trace).value == Replay(trace[..|trace| - 1]).value + [last.resource])
            && (last.Released? ==> Replay(trace[..|trace| - 1]).value == Replay(trace).value + [last.resource])
            && (last.StartedClient? ==> Replay(trace[..|trace| - 1]).value == Replay(trace).value)
  {
    var front, last := trace[..|trace| - 1], trace[|trace| - 1];
    assert Replay(trace) == After(Replay(front).value, last);
    AfterSays(Replay(front).value, last);
  }

  lemma AfterSays(held: seq<Resource>, event: Event)
    requires After(held, event).Some?
    ensures event.Acquired? ==> After(held, event).value == held + [event.resource]
    ensures event.Released? ==> held == After(held, event).value + [event.resource]
    ensures event.StartedClient? ==> After(held, event).value == held
  {
  }

  /** In a trace that replays, every acquisition has been released except those that
      are still held. */
  lemma {:induction false} ReleasesMatch(trace: seq<Event>, resource: Resource)
    requires Replay(trace).Some?
    ensures Count(trace, Acquired(resource)) ==
            Count(trace, Released(resource)) + CountHeld(Replay(trace).value, resource)
    decreases |trace|
  {
    if trace != [] {
      ReplaySnoc(trace);
      ReleasesMatch(trace[..|trace| - 1], resource);
      match trace[|trace| - 1] {
        case Acquired(added) => HeldPush(Replay(trace[..|trace| - 1]).value, added, resource);
        case Released(removed) => HeldPush(Replay(trace).value, removed, resource);
        case _ =>
      }
    }
  }

  lemma {:induction false} PrefixReplays(trace: seq<Event>, t: nat)
    requires Replay(trace).Some? && t <= |trace|
    ensures Replay(trace[..t]).Some?
    decreases |trace|
  {
    if t < |trace| {
      ReplaySnoc(trace);
      PrefixReplays(trace[..|trace| - 1], t);
      assert trace[..|trace| - 1][..t] == trace[..t];
    } else {
      assert trace[..t] == trace;
    }
  }

  lemma ReplayNext(trace: seq<Event>, t: nat)
    requires Replay(trace).Some? && t < |trace|
    ensures Replay(trace[..t]).Some?
    ensures Replay(trace[..t + 1]).Some? && Replay(trace[..t + 1]) == After(Replay(trace[..t]).value, trace[t])
  {
    PrefixReplays(trace, t);
    PrefixReplays(trace, t + 1);
    var now := trace[..t + 1];
    assert now[..|now| - 1] == trace[..t] && now[|now| - 1] == trace[t];
  }

  /** One event above a resource that it does not release. */
  lemma HeldStep(below: seq<Resource>, resource: Resource, before: seq<Resource>, event: Event)
    returns (above: seq<Resource>)
    requires After(below + [resource] + before, event).Some? && event != Released(resource)
    ensures After(below + [resource] + before, event) == Some(below + [resource] + above)
    ensures forall r :: r in above ==> r in before || event == Acquired(r)
  {
    match event {
      case Acquired(r) =>
        above := before + [r];
        assert below + [resource] + before + [r] == below + [resource] + above;
      case Released(r) =>
        above := WithoutLast(below, resource, before, After(below + [resource] + before, event).value, r);
      case StartedClient(_) =>
        above := before;
    }
  }

  ghost predicate AcquiredBetween(trace: seq<Event>, j: nat, t: nat, above: seq<Resource>)
    requires t <= |trace|
  {
    forall r :: r in above ==> exists m :: j < m < t && trace[m] == Acquired(r)
  }

  /** Until a resource is released, everything below it stays held, and everything above
      it was acquired later. */
  lemma {:induction false} HeldAbove(trace: seq<Event>, j: nat, t: nat, resource: Resource)
    returns (above: seq<Resource>)
    requires Replay(trace).Some? && j < t <= |trace| && trace[j] == Acquired(resource)
    requires forall m :: j < m < t ==> trace[m] != Released(resource)
    ensures Replay(trace[..j]).Some? && Replay(trace[..t]).Some?
    ensures Replay(trace[..t]).value == Replay(trace[..j]).value + [resource] + above
    ensures AcquiredBetween(trace, j, t, above)
    decreases t
  {
    ReplayNext(trace, t - 1);
    if t == j + 1 {
      above := [];
    } else {
      var before := HeldAbove(trace, j, t - 1, resource);
      above := HeldStep(Replay(trace[..j]).value, resource, before, trace[t - 1]);
      forall r | r in above ensures exists m :: j < m < t && trace[m] == Acquired(r) {
        if r in before {
          var m :| j < m < t - 1 && trace[m] == Acquired(r);
        } else {
          assert trace[t - 1] == Acquired(r);
        }
      }
    }
  }

  lemma WithoutLast(a: seq<Resource>, b: Resource, c: seq<Resource>, d: seq<Resource>, e: Resource)
    returns (shorter: seq<Resource>)
    requires a + [b] + c == d + [e] && b != e
    ensures d == a + [b] + shorter && c == shorter + [e]
  {
    LastOf(a, b, c, d, e);
    shorter := c[..|c| - 1];
    assert a + [b] + shorter == (a + [b] + c)[..|a + [b] + c| - 1];
  }

  lemma ReleasePopsLast(trace: seq<Event>, k: nat, resource: Resource) returns (below: seq<Resource>)
    requires Replay(trace).Some? && k < |trace| && trace[k] == Released(resource)
    ensures Replay(trace[..k]) == Some(below + [resource])
  {
    ReplayNext(trace, k);
    AfterSays(Replay(trace[..k]).value, trace[k]);
    below := Replay(trace[..k + 1]).value;
  }

  lemma LastOf(a: seq<Resource>, b: Resource, c: seq<Resource>, d: seq<Resource>, e: Resource)
    requires a + [b] + c == d + [e] && b != e
    ensures c != [] && c[|c| - 1] == e
  {
    var whole := a + [b] + c;
    assert whole[|whole| - 1] == e;
  }

  /** Reverse order: a resource that was acquired while another was held is released
      before that one is, unless the other was acquired once more in between. */
  lemma ReleasedInReverse(trace: seq<Event>, j: nat, k: nat, later: Resource, earlier: Resource)
    requires Replay(trace).Some? && j < k < |trace| && later != earlier
    requires trace[j] == Acquired(later) && trace[k] == Released(earlier)
    ensures exists m :: j < m < k && (trace[m] == Released(later) || trace[m] == Acquired(earlier))
  {
    if forall m :: j < m < k ==> trace[m] != Released(later) {
      var above := HeldAbove(trace, j, k, later);
      var below := ReleasePopsLast(trace, k, earlier);
      assert above != [] && above[|above| - 1] == earlier by {
        LastOf(Replay(trace[..j]).value, later, above, below, earlier);
      }
    }
  }

  /** A host that is no option gives the client its arguments under every transport,
      so a session that was set up always has a client to start. */
  lemma EstablishedSessionsStart(options: Argv.Options, session: Session, terminal: bool)
    requires !HasPrefix(options.host, "-")
    ensures HostKnown(options) && ClientArgs(options, session, terminal).Some?
  {
    var controlPath, env := session.params.controlPath, session.params.env;
    var o := options.(transport := session.transport);
    Argv.HostIsFound(options);
    Argv.HostIsFound(o);
    if session.transport == Argv.Mosh {
      Argv.MoshClientKeepsCommand(Argv.NativeOptions(o), controlPath, env);
    } else {
      Argv.SSHClientRunsOnHost(o, controlPath, env, terminal);
    }
  }
}
