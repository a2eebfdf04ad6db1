/** The clipboard server: every connection is served in its own goroutine, and the
    desktop clipboard is shared (internal/protocol/server.go). */
module ClipboardServer {
  import opened Text
  import opened ClipboardCodec

  /** The desktop as the server sees it: a register, and the targets opened so far. */
  datatype Desktop = Desktop(clipboard: Bytes, launched: seq<Bytes>)

  datatype Operation = SetClipboard(data: Bytes) | GetClipboard | OpenTarget(target: Bytes)

  function ErrorText(error: RequestError): Bytes {
    match error
    case NoHeader => Ascii("read header")
    case HeaderTooLong => Ascii("header too long")
    case MalformedHeader => Ascii("malformed header")
    case UnknownProtocol => Ascii("unknown protocol")
    case BadLength => Ascii("bad length")
    case UnknownVerb => Ascii("unknown verb")
    case Unauthorized => Ascii("unauthorized")
    case ShortPayload => Ascii("short payload")
  }

  /** One desktop operation. A fault is the error text of a desktop tool that
      failed, in which case nothing has changed. */
  function Perform(operation: Operation, desktop: Desktop, fault: Option<Bytes>): (Desktop, Reply) {
    if fault.Some? then (desktop, Failure(fault.value))
    else match operation
      case SetClipboard(data) => (desktop.(clipboard := data), Done)
      case GetClipboard => (desktop, Body(desktop.clipboard))
      case OpenTarget(target) => (desktop.(launched := desktop.launched + [target]), Done)
  }

  /** What a connection's input asks for: an answer that needs no desktop, or one
      desktop operation. */
  datatype Decision = Answer(reply: Reply) | Run(operation: Operation)

  function Refuse(error: RequestError): Decision { Answer(Failure(ErrorText(error))) }

  function DecidePayload(verb: Verb, length: nat, rest: Bytes): Decision {
    if length > |rest| then Refuse(ShortPayload)
    else if verb == Copy then Run(SetClipboard(rest[..length]))
    else Run(OpenTarget(rest[..length]))
  }

  function DecideVerb(header: Header, rest: Bytes): Decision {
    match header.verb
    case Hello => Answer(Greeting)
    case Paste => Run(GetClipboard)
    case _ => DecidePayload(header.verb, header.length, rest)
  }

  function Decide(token: Bytes, input: Bytes): Decision {
    match ReadRequest(input)
    case Err(e) => Refuse(e)
    case Ok((header, rest)) =>
      if header.token != token then Refuse(Unauthorized)
      else DecideVerb(header, rest)
  }

  function Carry(decision: Decision, desktop: Desktop, fault: Option<Bytes>): (Desktop, Reply) {
    match decision
    case Answer(reply) => (desktop, reply)
    case Run(operation) => Perform(operation, desktop, fault)
  }

  // The specification: one connection after another.

  /** A whole connection served at once. */
  function Serve(token: Bytes, input: Bytes, desktop: Desktop, fault: Option<Bytes>): (Desktop, Reply) {
    Carry(Decide(token, input), desktop, fault)
  }

  datatype Served = Served(id: nat, input: Bytes, fault: Option<Bytes>)

  /** The desktop after serving connections in the given order. */
  function Replay(token: Bytes, order: seq<Served>, start: Desktop): Desktop {
    if order == [] then start
    else
      var last := order[|order| - 1];
      Serve(token, last.input, Replay(token, order[..|order| - 1], start), last.fault).0
  }

  /** The reply that the k-th connection gets in that order. */
  function ReplyAt(token: Bytes, order: seq<Served>, start: Desktop, k: nat): Reply
    requires k < |order|
  {
    Serve(token, order[k].input, Replay(token, order[..k], start), order[k].fault).1
  }

  // The server: interleaved steps of many connections.

  /** A settled connection knows its place in the order. */
  datatype Phase =
    | Accepted
    | Reading(verb: Verb, length: nat, rest: Bytes)
    | Ready(operation: Operation)
    | Writing(place: nat, chunks: seq<Bytes>)
    | Closed(place: nat)

  datatype Connection = Connection(input: Bytes, phase: Phase, output: Bytes) {
    predicate Settled() { phase.Writing? || phase.Closed? }

    function Remaining(): Bytes { if phase.Writing? then Concat(phase.chunks) else [] }
  }

  /** The order records when the reply of each connection was settled. */
  datatype Server = Server(connections: map<nat, Connection>, desktop: Desktop, order: seq<Served>) {
    function With(id: nat, connection: Connection): Server {
      this.(connections := connections[id := connection])
    }
  }

  datatype Action = Accept(id: nat, input: Bytes) | Step(id: nat, fault: Option<Bytes>)

  function Concat(chunks: seq<Bytes>): Bytes {
    if chunks == [] then [] else chunks[0] + Concat(chunks[1..])
  }

  /** A paste writes its body separately from its response line. */
  function Chunks(reply: Reply): seq<Bytes> {
    [ReplyLine(reply) + [NEWLINE]] + if reply.Body? then [reply.body] else []
  }

  function Settle(server: Server, id: nat, desktop: Desktop, reply: Reply, fault: Option<Bytes>): Server
    requires id in server.connections
  {
    var connection := server.connections[id];
    Server(server.connections[id := connection.(phase := Writing(|server.order|, Chunks(reply)))], desktop,
           server.order + [Served(id, connection.input, fault)])
  }

  function Move(server: Server, id: nat, phase: Phase): Server
    requires id in server.connections
  {
    server.With(id, server.connections[id].(phase := phase))
  }

  /** The goroutine of one connection up to its next point of interleaving. */
  function Advance(token: Bytes, server: Server, id: nat, fault: Option<Bytes>): Server
    requires id in server.connections
  {
    var connection := server.connections[id];
    match connection.phase
    case Accepted =>
      (match ReadRequest(connection.input)
       case Err(e) => Settle(server, id, server.desktop, Failure(ErrorText(e)), fault)
       case Ok((header, rest)) =>
         if header.token != token then
           Settle(server, id, server.desktop, Failure(ErrorText(Unauthorized)), fault)
         else match header.verb
           case Hello => Settle(server, id, server.desktop, Greeting, fault)
           case Paste => Move(server, id, Ready(GetClipboard))
           case _ => Move(server, id, Reading(header.verb, header.length, rest)))
    case Reading(verb, length, rest) =>
      if length > |rest| then Settle(server, id, server.desktop, Failure(ErrorText(ShortPayload)), fault)
      else Move(server, id, Ready(if verb == Copy then SetClipboard(rest[..length]) else OpenTarget(rest[..length])))
    case Ready(operation) =>
      var (desktop, reply) := Perform(operation, server.desktop, fault);
      Settle(server, id, desktop, reply, fault)
    case Writing(place, chunks) =>
      if chunks == [] then Move(server, id, Closed(place))
      else server.With(id, Connection(connection.input, Writing(place, chunks[1..]), connection.output + chunks[0]))
    case Closed(_) => server
  }

  /** An action that does not apply changes nothing. */
  function Act(token: Bytes, server: Server, action: Action): Server {
    match action
    case Accept(id, input) =>
      if id in server.connections then server
      else server.With(id, Connection(input, Accepted, []))
    case Step(id, fault) =>
      if id in server.connections then Advance(token, server, id, fault) else server
  }

  function RunAll(token: Bytes, server: Server, actions: seq<Action>): Server
    decreases |actions|
  {
    if actions == [] then server else RunAll(token, Act(token, server, actions[0]), actions[1..])
  }

  function Fresh(start: Desktop): Server { Server(map[], start, []) }

  // What every reachable state satisfies.

  /** An unsettled connection has decided nothing that its input does not say and
      has been sent nothing. A settled one is recorded at its place, and it has been
      sent, or is still to be sent, the reply of serving the connections one after
      another. */
  ghost predicate Holds(token: Bytes, start: Desktop, order: seq<Served>, id: nat, connection: Connection) {
    match connection.phase
    case Accepted => connection.output == []
    case Reading(verb, length, rest) =>
      connection.output == [] && Decide(token, connection.input) == DecidePayload(verb, length, rest)
    case Ready(operation) => connection.output == [] && Decide(token, connection.input) == Run(operation)
    case _ =>
      var place := connection.phase.place;
      && place < |order| && order[place].id == id && order[place].input == connection.input
      && connection.output + connection.Remaining() == ReplyBytes(ReplyAt(token, order, start, place))
  }

  /** The k-th entry belongs to a connection that is settled at place k. */
  ghost predicate Filed(server: Server, k: nat) {
    k < |server.order| &&
    var id := server.order[k].id;
    id in server.connections && server.connections[id].Settled() && server.connections[id].phase.place == k
  }

  ghost predicate ConnectionHolds(token: Bytes, start: Desktop, server: Server, id: nat) {
    id in server.connections ==> Holds(token, start, server.order, id, server.connections[id])
  }

  ghost predicate Inv(token: Bytes, start: Desktop, server: Server) {
    && server.desktop == Replay(token, server.order, start)
    && (forall id :: ConnectionHolds(token, start, server, id))
    && (forall k: nat :: k < |server.order| ==> Filed(server, k))
  }

  lemma ConcatOfChunks(reply: Reply)
    ensures Concat(Chunks(reply)) == ReplyBytes(reply)
  {
    var chunks := Chunks(reply);
    if reply.Body? {
      assert chunks[1..] == [reply.body] && chunks[1..][1..] == [];
      assert Concat(chunks[1..]) == reply.body + [];
    } else {
      assert chunks[1..] == [];
    }
  }

  /** A connection that does not move is not affected by a longer order. */
  lemma HoldsInLongerOrder(token: Bytes, start: Desktop, order: seq<Served>, longer: seq<Served>,
                           id: nat, connection: Connection)
    requires Holds(token, start, order, id, connection) && order <= longer
    ensures Holds(token, start, longer, id, connection)
  {
    if connection.Settled() {
      var place := connection.phase.place;
      assert longer[place] == order[place] && longer[..place] == order[..place];
    }
  }

  /** The general step: one connection changes, and the order grows by at most its
      entry. */
  lemma ChangeKeepsInv(token: Bytes, start: Desktop, server: Server, after: Server, id: nat)
    requires Inv(token, start, server)
    requires id in after.connections && Holds(token, start, after.order, id, after.connections[id])
    requires forall other :: other in after.connections && other != id ==>
               other in server.connections && after.connections[other] == server.connections[other]
    requires server.connections.Keys <= after.connections.Keys
    requires server.order <= after.order && after.desktop == Replay(token, after.order, start)
    requires forall k: nat :: |server.order| <= k < |after.order| ==> Filed(after, k)
    requires id in server.connections && server.connections[id].Settled() ==>
               after.connections[id].Settled()
               && after.connections[id].phase.place == server.connections[id].phase.place
    ensures Inv(token, start, after)
  {
    forall other ensures ConnectionHolds(token, start, after, other) {
      if other in after.connections && other != id {
        assert ConnectionHolds(token, start, server, other);
        HoldsInLongerOrder(token, start, server.order, after.order, other, server.connections[other]);
      }
    }
    forall k: nat | k < |after.order| ensures Filed(after, k) {
      if k < |server.order| {
        assert Filed(server, k);
        assert after.order[k] == server.order[k];
      }
    }
  }

  lemma SettleKeepsInv(token: Bytes, start: Desktop, server: Server, id: nat, desktop: Desktop,
                       reply: Reply, fault: Option<Bytes>)
    requires Inv(token, start, server) && id in server.connections && !server.connections[id].Settled()
    requires (desktop, reply) == Serve(token, server.connections[id].input, server.desktop, fault)
    ensures Inv(token, start, Settle(server, id, desktop, reply, fault))
  {
    var after := Settle(server, id, desktop, reply, fault);
    var n := |server.order|;
    assert after.order[..n] == server.order;
    ConcatOfChunks(reply);
    assert ConnectionHolds(token, start, server, id);
    assert [] + ReplyBytes(reply) == ReplyBytes(reply);
    ChangeKeepsInv(token, start, server, after, id);
  }

  lemma MoveKeepsInv(token: Bytes, start: Desktop, server: Server, id: nat, phase: Phase)
    requires Inv(token, start, server) && id in server.connections && !server.connections[id].Settled()
    requires Holds(token, start, server.order, id, server.connections[id].(phase := phase))
    ensures Inv(token, start, Move(server, id, phase))
  {
    ChangeKeepsInv(token, start, server, Move(server, id, phase), id);
  }

  lemma AcceptedKeepsInv(token: Bytes, start: Desktop, server: Server, id: nat, fault: Option<Bytes>)
    requires Inv(token, start, server) && id in server.connections && server.connections[id].phase.Accepted?
    ensures Inv(token, start, Advance(token, server, id, fault))
  {
    var connection := server.connections[id];
    assert ConnectionHolds(token, start, server, id);
    match Decide(token, connection.input) {
      case Answer(reply) =>
        if ReadRequest(connection.input).Ok? && ReadRequest(connection.input).value.0.token == token
           && HasPayload(ReadRequest(connection.input).value.0.verb) {
          var (header, rest) := ReadRequest(connection.input).value;
          MoveKeepsInv(token, start, server, id, Reading(header.verb, header.length, rest));
        } else {
          SettleKeepsInv(token, start, server, id, server.desktop, reply, fault);
        }
      case Run(operation) =>
        var (header, rest) := ReadRequest(connection.input).value;
        if header.verb == Paste {
          MoveKeepsInv(token, start, server, id, Ready(GetClipboard));
        } else {
          MoveKeepsInv(token, start, server, id, Reading(header.verb, header.length, rest));
        }
    }
  }

  lemma ReadingKeepsInv(token: Bytes, start: Desktop, server: Server, id: nat, fault: Option<Bytes>)
    requires Inv(token, start, server) && id in server.connections && server.connections[id].phase.Reading?
    ensures Inv(token, start, Advance(token, server, id, fault))
  {
    var phase := server.connections[id].phase;
    assert ConnectionHolds(token, start, server, id);
    match DecidePayload(phase.verb, phase.length, phase.rest) {
      case Answer(reply) => SettleKeepsInv(token, start, server, id, server.desktop, reply, fault);
      case Run(operation) => MoveKeepsInv(token, start, server, id, Ready(operation));
    }
  }

  lemma ReadyKeepsInv(token: Bytes, start: Desktop, server: Server, id: nat, fault: Option<Bytes>)
    requires Inv(token, start, server) && id in server.connections && server.connections[id].phase.Ready?
    ensures Inv(token, start, Advance(token, server, id, fault))
  {
    assert ConnectionHolds(token, start, server, id);
    var (desktop, reply) := Perform(server.connections[id].phase.operation, server.desktop, fault);
    SettleKeepsInv(token, start, server, id, desktop, reply, fault);
  }

  lemma AdvanceKeepsInv(token: Bytes, start: Desktop, server: Server, id: nat, fault: Option<Bytes>)
    requires Inv(token, start, server) && id in server.connections
    ensures Inv(token, start, Advance(token, server, id, fault))
  {
    match server.connections[id].phase {
      case Accepted => AcceptedKeepsInv(token, start, server, id, fault);
      case Reading(_, _, _) => ReadingKeepsInv(token, start, server, id, fault);
      case Ready(_) => ReadyKeepsInv(token, start, server, id, fault);
      case _ => WriteKeepsInv(token, start, server, id, fault);
    }
  }

  lemma WriteKeepsInv(token: Bytes, start: Desktop, server: Server, id: nat, fault: Option<Bytes>)
    requires Inv(token, start, server) && id in server.connections && server.connections[id].Settled()
    ensures Inv(token, start, Advance(token, server, id, fault))
  {
    var connection := server.connections[id];
    assert ConnectionHolds(token, start, server, id);
    if connection.phase.Writing? {
      var chunks := connection.phase.chunks;
      if chunks != [] {
        assert connection.output + (chunks[0] + Concat(chunks[1..]))
            == (connection.output + chunks[0]) + Concat(chunks[1..]);
      }
      ChangeKeepsInv(token, start, server, Advance(token, server, id, fault), id);
    }
  }

  lemma AcceptKeepsInv(token: Bytes, start: Desktop, server: Server, id: nat, input: Bytes)
    requires Inv(token, start, server)
    ensures Inv(token, start, Act(token, server, Accept(id, input)))
  {
    if id !in server.connections {
      ChangeKeepsInv(token, start, server, server.With(id, Connection(input, Accepted, [])), id);
    }
  }

  lemma OrderOnlyGrows(token: Bytes, server: Server, action: Action)
    ensures server.order <= Act(token, server, action).order
  {
  }

  lemma ActKeepsInv(token: Bytes, start: Desktop, server: Server, action: Action)
    requires Inv(token, start, server)
    ensures Inv(token, start, Act(token, server, action))
    ensures server.order <= Act(token, server, action).order
  {
    OrderOnlyGrows(token, server, action);
    match action {
      case Accept(id, input) =>
        AcceptKeepsInv(token, start, server, id, input);
      case Step(id, fault) =>
        if id in server.connections {
          AdvanceKeepsInv(token, start, server, id, fault);
        }
    }
  }

  lemma {:induction false} RunKeepsInv(token: Bytes, start: Desktop, server: Server, actions: seq<Action>)
    requires Inv(token, start, server)
    ensures Inv(token, start, RunAll(token, server, actions))
    ensures server.order <= RunAll(token, server, actions).order
    decreases |actions|
  {
    if actions != [] {
      ActKeepsInv(token, start, server, actions[0]);
      RunKeepsInv(token, start, Act(token, server, actions[0]), actions[1..]);
    }
  }

  lemma Reached(token: Bytes, start: Desktop, actions: seq<Action>)
    ensures Inv(token, start, RunAll(token, Fresh(start), actions))
  {
    RunKeepsInv(token, start, Fresh(start), actions);
  }

  // The theorems.

  ghost predicate Distinct(order: seq<Served>) {
    forall i, j :: 0 <= i < j < |order| ==> order[i].id != order[j].id
  }

  /** The connection got, as its whole output, the reply of its place in the order. */
  ghost predicate Answered(token: Bytes, start: Desktop, server: Server, id: nat, k: nat) {
    && id in server.connections && k < |server.order|
    && server.order[k].id == id && server.order[k].input == server.connections[id].input
    && server.connections[id].output == ReplyBytes(ReplyAt(token, server.order, start, k))
  }

  /** Linearizability. In every interleaving the connections settle one after
      another, each at most once; the desktop is what serving them whole in that
      order gives; and what a closed connection was sent is exactly the one reply
      that it gets in that order. */
  lemma Linearizable(token: Bytes, start: Desktop, actions: seq<Action>)
    ensures var server := RunAll(token, Fresh(start), actions);
            && Distinct(server.order)
            && server.desktop == Replay(token, server.order, start)
            && forall id :: id in server.connections && server.connections[id].phase.Closed? ==>
                 Answered(token, start, server, id, server.connections[id].phase.place)
  {
    var server := RunAll(token, Fresh(start), actions);
    Reached(token, start, actions);
    forall i, j | 0 <= i < j < |server.order| ensures server.order[i].id != server.order[j].id {
      assert Filed(server, i) && Filed(server, j);
    }
    forall id | id in server.connections && server.connections[id].phase.Closed?
      ensures Answered(token, start, server, id, server.connections[id].phase.place)
    {
      assert ConnectionHolds(token, start, server, id);
      assert server.connections[id].output + [] == server.connections[id].output;
    }
  }

  /** A connection without a place in the order has been sent nothing and has not
      touched the desktop; one with a place has been sent a part of its reply. */
  lemma NothingBeforeSettling(token: Bytes, start: Desktop, actions: seq<Action>, id: nat)
    ensures var server := RunAll(token, Fresh(start), actions);
            id in server.connections ==>
              if server.connections[id].Settled() then
                server.connections[id].phase.place < |server.order| &&
                server.connections[id].output <=
                  ReplyBytes(ReplyAt(token, server.order, start, server.connections[id].phase.place))
              else
                server.connections[id].output == [] && forall k :: 0 <= k < |server.order| ==> server.order[k].id != id
  {
    var server := RunAll(token, Fresh(start), actions);
    Reached(token, start, actions);
    assert ConnectionHolds(token, start, server, id);
    if id in server.connections && !server.connections[id].Settled() {
      forall k | 0 <= k < |server.order| ensures server.order[k].id != id {
        assert Filed(server, k);
      }
    }
  }

  /** The steps a connection can still take. */
  function Effort(connection: Connection): nat {
    match connection.phase
    case Accepted => 6
    case Reading(_, _, _) => 5
    case Ready(_) => 4
    case Writing(_, chunks) => 1 + |chunks|
    case Closed(_) => 0
  }

  lemma AdvanceTouchesOne(token: Bytes, server: Server, id: nat, fault: Option<Bytes>, other: nat)
    requires id in server.connections && other != id
    ensures var after := Advance(token, server, id, fault).connections;
            (other in after <==> other in server.connections)
            && (other in after ==> after[other] == server.connections[other])
  {
    var connection := server.connections[id];
    if connection.phase.Accepted? && ReadRequest(connection.input).Ok? {
      var header := ReadRequest(connection.input).value.0;
      assert header.verb == Hello || header.verb == Paste || HasPayload(header.verb);
    }
  }

  lemma AdvanceLowersEffort(token: Bytes, server: Server, id: nat, fault: Option<Bytes>)
    requires id in server.connections && !server.connections[id].phase.Closed?
    ensures id in Advance(token, server, id, fault).connections
    ensures Effort(Advance(token, server, id, fault).connections[id]) < Effort(server.connections[id])
  {
    var connection := server.connections[id];
    if connection.phase.Accepted? && ReadRequest(connection.input).Ok? {
      var header := ReadRequest(connection.input).value.0;
      assert header.verb == Hello || header.verb == Paste || HasPayload(header.verb);
    }
  }

  /** No connection waits for another: each step of an open one brings it nearer to
      its end, whatever the others do meanwhile, so six steps close it. */
  lemma StepMakesProgress(token: Bytes, server: Server, id: nat, fault: Option<Bytes>)
    requires id in server.connections && !server.connections[id].phase.Closed?
    ensures var after := Act(token, server, Step(id, fault)).connections;
            && id in after && Effort(after[id]) < Effort(server.connections[id])
            && forall other :: other != id ==>
                 (other in after <==> other in server.connections)
                 && (other in after ==> after[other] == server.connections[other])
  {
    AdvanceLowersEffort(token, server, id, fault);
    forall other | other != id
      ensures other in Act(token, server, Step(id, fault)).connections <==> other in server.connections
      ensures other in server.connections ==>
                Act(token, server, Step(id, fault)).connections[other] == server.connections[other]
    {
      AdvanceTouchesOne(token, server, id, fault, other);
    }
  }

  lemma {:induction false} RunConcat(token: Bytes, server: Server, a: seq<Action>, b: seq<Action>)
    ensures RunAll(token, server, a + b) == RunAll(token, RunAll(token, server, a), b)
    decreases |a|
  {
    if a == [] {
      assert a + b == b;
    } else {
      assert (a + b)[1..] == a[1..] + b;
      RunConcat(token, Act(token, server, a[0]), a[1..], b);
    }
  }

  /** The order respects real time: a connection that was closed before another one
      was accepted comes first. */
  lemma OrderRespectsRealTime(token: Bytes, start: Desktop, before: seq<Action>, after: seq<Action>,
                              first: nat, second: nat, i: nat, j: nat)
    requires var middle := RunAll(token, Fresh(start), before);
             && first in middle.connections && middle.connections[first].phase.Closed?
             && second !in middle.connections
    requires var order := RunAll(token, Fresh(start), before + after).order;
             i < |order| && j < |order| && order[i].id == first && order[j].id == second
    ensures i < j
  {
    var middle := RunAll(token, Fresh(start), before);
    var server := RunAll(token, Fresh(start), before + after);
    RunConcat(token, Fresh(start), before, after);
    Reached(token, start, before);
    Reached(token, start, before + after);
    RunKeepsInv(token, start, middle, after);
    assert ConnectionHolds(token, start, middle, first);
    var k := middle.connections[first].phase.place;
    assert server.order[k] == middle.order[k];
    assert Filed(server, k) && Filed(server, i);
    forall m | 0 <= m < |middle.order| ensures server.order[m].id != second {
      assert Filed(middle, m) && server.order[m] == middle.order[m];
    }
  }

  // What the sequential order says about the clipboard.

  /** The input is one complete COPY with the right token, carrying the data. */
  ghost predicate AuthenticCopy(token: Bytes, input: Bytes, data: Bytes) {
    exists rest :: ReadRequest(input) == Ok((Header(Copy, token, |data|), rest)) && data <= rest
  }

  lemma DecideCopy(token: Bytes, input: Bytes, data: Bytes)
    ensures Decide(token, input) == Run(SetClipboard(data)) <==> AuthenticCopy(token, input, data)
  {
    if Decide(token, input) == Run(SetClipboard(data)) {
      var (header, rest) := ReadRequest(input).value;
      assert header == Header(Copy, token, |data|) && data <= rest;
    }
    if AuthenticCopy(token, input, data) {
      var rest :| ReadRequest(input) == Ok((Header(Copy, token, |data|), rest)) && data <= rest;
      assert rest[..|data|] == data;
    }
  }

  /** The input is one complete OPEN with the right token, naming the target. */
  ghost predicate AuthenticOpen(token: Bytes, input: Bytes, target: Bytes) {
    exists rest :: ReadRequest(input) == Ok((Header(Open, token, |target|), rest)) && target <= rest
  }

  ghost predicate AuthenticPaste(token: Bytes, input: Bytes) {
    exists rest :: ReadRequest(input) == Ok((Header(Paste, token, 0), rest))
  }

  lemma DecideOpen(token: Bytes, input: Bytes, target: Bytes)
    ensures Decide(token, input) == Run(OpenTarget(target)) <==> AuthenticOpen(token, input, target)
  {
    if Decide(token, input) == Run(OpenTarget(target)) {
      var (header, rest) := ReadRequest(input).value;
      assert header == Header(Open, token, |target|) && target <= rest;
    }
    if AuthenticOpen(token, input, target) {
      var rest :| ReadRequest(input) == Ok((Header(Open, token, |target|), rest)) && target <= rest;
      assert rest[..|target|] == target;
    }
  }

  lemma DecidePaste(token: Bytes, input: Bytes)
    ensures Decide(token, input) == Run(GetClipboard) <==> AuthenticPaste(token, input)
  {
    if Decide(token, input) == Run(GetClipboard) {
      var (header, rest) := ReadRequest(input).value;
      PasteHasNoLength(input);
      assert header == Header(Paste, token, 0);
    }
  }

  lemma PasteHasNoLength(input: Bytes)
    ensures ReadRequest(input).Ok? && ReadRequest(input).value.0.verb == Paste ==>
              ReadRequest(input).value.0.length == 0
  {
  }

  /** The target that an input asks to open, if it is a complete authentic request. */
  function TargetOf(token: Bytes, input: Bytes): Option<Bytes> {
    match ReadRequest(input)
    case Err(_) => None
    case Ok((header, rest)) =>
      if header.verb == Open && header.token == token && header.length <= |rest| then Some(rest[..header.length])
      else None
  }

  lemma TargetIsAuthentic(token: Bytes, input: Bytes, target: Bytes)
    ensures TargetOf(token, input) == Some(target) <==> AuthenticOpen(token, input, target)
  {
    if TargetOf(token, input) == Some(target) {
      var (header, rest) := ReadRequest(input).value;
      assert header == Header(Open, token, |target|) && target <= rest;
    }
    if AuthenticOpen(token, input, target) {
      var rest :| ReadRequest(input) == Ok((Header(Open, token, |target|), rest)) && target <= rest;
      assert rest[..|target|] == target;
    }
  }

  /** The targets of the requests that the desktop could serve, in order. */
  function Targets(token: Bytes, order: seq<Served>): seq<Bytes> {
    if order == [] then []
    else
      var last := order[|order| - 1];
      var target := TargetOf(token, last.input);
      Targets(token, order[..|order| - 1]) + if target.Some? && last.fault.None? then [target.value] else []
  }

  lemma ServeOpensTarget(token: Bytes, input: Bytes, desktop: Desktop, fault: Option<Bytes>)
    ensures var target := TargetOf(token, input);
            Serve(token, input, desktop, fault).0.launched ==
            desktop.launched + if target.Some? && fault.None? then [target.value] else []
  {
    var target := TargetOf(token, input);
    assert desktop.launched + [] == desktop.launched;
    if target.Some? {
      TargetIsAuthentic(token, input, target.value);
      DecideOpen(token, input, target.value);
    } else if Decide(token, input).Run? && Decide(token, input).operation.OpenTarget? {
      DecideOpen(token, input, Decide(token, input).operation.target);
      TargetIsAuthentic(token, input, Decide(token, input).operation.target);
    }
  }

  lemma {:induction false} ReplayOpensTargets(token: Bytes, order: seq<Served>, start: Desktop)
    ensures Replay(token, order, start).launched == start.launched + Targets(token, order)
    decreases |order|
  {
    if order == [] {
      assert start.launched + [] == start.launched;
    } else {
      var front, last := order[..|order| - 1], order[|order| - 1];
      ReplayOpensTargets(token, front, start);
      ServeOpensTarget(token, last.input, Replay(token, front, start), last.fault);
    }
  }

  /** In every interleaving, what has been opened is exactly the targets of the complete
      authentic requests that were served, each once and in order. */
  lemma OpensExactlyTargets(token: Bytes, start: Desktop, actions: seq<Action>)
    ensures var server := RunAll(token, Fresh(start), actions);
            server.desktop.launched == start.launched + Targets(token, server.order)
  {
    Linearizable(token, start, actions);
    ReplayOpensTargets(token, RunAll(token, Fresh(start), actions).order, start);
  }

  /** The data of the last successful copy, or the initial clipboard. */
  function LatestCopy(token: Bytes, order: seq<Served>, initial: Bytes): Bytes {
    if order == [] then initial
    else
      var last := order[|order| - 1];
      match Decide(token, last.input)
      case Run(SetClipboard(data)) =>
        if last.fault.None? then data else LatestCopy(token, order[..|order| - 1], initial)
      case _ => LatestCopy(token, order[..|order| - 1], initial)
  }

  lemma {:induction false} ReplayHoldsLatestCopy(token: Bytes, order: seq<Served>, start: Desktop)
    ensures Replay(token, order, start).clipboard == LatestCopy(token, order, start.clipboard)
    decreases |order|
  {
    if order != [] {
      ReplayHoldsLatestCopy(token, order[..|order| - 1], start);
    }
  }

  lemma {:induction false} LatestCopyIsAuthentic(token: Bytes, order: seq<Served>, initial: Bytes)
    ensures var latest := LatestCopy(token, order, initial);
            latest == initial || exists k :: 0 <= k < |order| && AuthenticCopy(token, order[k].input, latest)
    decreases |order|
  {
    if order != [] {
      var n := |order| - 1;
      var latest := LatestCopy(token, order, initial);
      if Decide(token, order[n].input) == Run(SetClipboard(latest)) && order[n].fault.None? {
        DecideCopy(token, order[n].input, latest);
        assert AuthenticCopy(token, order[n].input, latest);
      } else {
        LatestCopyIsAuthentic(token, order[..n], initial);
        if latest != initial {
          var k :| 0 <= k < n && AuthenticCopy(token, order[..n][k].input, latest);
          assert order[..n][k] == order[k];
        }
      }
    }
  }

  /** At every moment of every run the clipboard holds its initial value or the
      complete payload of some accepted COPY with the right token. */
  lemma ClipboardIsAuthentic(token: Bytes, start: Desktop, actions: seq<Action>)
    ensures var server := RunAll(token, Fresh(start), actions);
            var clipboard := server.desktop.clipboard;
            clipboard == start.clipboard ||
            exists id :: id in server.connections && AuthenticCopy(token, server.connections[id].input, clipboard)
  {
    var server := RunAll(token, Fresh(start), actions);
    Reached(token, start, actions);
    ReplayHoldsLatestCopy(token, server.order, start);
    LatestCopyIsAuthentic(token, server.order, start.clipboard);
    if server.desktop.clipboard != start.clipboard {
      var k :| 0 <= k < |server.order| && AuthenticCopy(token, server.order[k].input, server.desktop.clipboard);
      assert Filed(server, k) && ConnectionHolds(token, start, server, server.order[k].id);
    }
  }

  /** Every paste that succeeds returns the latest copy before it in the order. */
  lemma PasteReturnsLatestCopy(token: Bytes, start: Desktop, order: seq<Served>, k: nat, body: Bytes)
    requires k < |order| && ReplyAt(token, order, start, k) == Body(body)
    ensures Decide(token, order[k].input) == Run(GetClipboard)
    ensures body == LatestCopy(token, order[..k], start.clipboard)
  {
    ReplayHoldsLatestCopy(token, order[..k], start);
  }

  // Whole client calls.

  /** What Copy reports to its caller. */
  predicate CopySucceeds(response: Option<(Bytes, Bytes)>) {
    response.Some? && response.value.0 == Ascii("OK")
  }

  /** What Paste returns to its caller. */
  function PasteResult(response: Option<(Bytes, Bytes)>): Option<Bytes> {
    if response.Some? && Ascii("OK") <= response.value.0 then Some(response.value.1) else None
  }

  predicate HeaderFits(token: Bytes, verb: Verb, payload: Option<Bytes>) {
    |JoinWords(HeaderWords(token, verb, payload))| < MAX_HEADER_LINE
  }

  lemma RequestDecision(token: Bytes, verb: Verb, payload: Option<Bytes>, serverToken: Bytes)
    requires IsWord(token)
    ensures Decide(serverToken, Request(token, verb, payload)) ==
            if !HeaderFits(token, verb, payload) then Refuse(HeaderTooLong)
            else if !RightShape(verb, payload) then Refuse(MalformedHeader)
            else if PayloadLength(payload) > MAX_PAYLOAD then Refuse(BadLength)
            else if token != serverToken then Refuse(Unauthorized)
            else match verb
              case Hello => Answer(Greeting)
              case Paste => Run(GetClipboard)
              case Copy => Run(SetClipboard(payload.value))
              case Open => Run(OpenTarget(payload.value))
  {
    RequestIsRead(token, verb, payload, []);
    assert Request(token, verb, payload) + [] == Request(token, verb, payload);
    if payload.Some? {
      assert payload.value + [] == payload.value;
      assert payload.value[..|payload.value|] == payload.value;
    }
  }

  /** A request that is cut off anywhere is refused: no part of one can change or
      reveal the clipboard. */
  lemma CutRequestIsRefused(token: Bytes, verb: Verb, payload: Option<Bytes>, serverToken: Bytes, n: nat)
    requires IsWord(token) && n < |Request(token, verb, payload)|
    ensures Decide(serverToken, Request(token, verb, payload)[..n]).Answer?
    ensures Decide(serverToken, Request(token, verb, payload)[..n]).reply.Failure?
  {
    var words := HeaderWords(token, verb, payload);
    var line, body := JoinWords(words), if payload.Some? then payload.value else [];
    var whole := Request(token, verb, payload);
    HeaderWordsAreWords(token, verb, payload);
    JoinHasNoNewline(words);
    assert whole == line + [NEWLINE] + body;
    ReadLineOfCut(line, body, n);
    ParseOfHeader(token, verb, payload);
  }

  lemma FailureIsNoSuccess(text: Bytes)
    ensures var response := ReadResponse(ReplyBytes(Failure(text)));
            !CopySucceeds(response) && PasteResult(response) == None
  {
    ReplyIsRead(Failure(text), []);
    assert ReplyBytes(Failure(text)) + [] == ReplyBytes(Failure(text));
    StatusOfFailure(text);
    OKIsWord();
    var first :| StatusLine(Failure(text)) == Ascii("ERR") + [SPACE] + first;
    assert StatusLine(Failure(text))[0] == Ascii("ERR")[0];
  }

  lemma DoneIsSuccess()
    ensures CopySucceeds(ReadResponse(ReplyBytes(Done)))
  {
    ReplyIsRead(Done, []);
    ReplyWords(Done);
    assert ReplyBytes(Done) + [] == ReplyBytes(Done);
  }

  lemma PlainOkIsSuccess(reply: Reply)
    requires reply.Failure? || reply.Done?
    ensures CopySucceeds(ReadResponse(ReplyBytes(reply))) <==> reply.Done?
  {
    if reply.Failure? {
      FailureIsNoSuccess(reply.text);
    } else {
      DoneIsSuccess();
    }
  }

  lemma BodyIsPasted(body: Bytes)
    requires |body| <= MAX_INT
    ensures PasteResult(ReadResponse(ReplyBytes(Body(body)))) == Some(body)
  {
    ReplyIsRead(Body(body), []);
    ReplyWords(Body(body));
    assert ReplyBytes(Body(body)) + [] == ReplyBytes(Body(body));
  }

  /** The client's Copy succeeds exactly when it sends data, not nil, of at most the
      limit under a header that fits, has the right token, and the desktop works;
      the clipboard then holds exactly the data, and otherwise it is unchanged. */
  lemma CopyOutcome(token: Bytes, data: Option<Bytes>, serverToken: Bytes, desktop: Desktop, fault: Option<Bytes>)
    requires IsWord(token)
    ensures var (after, reply) := Serve(serverToken, Request(token, Copy, data), desktop, fault);
            var success := CopySucceeds(ReadResponse(ReplyBytes(reply)));
            && (success <==> data.Some? && |data.value| <= 64 * 1024 * 1024 && HeaderFits(token, Copy, data)
                             && token == serverToken && fault.None?)
            && after == if success then desktop.(clipboard := data.value) else desktop
  {
    RequestDecision(token, Copy, data, serverToken);
    PlainOkIsSuccess(Serve(serverToken, Request(token, Copy, data), desktop, fault).1);
  }

  lemma PasteHeaderIsShorter(token: Bytes, data: Bytes)
    ensures |JoinWords(HeaderWords(token, Paste, None))| < |JoinWords(HeaderWords(token, Copy, Some(data)))|
  {
    var paste, copy := HeaderWords(token, Paste, None), HeaderWords(token, Copy, Some(data));
    assert |VerbText(Paste)| == 5 && |VerbText(Copy)| == 4;
    assert |NumberText(|data|)| >= 1;
    assert paste[1..] == [token, VerbText(Paste)];
    assert copy[1..] == [token, VerbText(Copy), NumberText(|data|)];
    JoinOfWords(paste[1..]);
    JoinOfWords(copy[1..]);
  }

  /** An OPEN is answered with a plain OK exactly when its target and header fit, the
      token is right and the desktop works; then the one target is opened, and otherwise
      nothing. The clipboard is never touched. */
  lemma OpenOutcome(token: Bytes, target: Option<Bytes>, serverToken: Bytes, desktop: Desktop, fault: Option<Bytes>)
    requires IsWord(token)
    ensures var (after, reply) := Serve(serverToken, Request(token, Open, target), desktop, fault);
            var success := CopySucceeds(ReadResponse(ReplyBytes(reply)));
            && (success <==> target.Some? && |target.value| <= 64 * 1024 * 1024 && HeaderFits(token, Open, target)
                             && token == serverToken && fault.None?)
            && after == if success then desktop.(launched := desktop.launched + [target.value]) else desktop
  {
    var (after, reply) := Serve(serverToken, Request(token, Open, target), desktop, fault);
    RequestDecision(token, Open, target, serverToken);
    PlainOkIsSuccess(reply);
  }

  /** A desktop tool that fails is reported with its own words. */
  lemma FaultIsReported(token: Bytes, verb: Verb, payload: Option<Bytes>, desktop: Desktop, words: Bytes)
    requires IsWord(token) && HeaderFits(token, verb, payload) && RightShape(verb, payload)
    requires PayloadLength(payload) <= MAX_PAYLOAD && verb != Hello
    ensures Serve(token, Request(token, verb, payload), desktop, Some(words)) == (desktop, Failure(words))
    ensures ReplyBytes(Failure(words)) == Ascii("ERR ") + words + [NEWLINE]
  {
    RequestDecision(token, verb, payload, token);
    assert Ascii("ERR ") == Ascii("ERR") + [SPACE];
    assert Ascii("ERR") + [SPACE] + words + [NEWLINE] + [] == Ascii("ERR ") + words + [NEWLINE];
  }

  /** The lines with which the server refuses. */
  lemma RefusalLines()
    ensures ErrorText(NoHeader) == Ascii("read header") && ErrorText(HeaderTooLong) == Ascii("header too long")
    ensures ErrorText(MalformedHeader) == Ascii("malformed header")
    ensures ErrorText(UnknownProtocol) == Ascii("unknown protocol") && ErrorText(BadLength) == Ascii("bad length")
    ensures ErrorText(UnknownVerb) == Ascii("unknown verb") && ErrorText(Unauthorized) == Ascii("unauthorized")
    ensures ErrorText(ShortPayload) == Ascii("short payload")
  {
  }

  /** A successful Copy followed by a working Paste with the same token returns
      exactly the data, empty data included. */
  lemma CopyThenPaste(token: Bytes, data: Bytes, desktop: Desktop)
    requires IsWord(token) && |data| <= MAX_PAYLOAD && HeaderFits(token, Copy, Some(data))
    ensures var (copied, done) := Serve(token, Request(token, Copy, Some(data)), desktop, None);
            var (pasted, reply) := Serve(token, Request(token, Paste, None), copied, None);
            && CopySucceeds(ReadResponse(ReplyBytes(done)))
            && PasteResult(ReadResponse(ReplyBytes(reply))) == Some(data)
            && pasted == copied
  {
    CopyOutcome(token, Some(data), token, desktop, None);
    PasteHeaderIsShorter(token, data);
    RequestDecision(token, Copy, Some(data), token);
    RequestDecision(token, Paste, None, token);
    BodyIsPasted(data);
  }

  // Client calls among others.

  /** A connection that set the clipboard to the data. */
  ghost predicate EffectiveCopy(token: Bytes, served: Served, data: Bytes) {
    AuthenticCopy(token, served.input, data) && served.fault.None?
  }

  /** After a copy, the latest one is that copy or a later one. */
  lemma {:induction false} LatestSince(token: Bytes, order: seq<Served>, initial: Bytes, i: nat, data: Bytes)
    requires i < |order| && EffectiveCopy(token, order[i], data)
    ensures var latest := LatestCopy(token, order, initial);
            latest == data || exists m :: i < m < |order| && EffectiveCopy(token, order[m], latest)
    decreases |order|
  {
    var n := |order| - 1;
    var latest := LatestCopy(token, order, initial);
    if i == n {
      DecideCopy(token, order[n].input, data);
    } else if Decide(token, order[n].input) == Run(SetClipboard(latest)) && order[n].fault.None? {
      DecideCopy(token, order[n].input, latest);
      assert EffectiveCopy(token, order[n], latest);
    } else {
      LatestSince(token, order[..n], initial, i, data);
      if latest != data {
        var m :| i < m < n && EffectiveCopy(token, order[..n][m], latest);
        assert order[..n][m] == order[m];
      }
    }
  }

  /** What a client call that ended has been sent. */
  ghost predicate Ended(server: Server, id: nat, input: Bytes) {
    id in server.connections && server.connections[id].phase.Closed? && server.connections[id].input == input
  }

  /** A Copy that its client saw succeed had its effect at its place. */
  lemma SuccessfulCopyHadEffect(token: Bytes, start: Desktop, actions: seq<Action>, id: nat,
                                clientToken: Bytes, data: Bytes)
    requires IsWord(clientToken)
    requires var server := RunAll(token, Fresh(start), actions);
             && Ended(server, id, Request(clientToken, Copy, Some(data)))
             && CopySucceeds(ReadResponse(server.connections[id].output))
    ensures var server := RunAll(token, Fresh(start), actions);
            var k := server.connections[id].phase.place;
            && k < |server.order| && server.order[k].id == id
            && EffectiveCopy(token, server.order[k], data) && |data| <= MAX_PAYLOAD
  {
    var server := RunAll(token, Fresh(start), actions);
    Linearizable(token, start, actions);
    var k := server.connections[id].phase.place;
    var desktop := Replay(token, server.order[..k], start);
    CopyOutcome(clientToken, Some(data), token, desktop, server.order[k].fault);
    RequestDecision(clientToken, Copy, Some(data), token);
    DecideCopy(token, server.order[k].input, data);
  }

  lemma PasteOutcome(clientToken: Bytes, token: Bytes, desktop: Desktop, fault: Option<Bytes>)
    requires IsWord(clientToken)
    ensures var reply := Serve(token, Request(clientToken, Paste, None), desktop, fault).1;
            PasteResult(ReadResponse(ReplyBytes(reply))).Some? ==> reply == Body(desktop.clipboard)
  {
    RequestDecision(clientToken, Paste, None, token);
    var reply := Serve(token, Request(clientToken, Paste, None), desktop, fault).1;
    if reply.Failure? {
      FailureIsNoSuccess(reply.text);
    }
  }

  /** A Paste that its client saw succeed was sent the clipboard of its place. */
  lemma SuccessfulPasteWasServed(token: Bytes, start: Desktop, actions: seq<Action>, id: nat, clientToken: Bytes)
    requires IsWord(clientToken)
    requires var server := RunAll(token, Fresh(start), actions);
             && Ended(server, id, Request(clientToken, Paste, None))
             && PasteResult(ReadResponse(server.connections[id].output)).Some?
    ensures var server := RunAll(token, Fresh(start), actions);
            var k := server.connections[id].phase.place;
            && k < |server.order| && server.order[k].id == id
            && server.connections[id].output
               == ReplyBytes(Body(LatestCopy(token, server.order[..k], start.clipboard)))
  {
    var server := RunAll(token, Fresh(start), actions);
    Linearizable(token, start, actions);
    var k := server.connections[id].phase.place;
    PasteOutcome(clientToken, token, Replay(token, server.order[..k], start), server.order[k].fault);
    ReplayHoldsLatestCopy(token, server.order[..k], start);
  }

  lemma AuthenticCopyFits(token: Bytes, input: Bytes, data: Bytes)
    requires AuthenticCopy(token, input, data)
    ensures |data| <= MAX_PAYLOAD
  {
  }

  /** In every interleaving, a Paste that began after a successful Copy had ended, and
      that succeeds, returns the data of that Copy or of another effective one that
      took place between the two. */
  lemma PasteAfterCopy(token: Bytes, start: Desktop, before: seq<Action>, after: seq<Action>,
                       copier: nat, copyToken: Bytes, data: Bytes, paster: nat, pasteToken: Bytes, body: Bytes)
    requires IsWord(copyToken) && IsWord(pasteToken)
    requires var middle := RunAll(token, Fresh(start), before);
             && Ended(middle, copier, Request(copyToken, Copy, Some(data)))
             && CopySucceeds(ReadResponse(middle.connections[copier].output))
             && paster !in middle.connections
    requires var server := RunAll(token, Fresh(start), before + after);
             && Ended(server, paster, Request(pasteToken, Paste, None))
             && PasteResult(ReadResponse(server.connections[paster].output)) == Some(body)
    ensures var order := RunAll(token, Fresh(start), before + after).order;
            exists i, k :: 0 <= i < k < |order| && order[i].id == copier && order[k].id == paster &&
              (body == data || exists m :: i < m < k && EffectiveCopy(token, order[m], body))
  {
    var middle := RunAll(token, Fresh(start), before);
    var server := RunAll(token, Fresh(start), before + after);
    SuccessfulCopyHadEffect(token, start, before, copier, copyToken, data);
    SuccessfulPasteWasServed(token, start, before + after, paster, pasteToken);
    var i, k := middle.connections[copier].phase.place, server.connections[paster].phase.place;
    RunConcat(token, Fresh(start), before, after);
    Reached(token, start, before);
    RunKeepsInv(token, start, middle, after);
    assert server.order[i] == middle.order[i];
    OrderRespectsRealTime(token, start, before, after, copier, paster, i, k);
    LatestBetween(token, server.order, start.clipboard, i, k, data);
    var latest := LatestCopy(token, server.order[..k], start.clipboard);
    BodyIsPasted(latest);
    assert body == latest;
  }

  lemma LatestBetween(token: Bytes, order: seq<Served>, initial: Bytes, i: nat, k: nat, data: Bytes)
    requires i < k <= |order| && EffectiveCopy(token, order[i], data)
    ensures var latest := LatestCopy(token, order[..k], initial);
            && |latest| <= MAX_PAYLOAD
            && (latest == data || exists m :: i < m < k && EffectiveCopy(token, order[m], latest))
  {
    var part := order[..k];
    var latest := LatestCopy(token, part, initial);
    LatestSince(token, part, initial, i, data);
    if latest == data {
      AuthenticCopyFits(token, order[i].input, data);
    } else {
      var m :| i < m < k && EffectiveCopy(token, part[m], latest);
      assert part[m] == order[m];
      AuthenticCopyFits(token, order[m].input, latest);
    }
  }

  // The goroutine as a sequential program.

  /** The first line of what was read already and what is still unread. */
  function PrefixLine(read: Bytes, unread: Bytes): Option<(Bytes, Bytes)> {
    match ReadLine(unread)
    case None => None
    case Some((text, rest)) => Some((read + text, rest))
  }

  lemma PrefixNothing(unread: Bytes)
    ensures PrefixLine([], unread) == ReadLine(unread)
  {
    if ReadLine(unread).Some? {
      assert [] + ReadLine(unread).value.0 == ReadLine(unread).value.0;
    }
  }

  lemma PrefixStep(read: Bytes, unread: Bytes)
    requires unread != [] && unread[0] != NEWLINE
    ensures PrefixLine(read, unread) == PrefixLine(read + [unread[0]], unread[1..])
  {
    if ReadLine(unread[1..]).Some? {
      var text := ReadLine(unread[1..]).value.0;
      assert read + ([unread[0]] + text) == (read + [unread[0]]) + text;
    }
  }

  /** One accepted connection: the bytes not read yet and the bytes written. */
  class Conn {
    var unread: Bytes
    var written: Bytes

    constructor (input: Bytes)
      ensures unread == input && written == []
    {
      unread, written := input, [];
    }

    /** reader.ReadString: a line with its newline, or an error. */
    method ReadString() returns (line: Option<Bytes>)
      modifies this`unread
      ensures match ReadLine(old(unread))
              case None => line == None && unread == []
              case Some((text, rest)) => line == Some(text + [NEWLINE]) && unread == rest
    {
      var read: Bytes := [];
      PrefixNothing(unread);
      while unread != []
        invariant PrefixLine(read, unread) == ReadLine(old(unread))
        decreases |unread|
      {
        var b := unread[0];
        ghost var rest := unread;
        unread := unread[1..];
        if b == NEWLINE {
          assert read + [] == read;
          return Some(read + [b]);
        }
        PrefixStep(read, rest);
        read := read + [b];
      }
      return None;
    }

    /** readPayload: exactly n bytes, or an error. */
    method ReadPayload(n: nat) returns (body: Option<Bytes>)
      requires n <= MAX_PAYLOAD
      modifies this`unread
      ensures n <= |old(unread)| ==> body == Some(old(unread)[..n]) && unread == old(unread)[n..]
      ensures n > |old(unread)| ==> body == None && unread == []
    {
      if n > |unread| {
        unread := [];
        return None;
      }
      body := Some(unread[..n]);
      unread := unread[n..];
    }

    method WriteResponse(line: Bytes)
      modifies this`written
      ensures written == old(written) + (line + [NEWLINE])
    {
      written := written + (line + [NEWLINE]);
    }
  }

  /** The response line, and for a paste the clipboard after it. */
  method Send(conn: Conn, reply: Reply)
    requires conn.written == []
    modifies conn`written
    ensures conn.written == ReplyBytes(reply)
  {
    conn.WriteResponse(ReplyLine(reply));
    if reply.Body? {
      conn.written := conn.written + reply.body;
    }
  }

  class SharedDesktop {
    var state: Desktop

    method Do(operation: Operation, fault: Option<Bytes>) returns (reply: Reply)
      modifies this
      ensures (state, reply) == Perform(operation, old(state), fault)
    {
      if fault.Some? {
        return Failure(fault.value);
      }
      match operation {
        case SetClipboard(data) =>
          state := state.(clipboard := data);
          return Done;
        case GetClipboard =>
          return Body(state.clipboard);
        case OpenTarget(target) =>
          state := state.(launched := state.launched + [target]);
          return Done;
      }
    }
  }

  /** The part of handle that reads and parses the header line. */
  method ReadHeader(conn: Conn) returns (result: Result<Header, RequestError>)
    modifies conn`unread
    ensures match ReadRequest(old(conn.unread))
            case Err(e) => result == Err(e)
            case Ok((header, rest)) => result == Ok(header) && conn.unread == rest && header.length <= MAX_PAYLOAD
  {
    var line := conn.ReadString();
    if line.None? {
      return Err(NoHeader);
    }
    if |line.value| > MAX_HEADER_LINE {
      return Err(HeaderTooLong);
    }
    var text := line.value[..|line.value| - 1];
    assert text == ReadLine(old(conn.unread)).value.0;
    return ParseHeader(text);
  }

  /** handle: the connection is answered as the specification says. */
  method Handle(token: Bytes, conn: Conn, desktop: SharedDesktop, fault: Option<Bytes>)
    requires conn.written == []
    modifies conn, desktop
    ensures desktop.state == Serve(token, old(conn.unread), old(desktop.state), fault).0
    ensures conn.written == ReplyBytes(Serve(token, old(conn.unread), old(desktop.state), fault).1)
  {
    var parsed := ReadHeader(conn);
    if parsed.Err? {
      Send(conn, Failure(ErrorText(parsed.error)));
      return;
    }
    var header := parsed.value;
    if header.token != token {
      Send(conn, Failure(ErrorText(Unauthorized)));
      return;
    }
    Execute(conn, header, desktop, fault);
  }

  /** executeClipboardRequest, after the token was accepted. */
  method Execute(conn: Conn, header: Header, desktop: SharedDesktop, fault: Option<Bytes>)
    requires conn.written == [] && header.length <= MAX_PAYLOAD
    modifies conn, desktop
    ensures var (after, reply) := Carry(DecideVerb(header, old(conn.unread)), old(desktop.state), fault);
            desktop.state == after && conn.written == ReplyBytes(reply)
  {
    match header.verb {
      case Hello =>
        Send(conn, Greeting);
      case Paste =>
        var reply := desktop.Do(GetClipboard, fault);
        Send(conn, reply);
      case _ =>
        HandlePayload(conn, header.verb, header.length, desktop, fault);
    }
  }

  method HandlePayload(conn: Conn, verb: Verb, length: nat, desktop: SharedDesktop, fault: Option<Bytes>)
    requires conn.written == [] && length <= MAX_PAYLOAD
    modifies conn, desktop
    ensures var (after, reply) := Carry(DecidePayload(verb, length, old(conn.unread)), old(desktop.state), fault);
            desktop.state == after && conn.written == ReplyBytes(reply)
  {
    var body := conn.ReadPayload(length);
    if body.None? {
      Send(conn, Failure(ErrorText(ShortPayload)));
      return;
    }
    var reply := desktop.Do(if verb == Copy then SetClipboard(body.value) else OpenTarget(body.value), fault);
    Send(conn, reply);
  }
}
