/** A read transfer as a step relation: the server of tftpd.c, an RFC 1350 client, and a network
    that loses and reorders datagrams, may duplicate them, and carries datagrams of strangers. */
module ReadTransfer {
  import opened Runs
  import opened Tftp
  import opened Wrappers

  /** retransmits: the client may repeat its latest acknowledgment at any time. */
  datatype Config = Config(file: Bytes, tid: Id, duplicates: bool, retransmits: bool)

  /** Ready: about to read and send the next block. Waiting: the last block sent awaits its
      acknowledgment. Done and Failed: the handler returned true or false. */
  datatype Phase = Ready | Waiting | Done | Failed
  datatype Server = Server(phase: Phase, sent: nat)

  datatype ClientPhase = Receiving | Complete | Aborted
  datatype Client = Client(phase: ClientPhase, got: nat, data: Bytes)

  /** toServer: the ids of the acknowledgments on their way; aborts: the codes of the errors with
      which the client gave up. */
  datatype State = State(server: Server, client: Client, toClient: multiset<Packet>, toServer: multiset<Id>,
                         aborts: multiset<Id>)

  // ---------------------------------------------------------------- the server alone

  /** What the server does: it sends the next block, gives up before that, or hears something. told:
      the error message to a stranger, if there is to be one, goes out. */
  datatype Act = Send | GiveUp | Hear(reception: Reception, told: bool)

  datatype Verdict = Accept | Refuse | RefuseStranger

  /** The checks on an acknowledgment, in the order the server makes them: opcode, id, source. */
  function Judge(tid: Id, id: Id, reception: Reception): Verdict {
    match reception
    case Nothing => Refuse
    case Datagram(source, opcode, ackId, _) =>
      if opcode != OPCODE_ACK then Refuse
      else if ackId != id then Refuse
      else if source != tid then RefuseStranger
      else Accept
  }

  /** What is accepted is the client's acknowledgment of this very block, and a stranger is one who sends
      the same from another port. */
  lemma JudgeMeans(tid: Id, id: Id, r: Reception)
    ensures Judge(tid, id, r) == Accept
       <==> r.Datagram? && r.opcode == OPCODE_ACK && r.id == id && r.source == tid
    ensures Judge(tid, id, r) == RefuseStranger
       <==> r.Datagram? && r.opcode == OPCODE_ACK && r.id == id && r.source != tid
  {
  }

  predicate CanAct(file: Bytes, server: Server, act: Act) {
    match act
    case Send => server.phase == Ready && server.sent < NumBlocks(file)
    case GiveUp => server.phase == Ready
    case Hear(_, _) => server.phase == Waiting && 1 <= server.sent <= NumBlocks(file)
  }

  function ServerAfter(file: Bytes, tid: Id, server: Server, act: Act): Server
    requires CanAct(file, server, act)
  {
    match act
    case Send => Server(Waiting, server.sent + 1)
    case GiveUp => server.(phase := Failed)
    case Hear(r, _) =>
      match Judge(tid, BlockId(server.sent), r) {
        case Accept => server.(phase := if |Block(file, server.sent)| == BLOCK_SIZE then Ready else Done)
        case _ => server.(phase := Failed)
      }
  }

  /** The datagrams that go out with an act. */
  function Sends(file: Bytes, tid: Id, server: Server, act: Act): seq<Packet>
    requires CanAct(file, server, act)
  {
    match act
    case Send => [Data(BlockId(server.sent + 1), Block(file, server.sent + 1))]
    case GiveUp => []
    case Hear(r, told) =>
      if told && Judge(tid, BlockId(server.sent), r) == RefuseStranger then [Error(ERROR_UNKNOWN_TID)] else []
  }

  /** The calls of recvfrom() in an act. */
  function Hears(act: Act): seq<Reception> {
    if act.Hear? then [act.reception] else []
  }

  /** A run of the server: where it is, what it has sent, and what it has heard. */
  datatype ServerRun = ServerRun(server: Server, sent: seq<Packet>, heard: seq<Reception>)

  function ServerNext(file: Bytes, tid: Id, run: ServerRun, act: Act): Option<ServerRun> {
    if !CanAct(file, run.server, act) then None
    else Some(ServerRun(ServerAfter(file, tid, run.server, act), run.sent + Sends(file, tid, run.server, act),
                        run.heard + Hears(act)))
  }

  function ServerOf(file: Bytes, tid: Id): System<ServerRun, Act> {
    System(ServerRun(Server(Ready, 0), [], []), (run, act) => ServerNext(file, tid, run, act))
  }

  function RunServer(file: Bytes, tid: Id, acts: seq<Act>): Option<ServerRun> {
    Play(ServerOf(file, tid), acts)
  }

  lemma RunServerOn(file: Bytes, tid: Id, acts: seq<Act>, run: ServerRun, act: Act)
    requires RunServer(file, tid, acts) == Some(run)
    ensures RunServer(file, tid, acts + [act]) == ServerNext(file, tid, run, act)
    ensures RunServer(file, tid, []) == Some(ServerRun(Server(Ready, 0), [], []))
  {
    PlayOne(ServerOf(file, tid), acts, act);
  }

  datatype Step =
    | ByServer(act: Act)
    | ClientHears(packet: Packet)
    | ClientRetransmits
    | ClientAborts(code: Id)
    | LoseToClient(packet: Packet)
    | LoseToServer(id: Id)
    | LoseAbort(code: Id)
    | RepeatToClient(packet: Packet)
    | RepeatToServer(id: Id)
    | RepeatAbort(code: Id)

  // ---------------------------------------------------------------- steps

  const INITIAL := State(Server(Ready, 0), Client(Receiving, 0, []), multiset{}, multiset{}, multiset{})

  /** The server hears the client, not a stranger. */
  predicate IsFromClient(cfg: Config, act: Act) {
    act.Hear? && act.reception.Datagram? && act.reception.source == cfg.tid
  }

  /** The client sends nothing but acknowledgments, and one error. Both have their second field
      where the server looks for an id. */
  predicate IsInFlight(s: State, r: Reception)
    requires r.Datagram?
  {
    || (r.opcode == OPCODE_ACK && r.id in s.toServer)
    || (r.opcode == OPCODE_ERROR && r.id in s.aborts)
  }

  /** What is left in flight when one datagram has arrived. */
  function Rest(ids: multiset<Id>, arrives: bool, id: Id): multiset<Id> {
    if arrives then ids - multiset{id} else ids
  }

  predicate Enabled(cfg: Config, s: State, step: Step) {
    match step
    case ByServer(act) =>
      CanAct(cfg.file, s.server, act) && (IsFromClient(cfg, act) ==> IsInFlight(s, act.reception))
    case ClientHears(p) => p in s.toClient
    case ClientRetransmits => cfg.retransmits && s.client.phase != Aborted && s.client.got > 0
    case ClientAborts(_) => s.client.phase == Receiving
    case LoseToClient(p) => p in s.toClient
    case LoseToServer(id) => id in s.toServer
    case LoseAbort(code) => code in s.aborts
    case RepeatToClient(p) => cfg.duplicates && p in s.toClient
    case RepeatToServer(id) => cfg.duplicates && id in s.toServer
    case RepeatAbort(code) => cfg.duplicates && code in s.aborts
  }

  function Apply(cfg: Config, s: State, step: Step): State
    requires Enabled(cfg, s, step)
  {
    match step
    case ByServer(act) =>
      State(ServerAfter(cfg.file, cfg.tid, s.server, act), s.client,
            s.toClient + multiset(Sends(cfg.file, cfg.tid, s.server, act)),
            if IsFromClient(cfg, act) then Rest(s.toServer, act.reception.opcode == OPCODE_ACK, act.reception.id)
            else s.toServer,
            if IsFromClient(cfg, act) then Rest(s.aborts, act.reception.opcode == OPCODE_ERROR, act.reception.id)
            else s.aborts)
    case ClientHears(p) => ClientAfter(s.(toClient := s.toClient - multiset{p}), p)
    case ClientRetransmits => s.(toServer := s.toServer + multiset{BlockId(s.client.got)})
    case ClientAborts(code) =>
      s.(client := s.client.(phase := Aborted), aborts := s.aborts + multiset{code})
    case LoseToClient(p) => s.(toClient := s.toClient - multiset{p})
    case LoseToServer(id) => s.(toServer := s.toServer - multiset{id})
    case LoseAbort(code) => s.(aborts := s.aborts - multiset{code})
    case RepeatToClient(p) => s.(toClient := s.toClient + multiset{p})
    case RepeatToServer(id) => s.(toServer := s.toServer + multiset{id})
    case RepeatAbort(code) => s.(aborts := s.aborts + multiset{code})
  }

  /** The RFC 1350 client: it takes the block it expects and acknowledges it, ends on a block
      shorter than 512 bytes or on an error, and ignores every other block. */
  function ClientAfter(s: State, p: Packet): State {
    var c := s.client;
    if c.phase != Receiving then s
    else match p {
      case Data(id, payload) =>
        if id != BlockId(c.got + 1) then s
        else s.(client := Client(if |payload| < BLOCK_SIZE then Complete else Receiving,
                                 c.got + 1, c.data + payload),
                toServer := s.toServer + multiset{id})
      case Error(_) => s.(client := c.(phase := Aborted))
      case Ack(_) => s
    }
  }

  function Next(cfg: Config, s: State, step: Step): Option<State> {
    if Enabled(cfg, s, step) then Some(Apply(cfg, s, step)) else None
  }

  function SystemOf(cfg: Config): System<State, Step> {
    System(INITIAL, (s, step) => Next(cfg, s, step))
  }

  lemma Steps(cfg: Config, s: State, step: Step)
    requires Reachable(SystemOf(cfg), s) && Enabled(cfg, s, step)
    ensures Reachable(SystemOf(cfg), Apply(cfg, s, step))
  {
    hide Reachable, Enabled, Apply;
    Extend(SystemOf(cfg), s, step, Apply(cfg, s, step));
  }

  // ---------------------------------------------------------------- the server's side of a run

  function ActOf(step: Step): Option<Act> {
    if step.ByServer? then Some(step.act) else None
  }

  lemma ServerPlays(cfg: Config, acts: seq<Act>, s: State, act: Act)
    requires IsPlayed(SystemOf(cfg), ActOf, acts, s) && Enabled(cfg, s, ByServer(act))
    ensures IsPlayed(SystemOf(cfg), ActOf, acts + [act], Apply(cfg, s, ByServer(act)))
  {
    hide IsPlayed, Enabled, Apply;
    PlayOn(SystemOf(cfg), ActOf, acts, s, ByServer(act), Apply(cfg, s, ByServer(act)));
  }

  lemma OthersPlay(cfg: Config, acts: seq<Act>, s: State, step: Step)
    requires IsPlayed(SystemOf(cfg), ActOf, acts, s) && Enabled(cfg, s, step) && !step.ByServer?
    ensures IsPlayed(SystemOf(cfg), ActOf, acts, Apply(cfg, s, step))
  {
    hide IsPlayed, Enabled, Apply;
    PlayOn(SystemOf(cfg), ActOf, acts, s, step, Apply(cfg, s, step));
    assert acts + [] == acts;
  }

  lemma OthersLeaveServer(cfg: Config, s: State, step: Step)
    requires Enabled(cfg, s, step) && !step.ByServer?
    ensures Apply(cfg, s, step).server == s.server
  {
  }

  /** In every run of the whole system the server's side is a run of the server, up to the same state. */
  lemma {:induction false} ServerSideRuns(cfg: Config, steps: seq<Step>)
    requires Play(SystemOf(cfg), steps).Some?
    ensures var run := RunServer(cfg.file, cfg.tid, Side(ActOf, steps));
            run.Some? && run.value.server == Play(SystemOf(cfg), steps).value.server
    decreases |steps|
  {
    hide Play, RunServer, CanAct, ServerAfter, Sends, ClientAfter, Side;
    if steps == [] {
      NoActs(cfg);
    } else {
      var before, step, s, t := LastStep(SystemOf(cfg), ActOf, steps);
      ServerSideRuns(cfg, before);
      var acts := Side(ActOf, before);
      if step.ByServer? {
        RunServerOn(cfg.file, cfg.tid, acts, RunServer(cfg.file, cfg.tid, acts).value, step.act);
      } else {
        OthersLeaveServer(cfg, s, step);
        assert acts + [] == acts;
      }
    }
  }

  lemma NoActs(cfg: Config)
    ensures Play(SystemOf(cfg), []) == Some(INITIAL) && Side(ActOf, []) == []
    ensures RunServer(cfg.file, cfg.tid, []) == Some(ServerRun(INITIAL.server, [], []))
  {
  }

  // ---------------------------------------------------------------- what a read transfer promises

  ghost predicate Exact(cfg: Config, s: State) {
    && s.client.data == Prefix(cfg.file, s.client.got)
    && s.client.got <= s.server.sent <= s.client.got + 1
    && (s.client.phase == Complete ==> s.client.data == cfg.file)
    && (s.server.phase == Done ==> s.client.phase == Complete && s.client.data == cfg.file)
  }

  ghost predicate ReadExact(cfg: Config) {
    forall s | Reachable(SystemOf(cfg), s) :: Exact(cfg, s)
  }

  // ---------------------------------------------------------------- invariants

  /** Holds in every state of every configuration the theorem covers. */
  ghost predicate Agreement(cfg: Config, s: State) {
    var n, got := s.server.sent, s.client.got;
    && got <= n <= got + 1 && n <= NumBlocks(cfg.file)
    && s.client.data == Prefix(cfg.file, got)
    && (s.server.phase in {Ready, Done} ==> got == n)
    && (s.server.phase == Ready ==> n < NumBlocks(cfg.file))
    && (s.server.phase == Waiting ==> 1 <= n)
    && (s.server.phase == Done ==> n == NumBlocks(cfg.file))
    && (s.client.phase == Complete <==> got == NumBlocks(cfg.file))
    && (s.server.phase != Failed ==> forall code :: Error(code) !in s.toClient)
    && (forall id :: Ack(id) !in s.toClient)
  }

  ghost predicate IsBlock(cfg: Config, p: Packet, n: nat) {
    1 <= n <= NumBlocks(cfg.file) && p == Data(BlockId(n), Block(cfg.file, n))
  }

  /** Whatever is in flight repeats a block already sent or an acknowledgment already given. */
  ghost predicate NothingInvented(cfg: Config, s: State) {
    && (forall p | p in s.toClient && p.Data? :: exists n | 1 <= n <= s.server.sent :: IsBlock(cfg, p, n))
    && (forall id | id in s.toServer :: exists n | 1 <= n <= s.client.got :: id == BlockId(n))
  }

  /** At most one block or acknowledgment is in flight, and it is about the latest block. */
  ghost predicate OneInFlight(cfg: Config, s: State) {
    var n, answered := s.server.sent, s.client.got == s.server.sent;
    var settled := s.server.phase in {Ready, Done};
    if n == 0 then s.toServer == multiset{} && forall p | p in s.toClient :: p.Error?
    else
      && n <= NumBlocks(cfg.file)
      && (forall p | p in s.toClient :: p.Error? || p == Data(BlockId(n), Block(cfg.file, n)))
      && s.toClient[Data(BlockId(n), Block(cfg.file, n))] <= (if answered then 0 else 1)
      && s.toServer <= (if answered && !settled then multiset{BlockId(n)} else multiset{})
  }

  ghost predicate Covered(cfg: Config) {
    NumBlocks(cfg.file) <= ID_SPACE || (!cfg.duplicates && !cfg.retransmits)
  }

  ghost predicate Inv(cfg: Config, s: State) {
    && Agreement(cfg, s)
    && NothingInvented(cfg, s)
    && (!cfg.duplicates && !cfg.retransmits ==> OneInFlight(cfg, s))
  }

  /** An acknowledgment the server accepts is the client's answer to the latest block. */
  lemma AcceptedIsCurrent(cfg: Config, s: State, id: Id)
    requires Covered(cfg) && Inv(cfg, s) && s.server.phase == Waiting
    requires id in s.toServer && id == BlockId(s.server.sent)
    ensures s.client.got == s.server.sent
  {
    if NumBlocks(cfg.file) <= ID_SPACE {
      var n :| 1 <= n <= s.client.got && id == BlockId(n);
      IdsDistinct(n, s.server.sent);
    }
  }

  /** A block the client accepts is the one it lacks. */
  lemma TakenIsNext(cfg: Config, s: State, p: Packet)
    requires Covered(cfg) && Inv(cfg, s) && s.client.phase == Receiving
    requires p in s.toClient && p.Data? && p.id == BlockId(s.client.got + 1)
    ensures s.server.sent == s.client.got + 1 && IsBlock(cfg, p, s.server.sent)
  {
    var n :| 1 <= n <= s.server.sent && IsBlock(cfg, p, n);
    if NumBlocks(cfg.file) <= ID_SPACE {
      IdsDistinct(n, s.client.got + 1);
    }
  }

  /** The state after the next block is sent. */
  function SentNext(cfg: Config, s: State): State
    requires s.server.sent < NumBlocks(cfg.file)
  {
    var n := s.server.sent + 1;
    State(Server(Waiting, n), s.client, s.toClient + multiset{Data(BlockId(n), Block(cfg.file, n))}, s.toServer,
          s.aborts)
  }

  lemma InventedSent(cfg: Config, s: State)
    requires NothingInvented(cfg, s) && s.server.sent < NumBlocks(cfg.file)
    ensures NothingInvented(cfg, SentNext(cfg, s))
  {
    hide Block, BlockId, NumBlocks;
    var n := s.server.sent + 1;
    var p := Data(BlockId(n), Block(cfg.file, n));
    forall q | q in SentNext(cfg, s).toClient && q.Data? ensures exists m | 1 <= m <= n :: IsBlock(cfg, q, m) {
      if q in s.toClient {
        var m :| 1 <= m <= s.server.sent && IsBlock(cfg, q, m);
      } else {
        assert IsBlock(cfg, p, n);
      }
    }
  }

  lemma OneInFlightSent(cfg: Config, s: State)
    requires Agreement(cfg, s) && OneInFlight(cfg, s) && s.server.phase == Ready
    ensures OneInFlight(cfg, SentNext(cfg, s))
  {
    hide Block, BlockId, NumBlocks, Prefix;
  }

  lemma InvServerSends(cfg: Config, s: State)
    requires Inv(cfg, s) && Enabled(cfg, s, ByServer(Send))
    ensures Inv(cfg, Apply(cfg, s, ByServer(Send)))
  {
    hide NothingInvented, OneInFlight, Block, BlockId, NumBlocks, Prefix;
    assert Apply(cfg, s, ByServer(Send)) == SentNext(cfg, s);
    InventedSent(cfg, s);
    if !cfg.duplicates && !cfg.retransmits {
      OneInFlightSent(cfg, s);
    }
  }

  lemma InvServerAccepts(cfg: Config, s: State, act: Act)
    requires Covered(cfg) && Inv(cfg, s) && act.Hear? && Enabled(cfg, s, ByServer(act))
    requires Judge(cfg.tid, BlockId(s.server.sent), act.reception) == Accept
    ensures Inv(cfg, Apply(cfg, s, ByServer(act)))
  {
    BlockLength(cfg.file, s.server.sent);
    AcceptedIsCurrent(cfg, s, act.reception.id);
    assert s.toClient + multiset([]) == s.toClient;
  }

  /** The server leaves, perhaps with an error message, perhaps with one acknowledgment consumed. */
  lemma InvFailed(cfg: Config, s: State, errors: multiset<Packet>, acks: multiset<Id>, aborts: multiset<Id>)
    requires Inv(cfg, s) && s.server.phase in {Ready, Waiting}
    requires (forall p | p in errors :: p.Error?) && acks <= s.toServer
    ensures Inv(cfg, State(s.server.(phase := Failed), s.client, s.toClient + errors, acks, aborts))
  {
  }

  lemma InvServerFails(cfg: Config, s: State, act: Act)
    requires Inv(cfg, s) && act != Send && Enabled(cfg, s, ByServer(act))
    requires act.Hear? ==> Judge(cfg.tid, BlockId(s.server.sent), act.reception) != Accept
    ensures Inv(cfg, Apply(cfg, s, ByServer(act)))
  {
    hide Inv, Block, Prefix, NumBlocks, BlockId;
    var t := Apply(cfg, s, ByServer(act));
    InvFailed(cfg, s, multiset(Sends(cfg.file, cfg.tid, s.server, act)), t.toServer, t.aborts);
  }

  /** The state after the client took the last block sent. */
  function TookLast(cfg: Config, s: State): State
    requires 1 <= s.server.sent <= NumBlocks(cfg.file)
  {
    var n := s.server.sent;
    State(s.server, Client(if n < NumBlocks(cfg.file) then Receiving else Complete, n, Prefix(cfg.file, n)),
          s.toClient - multiset{Data(BlockId(n), Block(cfg.file, n))}, s.toServer + multiset{BlockId(n)}, s.aborts)
  }

  lemma InventedTook(cfg: Config, s: State)
    requires NothingInvented(cfg, s) && 1 <= s.server.sent <= NumBlocks(cfg.file) && s.client.got + 1 == s.server.sent
    ensures NothingInvented(cfg, TookLast(cfg, s))
  {
    hide Block, BlockId, NumBlocks, Prefix, IsBlock;
    var n := s.server.sent;
    forall id | id in TookLast(cfg, s).toServer ensures exists m | 1 <= m <= n :: id == BlockId(m) {
      if id in s.toServer {
        var m :| 1 <= m <= s.client.got && id == BlockId(m);
      } else {
        assert id == BlockId(n);
      }
    }
  }

  lemma OneInFlightTook(cfg: Config, s: State)
    requires Agreement(cfg, s) && OneInFlight(cfg, s)
    requires s.client.got + 1 == s.server.sent && s.client.phase == Receiving
    ensures OneInFlight(cfg, TookLast(cfg, s))
  {
    hide Block, BlockId, NumBlocks, Prefix;
  }

  lemma AgreementTook(cfg: Config, s: State)
    requires Agreement(cfg, s) && s.client.got + 1 == s.server.sent && s.client.phase == Receiving
    ensures Agreement(cfg, TookLast(cfg, s))
  {
    hide Block, BlockId, NumBlocks, Prefix;
  }

  lemma TakesLast(cfg: Config, s: State, p: Packet)
    requires Agreement(cfg, s) && p in s.toClient && s.client.phase == Receiving
    requires s.client.got + 1 == s.server.sent && IsBlock(cfg, p, s.server.sent)
    ensures Apply(cfg, s, ClientHears(p)) == TookLast(cfg, s)
  {
    hide BlockId;
    BlockLength(cfg.file, s.server.sent);
    PrefixGrows(cfg.file, s.server.sent);
  }

  lemma InvClientTakes(cfg: Config, s: State, p: Packet)
    requires Covered(cfg) && Inv(cfg, s) && p in s.toClient
    requires s.client.phase == Receiving && p.Data? && p.id == BlockId(s.client.got + 1)
    ensures Inv(cfg, Apply(cfg, s, ClientHears(p)))
  {
    hide Agreement, NothingInvented, OneInFlight, BlockId, Block, Prefix;
    TakenIsNext(cfg, s, p);
    TakesLast(cfg, s, p);
    AgreementTook(cfg, s);
    InventedTook(cfg, s);
    if !cfg.duplicates && !cfg.retransmits {
      OneInFlightTook(cfg, s);
    }
  }

  /** A datagram less on its way to the client. */
  lemma InvOneLess(cfg: Config, s: State, p: Packet)
    requires Inv(cfg, s) && p in s.toClient
    ensures Inv(cfg, s.(toClient := s.toClient - multiset{p}))
  {
    hide Agreement, NothingInvented, OneInFlight;
    var t := s.(toClient := s.toClient - multiset{p});
    AgreementSame(cfg, s, t);
    InventedSame(cfg, s, t);
    if !cfg.duplicates && !cfg.retransmits {
      OneInFlightLess(cfg, s, t);
    }
  }

  lemma InvClientIgnores(cfg: Config, s: State, p: Packet)
    requires Inv(cfg, s) && p in s.toClient
    requires s.client.phase != Receiving || !p.Data? || p.id != BlockId(s.client.got + 1)
    ensures Inv(cfg, Apply(cfg, s, ClientHears(p)))
  {
    hide NothingInvented, OneInFlight, NumBlocks, Block, Prefix, BlockId;
    InvOneLess(cfg, s, p);
    var t := s.(toClient := s.toClient - multiset{p});
    assert Apply(cfg, s, ClientHears(p)) == ClientAfter(t, p);
    if s.client.phase == Receiving && p.Error? {
      InvAborted(cfg, t);
    }
  }

  lemma InvAborted(cfg: Config, s: State)
    requires Inv(cfg, s) && s.client.phase == Receiving
    ensures Inv(cfg, s.(client := s.client.(phase := Aborted)))
  {
  }

  /** An acknowledgment less on its way to the server. */
  lemma InvAckLost(cfg: Config, s: State, id: Id)
    requires Inv(cfg, s) && id in s.toServer
    ensures Inv(cfg, s.(toServer := s.toServer - multiset{id}))
  {
    hide Agreement, NothingInvented, OneInFlight;
    var t := s.(toServer := s.toServer - multiset{id});
    AgreementSame(cfg, s, t);
    InventedSame(cfg, s, t);
    if !cfg.duplicates && !cfg.retransmits {
      OneInFlightLess(cfg, s, t);
    }
  }

  lemma InventedSame(cfg: Config, s: State, t: State)
    requires NothingInvented(cfg, s) && t.server == s.server && t.client == s.client
    requires (forall p | p in t.toClient :: p in s.toClient) && forall id | id in t.toServer :: id in s.toServer
    ensures NothingInvented(cfg, t)
  {
    hide IsBlock, BlockId;
  }

  lemma OneInFlightLess(cfg: Config, s: State, t: State)
    requires OneInFlight(cfg, s) && t.server == s.server && t.client == s.client
    requires t.toClient <= s.toClient && t.toServer <= s.toServer
    ensures OneInFlight(cfg, t)
  {
    hide Block, BlockId, NumBlocks;
  }

  /** Copies, where they are made. */
  lemma InvCopied(cfg: Config, s: State, t: State)
    requires Inv(cfg, s) && (cfg.duplicates || cfg.retransmits) && t.server == s.server && t.client == s.client
    requires (forall p | p in t.toClient :: p in s.toClient)
    requires forall id | id in t.toServer :: id in s.toServer || (s.client.got > 0 && id == BlockId(s.client.got))
    ensures Inv(cfg, t)
  {
    hide Agreement, OneInFlight, IsBlock, Block, BlockId;
    AgreementSame(cfg, s, t);
  }

  lemma AgreementSame(cfg: Config, s: State, t: State)
    requires Agreement(cfg, s) && t.server == s.server && t.client == s.client
    requires forall p | p in t.toClient :: p in s.toClient
    ensures Agreement(cfg, t)
  {
    hide Prefix, NumBlocks;
  }

  /** The errors on their way to the server do not matter. */
  lemma InvAborts(cfg: Config, s: State, t: State)
    requires Inv(cfg, s) && t == s.(aborts := t.aborts)
    ensures Inv(cfg, t)
  {
    hide Block, BlockId, Prefix, NumBlocks, IsBlock;
  }

  lemma InvNetwork(cfg: Config, s: State, step: Step)
    requires Covered(cfg) && Inv(cfg, s) && Enabled(cfg, s, step)
    requires !step.ByServer? && !step.ClientHears?
    ensures Inv(cfg, Apply(cfg, s, step))
  {
    hide Inv, BlockId;
    if step.LoseToClient? {
      InvOneLess(cfg, s, step.packet);
    } else if step.LoseToServer? {
      InvAckLost(cfg, s, step.id);
    } else if step.LoseAbort? || step.RepeatAbort? {
      InvAborts(cfg, s, Apply(cfg, s, step));
    } else if step.ClientAborts? {
      InvAborts(cfg, s, s.(aborts := s.aborts + multiset{step.code}));
      InvAborted(cfg, s.(aborts := s.aborts + multiset{step.code}));
    } else {
      InvCopied(cfg, s, Apply(cfg, s, step));
    }
  }

  lemma {:induction false} InvPlay(cfg: Config, steps: seq<Step>)
    requires Covered(cfg) && Play(SystemOf(cfg), steps).Some?
    ensures Inv(cfg, Play(SystemOf(cfg), steps).value)
    decreases |steps|
  {
    hide Inv, Play, Enabled, Apply;
    if steps == [] {
      InvStart(cfg);
    } else {
      var before, step, s, t := LastStep(SystemOf(cfg), ActOf, steps);
      InvPlay(cfg, before);
      InvStep(cfg, s, step);
    }
  }

  lemma InvStart(cfg: Config)
    ensures Inv(cfg, INITIAL) && Play(SystemOf(cfg), []) == Some(INITIAL)
  {
    PrefixAll(cfg.file);
  }

  lemma InvStep(cfg: Config, s: State, step: Step)
    requires Covered(cfg) && Inv(cfg, s) && Enabled(cfg, s, step)
    ensures Inv(cfg, Apply(cfg, s, step))
  {
    match step
    case ByServer(act) =>
      if act == Send {
        InvServerSends(cfg, s);
      } else if act.Hear? && Judge(cfg.tid, BlockId(s.server.sent), act.reception) == Accept {
        InvServerAccepts(cfg, s, act);
      } else {
        InvServerFails(cfg, s, act);
      }
    case ClientHears(p) =>
      if s.client.phase == Receiving && p.Data? && p.id == BlockId(s.client.got + 1) {
        InvClientTakes(cfg, s, p);
      } else {
        InvClientIgnores(cfg, s, p);
      }
    case _ => InvNetwork(cfg, s, step);
  }

  lemma InvReachable(cfg: Config, s: State)
    requires Covered(cfg) && Reachable(SystemOf(cfg), s)
    ensures Inv(cfg, s)
  {
    var steps: seq<Step> :| LeadsTo(SystemOf(cfg), steps, s);
    InvPlay(cfg, steps);
  }

  /** Over a network that does not duplicate, with a client that answers each block once, at most
      one block or acknowledgment is in flight; an error is sent only as the server leaves. */
  lemma AtMostOneInFlight(cfg: Config, s: State)
    requires !cfg.duplicates && !cfg.retransmits && Reachable(SystemOf(cfg), s)
    ensures forall p, q | p in s.toClient && q in s.toClient && p.Data? && q.Data? :: p == q && s.toClient[p] == 1
    ensures |s.toServer| <= 1
    ensures (exists p :: p in s.toClient && p.Data?) ==> s.toServer == multiset{}
    ensures (exists p :: p in s.toClient && p.Error?) ==> s.server.phase == Failed
  {
    InvReachable(cfg, s);
    assert forall p | p in s.toClient :: p.Data? || p.Error?;
    assert s.toServer <= multiset{BlockId(s.server.sent)};
    AtMostOne(s.toServer, BlockId(s.server.sent));
  }

  lemma AtMostOne(ids: multiset<Id>, id: Id)
    requires ids <= multiset{id}
    ensures |ids| <= 1
  {
    if ids != multiset{} {
      var a :| a in ids;
      assert ids == multiset{id};
    }
  }

  // ---------------------------------------------------------------- the run that breaks longer transfers

  /** k blocks delivered in lock step, with these acknowledgments still on their way. */
  function InStep(cfg: Config, k: nat, acks: multiset<Id>): State {
    State(Server(Ready, k), Client(Receiving, k, Prefix(cfg.file, k)), multiset{}, acks, multiset{})
  }

  function Sent(cfg: Config, k: nat, acks: multiset<Id>): State
    requires k < NumBlocks(cfg.file)
  {
    InStep(cfg, k, acks).(server := Server(Waiting, k + 1),
                          toClient := multiset{Data(BlockId(k + 1), Block(cfg.file, k + 1))})
  }

  lemma StartReached(cfg: Config)
    ensures Reachable(SystemOf(cfg), InStep(cfg, 0, multiset{}))
  {
    StartReachable(SystemOf(cfg));
    PrefixAll(cfg.file);
  }

  lemma BlockSent(cfg: Config, k: nat, acks: multiset<Id>)
    requires k < NumBlocks(cfg.file) && Reachable(SystemOf(cfg), InStep(cfg, k, acks))
    ensures Reachable(SystemOf(cfg), Sent(cfg, k, acks))
  {
    hide Reachable;
    Steps(cfg, InStep(cfg, k, acks), ByServer(Send));
    assert Apply(cfg, InStep(cfg, k, acks), ByServer(Send)) == Sent(cfg, k, acks);
  }

  function Answered(cfg: Config, k: nat, acks: multiset<Id>): State {
    InStep(cfg, k, acks + multiset{BlockId(k)}).(server := Server(Waiting, k))
  }

  lemma Answers(cfg: Config, k: nat, acks: multiset<Id>)
    requires k + 1 < NumBlocks(cfg.file) && Reachable(SystemOf(cfg), Sent(cfg, k, acks))
    ensures Reachable(SystemOf(cfg), Answered(cfg, k + 1, acks))
  {
    hide Reachable;
    var p := Data(BlockId(k + 1), Block(cfg.file, k + 1));
    BlockLength(cfg.file, k + 1);
    PrefixGrows(cfg.file, k + 1);
    var s := Sent(cfg, k, acks);
    var t := s.(toClient := multiset{});
    assert s.toClient - multiset{p} == multiset{};
    assert Apply(cfg, s, ClientHears(p)) == ClientAfter(t, p);
    assert ClientAfter(t, p) == Answered(cfg, k + 1, acks);
    Steps(cfg, s, ClientHears(p));
  }

  /** An acknowledgment with the awaited id lets the server go on, whichever block it was for. */
  lemma Accepts(cfg: Config, s: State, id: Id)
    requires Reachable(SystemOf(cfg), s) && s.server.phase == Waiting && 1 <= s.server.sent <= NumBlocks(cfg.file)
    requires id in s.toServer && id == BlockId(s.server.sent)
    ensures Reachable(SystemOf(cfg), s.(
              server := Server(if s.server.sent < NumBlocks(cfg.file) then Ready else Done, s.server.sent),
              toServer := s.toServer - multiset{id}))
  {
    hide Reachable;
    BlockLength(cfg.file, s.server.sent);
    assert s.toClient + multiset([]) == s.toClient;
    Steps(cfg, s, ByServer(Hear(Datagram(cfg.tid, OPCODE_ACK, id, []), true)));
  }

  lemma Acknowledged(cfg: Config, k: nat, acks: multiset<Id>)
    requires 1 <= k < NumBlocks(cfg.file) && Reachable(SystemOf(cfg), Answered(cfg, k, acks))
    ensures Reachable(SystemOf(cfg), InStep(cfg, k, acks))
  {
    hide Reachable;
    var s := Answered(cfg, k, acks);
    assert s.toServer - multiset{BlockId(k)} == acks;
    Accepts(cfg, s, BlockId(k));
  }

  /** The copy is made by the network or by the client. */
  lemma Copied(cfg: Config, k: nat, acks: multiset<Id>)
    requires cfg.duplicates || cfg.retransmits
    requires 1 <= k && Reachable(SystemOf(cfg), Answered(cfg, k, acks))
    ensures Reachable(SystemOf(cfg), Answered(cfg, k, acks + multiset{BlockId(k)}))
  {
    hide Reachable;
    var s := Answered(cfg, k, acks);
    var t := Answered(cfg, k, acks + multiset{BlockId(k)});
    var copy := if cfg.duplicates then RepeatToServer(BlockId(k)) else ClientRetransmits;
    assert Apply(cfg, s, copy) == t;
    Steps(cfg, s, copy);
  }

  /** One block delivered in lock step; on request, its acknowledgment is left behind in a copy. */
  lemma Round(cfg: Config, k: nat, acks: multiset<Id>, copy: bool)
    requires k + 1 < NumBlocks(cfg.file) && Reachable(SystemOf(cfg), InStep(cfg, k, acks))
    requires copy ==> cfg.duplicates || cfg.retransmits
    ensures Reachable(SystemOf(cfg), InStep(cfg, k + 1, if copy then acks + multiset{BlockId(k + 1)} else acks))
  {
    hide Reachable;
    BlockSent(cfg, k, acks);
    Answers(cfg, k, acks);
    if copy {
      Copied(cfg, k + 1, acks);
      Acknowledged(cfg, k + 1, acks + multiset{BlockId(k + 1)});
    } else {
      Acknowledged(cfg, k + 1, acks);
    }
  }

  lemma {:induction false} LaggingReached(cfg: Config, k: nat)
    requires cfg.duplicates || cfg.retransmits
    requires k + 1 < NumBlocks(cfg.file)
    ensures Reachable(SystemOf(cfg), InStep(cfg, k + 1, multiset{BlockId(1)}))
  {
    hide Reachable;
    if k == 0 {
      StartReached(cfg);
      Round(cfg, k, multiset{}, true);
      assert multiset{} + multiset{BlockId(k + 1)} == multiset{BlockId(1)};
    } else {
      LaggingReached(cfg, k - 1);
      Round(cfg, k, multiset{BlockId(1)}, false);
    }
  }

  /** Once ids wrap, the stray copy acknowledges block 65537 before the client has seen it. */
  lemma StaleAckAccepted(cfg: Config) returns (s: State)
    requires cfg.duplicates || cfg.retransmits
    requires NumBlocks(cfg.file) > ID_SPACE
    ensures Reachable(SystemOf(cfg), s) && !Exact(cfg, s)
  {
    hide Reachable;
    LaggingReached(cfg, ID_SPACE - 1);
    BlockSent(cfg, ID_SPACE, multiset{BlockId(1)});
    s := Sent(cfg, ID_SPACE, multiset{BlockId(1)});
    Accepts(cfg, s, 1);
    s := s.(server := Server(if s.server.sent < NumBlocks(cfg.file) then Ready else Done, s.server.sent),
            toServer := s.toServer - multiset{1});
    if s.server.phase == Ready {
      Steps(cfg, s, ByServer(Send));
      s := Apply(cfg, s, ByServer(Send));
    }
  }

  lemma {:induction false} InStepReached(cfg: Config, k: nat)
    requires k < NumBlocks(cfg.file)
    ensures Reachable(SystemOf(cfg), InStep(cfg, k, multiset{}))
  {
    hide Reachable;
    if k == 0 {
      StartReached(cfg);
    } else {
      InStepReached(cfg, k - 1);
      Round(cfg, k - 1, multiset{}, false);
    }
  }

  /** Whatever the file and the network, some run delivers all of it and the server returns true. */
  lemma TransferCanComplete(cfg: Config) returns (s: State)
    ensures Reachable(SystemOf(cfg), s) && s.server.phase == Done
    ensures s.client == Client(Complete, NumBlocks(cfg.file), cfg.file)
  {
    hide Reachable;
    var k := NumBlocks(cfg.file) - 1;
    InStepReached(cfg, k);
    BlockSent(cfg, k, multiset{});
    s := Sent(cfg, k, multiset{});
    var p := Data(BlockId(k + 1), Block(cfg.file, k + 1));
    BlockLength(cfg.file, k + 1);
    PrefixGrows(cfg.file, k + 1);
    PrefixAll(cfg.file);
    var t := ClientAfter(s.(toClient := s.toClient - multiset{p}), p);
    assert Apply(cfg, s, ClientHears(p)) == t;
    Steps(cfg, s, ClientHears(p));
    Accepts(cfg, t, p.id);
    s := t.(server := Server(Done, k + 1), toServer := t.toServer - multiset{p.id});
  }

  /** Main result: which read transfers are exact in every run. */
  lemma ReadExactIff(cfg: Config)
    ensures ReadExact(cfg)
       <==> NumBlocks(cfg.file) <= ID_SPACE || (!cfg.duplicates && !cfg.retransmits)
  {
    if Covered(cfg) {
      forall s | Reachable(SystemOf(cfg), s) ensures Exact(cfg, s) {
        InvReachable(cfg, s);
        PrefixAll(cfg.file);
      }
    } else {
      var s := StaleAckAccepted(cfg);
    }
  }

  /** What the result of a server run means for the client, whatever else happened around it. */
  lemma ServerRunDelivers(cfg: Config, steps: seq<Step>, run: ServerRun)
    requires Covered(cfg) && Play(SystemOf(cfg), steps).Some?
    requires RunServer(cfg.file, cfg.tid, Side(ActOf, steps)) == Some(run)
    ensures var client := Play(SystemOf(cfg), steps).value.client;
            && client.data == Prefix(cfg.file, client.got) && client.got <= run.server.sent <= client.got + 1
            && (run.server.phase == Done ==> client.data == cfg.file)
  {
    ServerSideRuns(cfg, steps);
    assert LeadsTo(SystemOf(cfg), steps, Play(SystemOf(cfg), steps).value);
    ReadExactIff(cfg);
    assert Exact(cfg, Play(SystemOf(cfg), steps).value);
  }

  // ---------------------------------------------------------------- which server runs are played

  /** One of the first n blocks has this id. */
  ghost predicate IsIdOfBlock(n: nat, id: Id) {
    exists m | 1 <= m <= n :: id == BlockId(m)
  }

  /** What can come from the client when the server has sent n blocks: an error, or an acknowledgment
      of the last one, or of any one if there may be copies. */
  ghost predicate MayCome(cfg: Config, n: nat, r: Reception) {
    && r.Datagram?
    && if r.opcode == OPCODE_ERROR then true else r.opcode == OPCODE_ACK && MayBeAnswer(cfg, n, r.id)
  }

  ghost predicate MayBeAnswer(cfg: Config, n: nat, id: Id) {
    if cfg.duplicates || cfg.retransmits then IsIdOfBlock(n, id) else id == BlockId(n)
  }

  ghost predicate IsPlausible(cfg: Config, acts: seq<Act>) {
    acts != [] ==>
      && IsPlausible(cfg, acts[..|acts| - 1])
      && IsPlausibleAfter(cfg, RunServer(cfg.file, cfg.tid, acts[..|acts| - 1]), acts[|acts| - 1])
  }

  ghost predicate IsPlausibleAfter(cfg: Config, before: Option<ServerRun>, act: Act) {
    before.Some? && IsFromClient(cfg, act) ==> MayCome(cfg, before.value.server.sent, act.reception)
  }

  lemma IsPlausibleOn(cfg: Config, acts: seq<Act>, act: Act)
    ensures IsPlausible(cfg, acts + [act])
       <==> IsPlausible(cfg, acts) && IsPlausibleAfter(cfg, RunServer(cfg.file, cfg.tid, acts), act)
    ensures IsPlausible(cfg, [])
  {
    assert (acts + [act])[..|acts|] == acts;
  }

  /** Every id in flight is that of a block sent. */
  ghost predicate IdsAreSent(s: State) {
    && (forall p | p in s.toClient && p.Data? :: IsIdOfBlock(s.server.sent, p.id))
    && (forall id | id in s.toServer :: IsIdOfBlock(s.server.sent, id))
    && (s.client.got > 0 ==> IsIdOfBlock(s.server.sent, BlockId(s.client.got)))
  }

  lemma IdOfNextBlock(n: nat)
    ensures IsIdOfBlock(n + 1, BlockId(n + 1)) && forall id | IsIdOfBlock(n, id) :: IsIdOfBlock(n + 1, id)
  {
  }

  lemma IdsAreSentSend(cfg: Config, s: State)
    requires IdsAreSent(s) && Enabled(cfg, s, ByServer(Send))
    ensures IdsAreSent(Apply(cfg, s, ByServer(Send)))
  {
    hide IsIdOfBlock, BlockId, Block;
    IdOfNextBlock(s.server.sent);
  }

  lemma IdsAreSentLess(s: State, t: State)
    requires IdsAreSent(s) && t.server.sent == s.server.sent && t.client == s.client
    requires forall p | p in t.toClient && p.Data? :: p in s.toClient
    requires forall id | id in t.toServer :: id in s.toServer
    ensures IdsAreSent(t)
  {
    hide IsIdOfBlock, BlockId;
  }

  lemma IdsAreSentAct(cfg: Config, s: State, act: Act)
    requires IdsAreSent(s) && Enabled(cfg, s, ByServer(act)) && act != Send
    ensures IdsAreSent(Apply(cfg, s, ByServer(act)))
  {
    hide IdsAreSent, BlockId, Block, NumBlocks;
    assert forall p | p in Sends(cfg.file, cfg.tid, s.server, act) :: p.Error?;
    IdsAreSentLess(s, Apply(cfg, s, ByServer(act)));
  }

  lemma IdsAreSentIgnored(cfg: Config, s: State, p: Packet)
    requires IdsAreSent(s) && p in s.toClient
    requires s.client.phase != Receiving || !p.Data? || p.id != BlockId(s.client.got + 1)
    ensures IdsAreSent(Apply(cfg, s, ClientHears(p)))
  {
    hide IsIdOfBlock, BlockId, Block;
    var t := Apply(cfg, s, ClientHears(p));
    assert t.toClient == s.toClient - multiset{p} && t.toServer == s.toServer && t.client.got == s.client.got;
  }

  lemma IdsAreSentHear(cfg: Config, s: State, p: Packet)
    requires IdsAreSent(s) && p in s.toClient
    ensures IdsAreSent(Apply(cfg, s, ClientHears(p)))
  {
    hide IsIdOfBlock, BlockId, Block;
    if s.client.phase == Receiving && p.Data? && p.id == BlockId(s.client.got + 1) {
      assert IsIdOfBlock(s.server.sent, p.id);
    } else {
      IdsAreSentIgnored(cfg, s, p);
    }
  }

  lemma IdsAreSentStep(cfg: Config, s: State, step: Step)
    requires IdsAreSent(s) && Enabled(cfg, s, step)
    ensures IdsAreSent(Apply(cfg, s, step))
  {
    hide IsIdOfBlock, BlockId, CanAct, ServerAfter, Sends, ClientAfter;
    if step == ByServer(Send) {
      IdsAreSentSend(cfg, s);
    } else if step.ByServer? {
      IdsAreSentAct(cfg, s, step.act);
    } else if step.ClientHears? {
      IdsAreSentHear(cfg, s, step.packet);
    }
  }

  lemma {:induction false} IdsAreSentPlay(cfg: Config, steps: seq<Step>)
    requires Play(SystemOf(cfg), steps).Some?
    ensures IdsAreSent(Play(SystemOf(cfg), steps).value)
    decreases |steps|
  {
    hide IdsAreSent, Play, Enabled, Apply;
    if steps == [] {
      IdsAreSentStart(cfg);
    } else {
      var before, step, s, t := LastStep(SystemOf(cfg), ActOf, steps);
      IdsAreSentPlay(cfg, before);
      IdsAreSentStep(cfg, s, step);
    }
  }

  lemma IdsAreSentStart(cfg: Config)
    ensures IdsAreSent(INITIAL) && Play(SystemOf(cfg), []) == Some(INITIAL)
  {
  }

  /** What the server hears from the client in any run may come. */
  lemma HeardMayCome(cfg: Config, s: State, act: Act)
    requires IdsAreSent(s) && (Covered(cfg) ==> Inv(cfg, s))
    requires IsFromClient(cfg, act) && Enabled(cfg, s, ByServer(act))
    ensures MayCome(cfg, s.server.sent, act.reception)
  {
  }

  lemma {:induction false} PlayedIsPlausible(cfg: Config, steps: seq<Step>)
    requires Play(SystemOf(cfg), steps).Some?
    ensures IsPlausible(cfg, Side(ActOf, steps))
    decreases |steps|
  {
    hide IsPlausible, IdsAreSent, Inv, Play, Side, RunServer, MayCome, CanAct, Apply;
    if steps == [] {
      NoActs(cfg);
      IsPlausibleOn(cfg, [], GiveUp);
    } else {
      var before, step, s, t := LastStep(SystemOf(cfg), ActOf, steps);
      PlayedIsPlausible(cfg, before);
      var acts := Side(ActOf, before);
      if step.ByServer? {
        ServerSideRuns(cfg, before);
        IsPlausibleOn(cfg, acts, step.act);
        if IsFromClient(cfg, step.act) {
          IdsAreSentPlay(cfg, before);
          if Covered(cfg) {
            InvPlay(cfg, before);
          }
          HeardMayCome(cfg, s, step.act);
        }
      } else {
        assert acts + [] == acts;
      }
    }
  }

  /** If there may be copies, one of each acknowledgment was left behind. */
  ghost predicate IsSpare(cfg: Config, n: nat, acks: multiset<Id>) {
    if cfg.duplicates || cfg.retransmits then forall m | 1 <= m <= n :: BlockId(m) in acks else acks == multiset{}
  }

  /** The state of a transfer in lock step, told from its server and what was left behind. */
  ghost predicate InLockStep(cfg: Config, s: State) {
    var n := s.server.sent;
    match s.server.phase
    case Ready => n < NumBlocks(cfg.file) && s == InStep(cfg, n, s.toServer) && IsSpare(cfg, n, s.toServer)
    case Waiting =>
      1 <= n <= NumBlocks(cfg.file) && s == Sent(cfg, n - 1, s.toServer) && IsSpare(cfg, n - 1, s.toServer)
    case _ => true
  }

  lemma SendPlayed(cfg: Config, acts: seq<Act>, s: State) returns (t: State)
    requires IsPlayed(SystemOf(cfg), ActOf, acts, s) && InLockStep(cfg, s) && CanAct(cfg.file, s.server, Send)
    ensures IsPlayed(SystemOf(cfg), ActOf, acts + [Send], t) && InLockStep(cfg, t)
    ensures t.server == ServerAfter(cfg.file, cfg.tid, s.server, Send)
  {
    hide IsPlayed, IsSpare, Block, BlockId;
    t := Apply(cfg, s, ByServer(Send));
    assert t == Sent(cfg, s.server.sent, s.toServer);
    ServerPlays(cfg, acts, s, Send);
  }

  /** An act that ends the server and hears nothing from the client. */
  lemma FailurePlayed(cfg: Config, acts: seq<Act>, s: State, act: Act) returns (t: State)
    requires IsPlayed(SystemOf(cfg), ActOf, acts, s) && CanAct(cfg.file, s.server, act)
    requires act != Send && !IsFromClient(cfg, act)
    ensures IsPlayed(SystemOf(cfg), ActOf, acts + [act], t) && InLockStep(cfg, t)
    ensures t.server == ServerAfter(cfg.file, cfg.tid, s.server, act)
  {
    hide IsPlayed;
    t := Apply(cfg, s, ByServer(act));
    ServerPlays(cfg, acts, s, act);
  }

  /** The client has taken the n-th block and these acknowledgments are on their way. */
  function Taken(cfg: Config, n: nat, acks: multiset<Id>): State {
    State(Server(Waiting, n), Client(if n < NumBlocks(cfg.file) then Receiving else Complete, n, Prefix(cfg.file, n)),
          multiset{}, acks, multiset{})
  }

  /** The client takes the block in flight and acknowledges it. */
  lemma TakenPlayed(cfg: Config, acts: seq<Act>, n: nat, acks: multiset<Id>)
    requires 1 <= n <= NumBlocks(cfg.file) && IsPlayed(SystemOf(cfg), ActOf, acts, Sent(cfg, n - 1, acks))
    ensures IsPlayed(SystemOf(cfg), ActOf, acts, Taken(cfg, n, acks + multiset{BlockId(n)}))
  {
    hide IsPlayed;
    var s, p := Sent(cfg, n - 1, acks), Data(BlockId(n), Block(cfg.file, n));
    BlockLength(cfg.file, n);
    PrefixGrows(cfg.file, n);
    assert s.toClient - multiset{p} == multiset{};
    assert Apply(cfg, s, ClientHears(p)) == Taken(cfg, n, acks + multiset{BlockId(n)});
    OthersPlay(cfg, acts, s, ClientHears(p));
  }

  /** A copy of that acknowledgment is made by the network or by the client. */
  lemma CopyPlayed(cfg: Config, acts: seq<Act>, n: nat, acks: multiset<Id>)
    requires cfg.duplicates || cfg.retransmits
    requires 1 <= n && BlockId(n) in acks && IsPlayed(SystemOf(cfg), ActOf, acts, Taken(cfg, n, acks))
    ensures IsPlayed(SystemOf(cfg), ActOf, acts, Taken(cfg, n, acks + multiset{BlockId(n)}))
  {
    hide IsPlayed, Prefix;
    var s, t := Taken(cfg, n, acks), Taken(cfg, n, acks + multiset{BlockId(n)});
    var copy := if cfg.duplicates then RepeatToServer(BlockId(n)) else ClientRetransmits;
    assert Apply(cfg, s, copy) == t;
    OthersPlay(cfg, acts, s, copy);
  }

  /** The server hears one of the acknowledgments on their way. */
  lemma AckPlayed(cfg: Config, acts: seq<Act>, n: nat, acks: multiset<Id>, act: Act) returns (t: State)
    requires 1 <= n <= NumBlocks(cfg.file) && IsPlayed(SystemOf(cfg), ActOf, acts, Taken(cfg, n, acks))
    requires IsFromClient(cfg, act) && act.reception.opcode == OPCODE_ACK && act.reception.id in acks
    requires IsSpare(cfg, n, acks - multiset{BlockId(n)})
    ensures IsPlayed(SystemOf(cfg), ActOf, acts + [act], t) && InLockStep(cfg, t)
    ensures t.server == ServerAfter(cfg.file, cfg.tid, Server(Waiting, n), act)
  {
    hide IsPlayed, IsSpare, Prefix, Block, BlockId, NumBlocks, Apply, ServerAfter, Taken;
    AckHeardInStep(cfg, n, acks, act);
    ServerPlays(cfg, acts, Taken(cfg, n, acks), act);
    t := Apply(cfg, Taken(cfg, n, acks), ByServer(act));
  }

  lemma AckHeardInStep(cfg: Config, n: nat, acks: multiset<Id>, act: Act)
    requires 1 <= n <= NumBlocks(cfg.file) && IsFromClient(cfg, act)
    requires act.reception.opcode == OPCODE_ACK && act.reception.id in acks
    requires IsSpare(cfg, n, acks - multiset{BlockId(n)})
    ensures var s := Taken(cfg, n, acks);
            && Enabled(cfg, s, ByServer(act)) && InLockStep(cfg, Apply(cfg, s, ByServer(act)))
            && Apply(cfg, s, ByServer(act)).server == ServerAfter(cfg.file, cfg.tid, Server(Waiting, n), act)
  {
    hide IsSpare, Prefix, Block, BlockId, NumBlocks, InLockStep, Sends, ServerAfter, Apply;
    HeardState(cfg, n, acks, act);
    HeardServer(cfg, n, act);
    if Judge(cfg.tid, BlockId(n), act.reception) == Accept {
      TakenInStep(cfg, n, acks - multiset{BlockId(n)});
    } else {
      FailedInStep(cfg, Apply(cfg, Taken(cfg, n, acks), ByServer(act)));
    }
  }

  lemma HeardState(cfg: Config, n: nat, acks: multiset<Id>, act: Act)
    requires 1 <= n <= NumBlocks(cfg.file) && IsFromClient(cfg, act)
    requires act.reception.opcode == OPCODE_ACK && act.reception.id in acks
    ensures var s, server := Taken(cfg, n, acks), Server(Waiting, n);
            && Enabled(cfg, s, ByServer(act))
            && Apply(cfg, s, ByServer(act))
               == s.(server := ServerAfter(cfg.file, cfg.tid, server, act),
                     toServer := acks - multiset{act.reception.id},
                     toClient := multiset{} + multiset(Sends(cfg.file, cfg.tid, server, act)))
  {
    hide Prefix, Block, BlockId, NumBlocks, Sends, ServerAfter;
  }

  lemma HeardServer(cfg: Config, n: nat, act: Act)
    requires 1 <= n <= NumBlocks(cfg.file) && IsFromClient(cfg, act) && act.reception.opcode == OPCODE_ACK
    ensures var server := ServerAfter(cfg.file, cfg.tid, Server(Waiting, n), act);
            if Judge(cfg.tid, BlockId(n), act.reception) == Accept
            then && server == Server(if n < NumBlocks(cfg.file) then Ready else Done, n)
                 && act.reception.id == BlockId(n)
                 && multiset{} + multiset(Sends(cfg.file, cfg.tid, Server(Waiting, n), act)) == multiset{}
            else server.phase == Failed
  {
    hide BlockId, NumBlocks, Block;
    BlockLength(cfg.file, n);
  }

  lemma TakenInStep(cfg: Config, n: nat, acks: multiset<Id>)
    requires 1 <= n <= NumBlocks(cfg.file) && IsSpare(cfg, n, acks)
    ensures InLockStep(cfg, Taken(cfg, n, acks).(server := Server(if n < NumBlocks(cfg.file) then Ready else Done, n)))
  {
    hide IsSpare, Prefix, BlockId, NumBlocks;
  }

  lemma FailedInStep(cfg: Config, s: State)
    requires s.server.phase == Failed
    ensures InLockStep(cfg, s)
  {
  }

  /** What is on its way when the client has answered the n-th block, and copied its answer if it can. */
  function AnswersFor(cfg: Config, n: nat, acks: multiset<Id>): multiset<Id> {
    acks + multiset{BlockId(n)} + if cfg.duplicates || cfg.retransmits then multiset{BlockId(n)} else multiset{}
  }

  lemma AnswersPlayed(cfg: Config, acts: seq<Act>, n: nat, acks: multiset<Id>)
    requires 1 <= n <= NumBlocks(cfg.file) && IsPlayed(SystemOf(cfg), ActOf, acts, Sent(cfg, n - 1, acks))
    ensures IsPlayed(SystemOf(cfg), ActOf, acts, Taken(cfg, n, AnswersFor(cfg, n, acks)))
  {
    hide IsPlayed, Sent, Taken, BlockId, NumBlocks;
    TakenPlayed(cfg, acts, n, acks);
    if cfg.duplicates || cfg.retransmits {
      CopyPlayed(cfg, acts, n, acks + multiset{BlockId(n)});
    } else {
      assert AnswersFor(cfg, n, acks) == acks + multiset{BlockId(n)};
    }
  }

  lemma AnswersServe(cfg: Config, n: nat, acks: multiset<Id>, id: Id)
    requires 1 <= n && IsSpare(cfg, n - 1, acks) && MayBeAnswer(cfg, n, id)
    ensures id in AnswersFor(cfg, n, acks) && IsSpare(cfg, n, AnswersFor(cfg, n, acks) - multiset{BlockId(n)})
  {
    hide BlockId;
    if !cfg.duplicates && !cfg.retransmits {
      assert AnswersFor(cfg, n, acks) - multiset{BlockId(n)} == multiset{};
    }
  }

  lemma AnswerPlayed(cfg: Config, acts: seq<Act>, s: State, act: Act) returns (t: State)
    requires IsPlayed(SystemOf(cfg), ActOf, acts, s) && InLockStep(cfg, s) && CanAct(cfg.file, s.server, act)
    requires IsFromClient(cfg, act) && act.reception.opcode == OPCODE_ACK
    requires MayBeAnswer(cfg, s.server.sent, act.reception.id)
    ensures IsPlayed(SystemOf(cfg), ActOf, acts + [act], t) && InLockStep(cfg, t)
    ensures t.server == ServerAfter(cfg.file, cfg.tid, s.server, act)
  {
    hide IsPlayed, MayBeAnswer, BlockId, InLockStep, Sent, Taken, ServerAfter, IsSpare, AnswersFor, NumBlocks;
    var n, acks := s.server.sent, s.toServer;
    LockStepWaits(cfg, s);
    AnswersPlayed(cfg, acts, n, acks);
    AnswersServe(cfg, n, acks, act.reception.id);
    t := AckPlayed(cfg, acts, n, AnswersFor(cfg, n, acks), act);
  }

  /** The client gives up, and the server hears that instead of an answer. */
  lemma AbortPlayed(cfg: Config, acts: seq<Act>, s: State, act: Act) returns (t: State)
    requires IsPlayed(SystemOf(cfg), ActOf, acts, s) && InLockStep(cfg, s) && CanAct(cfg.file, s.server, act)
    requires IsFromClient(cfg, act) && act.reception.opcode == OPCODE_ERROR
    ensures IsPlayed(SystemOf(cfg), ActOf, acts + [act], t) && InLockStep(cfg, t)
    ensures t.server == ServerAfter(cfg.file, cfg.tid, s.server, act)
  {
    hide IsPlayed, Block, BlockId, NumBlocks, InLockStep;
    var code := act.reception.id;
    LockStepWaits(cfg, s);
    var u := Apply(cfg, s, ClientAborts(code));
    OthersPlay(cfg, acts, s, ClientAborts(code));
    t := Apply(cfg, u, ByServer(act));
    ServerPlays(cfg, acts, u, act);
    FailedInStep(cfg, t);
  }

  lemma LockStepWaits(cfg: Config, s: State)
    requires InLockStep(cfg, s) && s.server.phase == Waiting
    ensures 1 <= s.server.sent <= NumBlocks(cfg.file) && s.server == Server(Waiting, s.server.sent)
    ensures s == Sent(cfg, s.server.sent - 1, s.toServer) && IsSpare(cfg, s.server.sent - 1, s.toServer)
  {
  }

  lemma {:induction false} PlausibleIsPlayed(cfg: Config, acts: seq<Act>) returns (t: State)
    requires RunServer(cfg.file, cfg.tid, acts).Some? && IsPlausible(cfg, acts)
    ensures IsPlayed(SystemOf(cfg), ActOf, acts, t) && t.server == RunServer(cfg.file, cfg.tid, acts).value.server
    ensures InLockStep(cfg, t)
    decreases |acts|
  {
    hide IsPlayed, InLockStep, CanAct, ServerAfter, Judge, IsPlausible, MayCome, Play;
    if acts == [] {
      t := InStep(cfg, 0, multiset{});
      StartInLockStep(cfg);
      NoActs(cfg);
    } else {
      var before, act, run, run' := LastStep(ServerOf(cfg.file, cfg.tid), (a: Act) => Some(a), acts);
      IsPlausibleOn(cfg, before, act);
      var s := PlausibleIsPlayed(cfg, before);
      if act == Send {
        t := SendPlayed(cfg, before, s);
      } else if IsFromClient(cfg, act) && act.reception.opcode == OPCODE_ERROR {
        t := AbortPlayed(cfg, before, s, act);
      } else if IsFromClient(cfg, act) {
        AnswerMayCome(cfg, run.server.sent, act.reception);
        t := AnswerPlayed(cfg, before, s, act);
      } else {
        t := FailurePlayed(cfg, before, s, act);
      }
    }
  }

  lemma AnswerMayCome(cfg: Config, n: nat, r: Reception)
    requires MayCome(cfg, n, r) && r.opcode != OPCODE_ERROR
    ensures r.opcode == OPCODE_ACK && MayBeAnswer(cfg, n, r.id)
  {
  }

  lemma StartInLockStep(cfg: Config)
    ensures IsPlayed(SystemOf(cfg), ActOf, [], InStep(cfg, 0, multiset{}))
    ensures InLockStep(cfg, InStep(cfg, 0, multiset{}))
  {
    PrefixAll(cfg.file);
    StartPlayed(SystemOf(cfg), ActOf);
  }

  /** Which sequences of acts the server can go through in a whole system: the runs of the server in
      which what is heard from the client may come. */
  lemma PlayedIff(cfg: Config, acts: seq<Act>)
    ensures (exists s :: IsPlayed(SystemOf(cfg), ActOf, acts, s))
       <==> RunServer(cfg.file, cfg.tid, acts).Some? && IsPlausible(cfg, acts)
  {
    if s :| IsPlayed(SystemOf(cfg), ActOf, acts, s) {
      var steps: seq<Step> :| PlaysOut(SystemOf(cfg), ActOf, steps, acts, s);
      ServerSideRuns(cfg, steps);
      PlayedIsPlausible(cfg, steps);
    }
    if RunServer(cfg.file, cfg.tid, acts).Some? && IsPlausible(cfg, acts) {
      var t := PlausibleIsPlayed(cfg, acts);
    }
  }
}
