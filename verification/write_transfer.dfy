/** A write transfer as a step relation: the server of tftpd.c never looks at the block id of what
    it receives, so exactness rests on the network and on the client. */
module WriteTransfer {
  import opened Runs
  import opened Tftp
  import opened Wrappers

  /** retransmits: the client may repeat its latest block while it waits. */
  datatype Config = Config(source: Bytes, tid: Id, duplicates: bool, retransmits: bool)

  /** Created: the file exists, the opening acknowledgment is not sent yet. Abandoned: it could
      not be sent. Failed: the handler returned false without leaving a file of its own. */
  datatype Phase = Starting | Created | Receiving | Done | Failed | Abandoned

  /** file: the file this session created, while it exists; taken: the blocks acknowledged. */
  datatype Server = Server(phase: Phase, file: Option<Bytes>, taken: nat)

  datatype ClientPhase = Awaiting | Complete | Aborted
  datatype Client = Client(phase: ClientPhase, sent: nat)

  /** toServer: the blocks on their way; aborts: the codes of the errors with which the client gave up. */
  datatype State = State(server: Server, client: Client, toClient: multiset<Packet>, toServer: multiset<Packet>,
                         aborts: multiset<Id>)

  // ---------------------------------------------------------------- the server alone

  /** How the server fares with a block it accepted: write() falls short, the acknowledgment
      cannot be sent, or both succeed. */
  datatype Fate = WriteFails(full: bool) | AckFails | Acknowledged

  /** What the server does. told: the error message, if there is to be one, goes out. */
  datatype Act =
    | Create
    | BeRefused(code: Option<nat>)
    | Open
    | Abandon
    | Hear(reception: Reception, fate: Fate, told: bool)

  datatype Verdict = Accept | Refuse | RefuseStranger

  function Judge(tid: Id, reception: Reception): Verdict {
    match reception
    case Nothing => Refuse
    case Datagram(source, opcode, _, _) =>
      if opcode != OPCODE_DATA then Refuse
      else if source != tid then RefuseStranger
      else Accept
  }

  /** What is accepted is data from the client, and a stranger is one who sends data from another port. */
  lemma JudgeMeans(tid: Id, r: Reception)
    ensures Judge(tid, r) == Accept <==> r.Datagram? && r.opcode == OPCODE_DATA && r.source == tid
    ensures Judge(tid, r) == RefuseStranger <==> r.Datagram? && r.opcode == OPCODE_DATA && r.source != tid
  {
  }

  predicate CanAct(server: Server, act: Act) {
    match act
    case Create => server.phase == Starting
    case BeRefused(_) => server.phase == Starting
    case Open => server.phase == Created
    case Abandon => server.phase == Created
    case Hear(_, _, _) => server.phase == Receiving && server.file.Some?
  }

  function ServerAfter(tid: Id, server: Server, act: Act): Server
    requires CanAct(server, act)
  {
    match act
    case Create => Server(Created, Some([]), 0)
    case BeRefused(_) => Server(Failed, None, 0)
    case Open => server.(phase := Receiving)
    case Abandon => server.(phase := Abandoned)
    case Hear(r, fate, _) =>
      if Judge(tid, r) == Accept && fate == Acknowledged
      then Server(if |r.payload| == BLOCK_SIZE then Receiving else Done,
                  Some(server.file.value + r.payload), server.taken + 1)
      else Server(Failed, None, server.taken)
  }

  /** The datagrams that go out with an act. */
  function Sends(tid: Id, act: Act): seq<Packet> {
    match act
    case Create => []
    case BeRefused(code) => if code.Some? then [Error(code.value)] else []
    case Open => [Ack(0)]
    case Abandon => []
    case Hear(r, fate, told) =>
      match Judge(tid, r) {
        case Accept =>
          if fate == Acknowledged then [Ack(r.id)]
          else if fate == WriteFails(true) && told then [Error(ERROR_DISK_FULL)]
          else []
        case RefuseStranger => if told then [Error(ERROR_UNKNOWN_TID)] else []
        case Refuse => []
      }
  }

  /** The calls of recvfrom() in an act. */
  function Hears(act: Act): seq<Reception> {
    if act.Hear? then [act.reception] else []
  }

  const START := Server(Starting, None, 0)

  /** A run of the server: where it is, what it has sent, and what it has heard. */
  datatype ServerRun = ServerRun(server: Server, sent: seq<Packet>, heard: seq<Reception>)

  function ServerNext(tid: Id, run: ServerRun, act: Act): Option<ServerRun> {
    if !CanAct(run.server, act) then None
    else Some(ServerRun(ServerAfter(tid, run.server, act), run.sent + Sends(tid, act), run.heard + Hears(act)))
  }

  function ServerOf(tid: Id): System<ServerRun, Act> {
    System(ServerRun(START, [], []), (run, act) => ServerNext(tid, run, act))
  }

  function RunServer(tid: Id, acts: seq<Act>): Option<ServerRun> {
    Play(ServerOf(tid), acts)
  }

  lemma RunServerOn(tid: Id, acts: seq<Act>, run: ServerRun, act: Act)
    requires RunServer(tid, acts) == Some(run)
    ensures RunServer(tid, acts + [act]) == ServerNext(tid, run, act)
    ensures RunServer(tid, []) == Some(ServerRun(START, [], []))
  {
    PlayOne(ServerOf(tid), acts, act);
  }

  datatype Step =
    | ByServer(act: Act)
    | ClientHears(packet: Packet)
    | ClientRetransmits
    | ClientAborts(code: Id)
    | LoseToClient(packet: Packet)
    | LoseToServer(packet: Packet)
    | LoseAbort(code: Id)
    | RepeatToClient(packet: Packet)
    | RepeatToServer(packet: Packet)
    | RepeatAbort(code: Id)

  // ---------------------------------------------------------------- steps

  const INITIAL := State(START, Client(Awaiting, 0), multiset{}, multiset{}, multiset{})

  /** The server hears the client, not a stranger. */
  predicate IsFromClient(cfg: Config, act: Act) {
    act.Hear? && act.reception.Datagram? && act.reception.source == cfg.tid
  }

  /** The client sends nothing but data, and one error, which has its code where the server looks for
      an id and its text where the server looks for a payload. */
  predicate IsInFlight(s: State, r: Reception)
    requires r.Datagram?
  {
    || (r.opcode == OPCODE_DATA && Data(r.id, r.payload) in s.toServer)
    || (r.opcode == OPCODE_ERROR && r.id in s.aborts)
  }

  predicate Enabled(cfg: Config, s: State, step: Step) {
    match step
    case ByServer(act) => CanAct(s.server, act) && (IsFromClient(cfg, act) ==> IsInFlight(s, act.reception))
    case ClientHears(p) => p in s.toClient
    case ClientRetransmits =>
      cfg.retransmits && s.client.phase == Awaiting && 1 <= s.client.sent <= NumBlocks(cfg.source)
    case ClientAborts(_) => s.client.phase == Awaiting
    case LoseToClient(p) => p in s.toClient
    case LoseToServer(p) => p in s.toServer
    case LoseAbort(code) => code in s.aborts
    case RepeatToClient(p) => cfg.duplicates && p in s.toClient
    case RepeatToServer(p) => cfg.duplicates && p in s.toServer
    case RepeatAbort(code) => cfg.duplicates && code in s.aborts
  }

  function DataPacket(cfg: Config, n: nat): Packet
    requires 1 <= n <= NumBlocks(cfg.source)
  {
    Data(BlockId(n), Block(cfg.source, n))
  }

  function Apply(cfg: Config, s: State, step: Step): State
    requires Enabled(cfg, s, step)
  {
    match step
    case ByServer(act) =>
      State(ServerAfter(cfg.tid, s.server, act), s.client, s.toClient + multiset(Sends(cfg.tid, act)),
            if IsFromClient(cfg, act) && act.reception.opcode == OPCODE_DATA
            then s.toServer - multiset{Data(act.reception.id, act.reception.payload)} else s.toServer,
            if IsFromClient(cfg, act) && act.reception.opcode == OPCODE_ERROR
            then s.aborts - multiset{act.reception.id} else s.aborts)
    case ClientHears(p) => ClientAfter(cfg, s.(toClient := s.toClient - multiset{p}), p)
    case ClientRetransmits => s.(toServer := s.toServer + multiset{DataPacket(cfg, s.client.sent)})
    case ClientAborts(code) =>
      s.(client := s.client.(phase := Aborted), aborts := s.aborts + multiset{code})
    case LoseToClient(p) => s.(toClient := s.toClient - multiset{p})
    case LoseToServer(p) => s.(toServer := s.toServer - multiset{p})
    case LoseAbort(code) => s.(aborts := s.aborts - multiset{code})
    case RepeatToClient(p) => s.(toClient := s.toClient + multiset{p})
    case RepeatToServer(p) => s.(toServer := s.toServer + multiset{p})
    case RepeatAbort(code) => s.(aborts := s.aborts + multiset{code})
  }

  /** The RFC 1350 client: the acknowledgment it awaits lets it send the next block, and it is
      done once the last one is acknowledged; an error ends it. */
  function ClientAfter(cfg: Config, s: State, p: Packet): State {
    var c := s.client;
    if c.phase != Awaiting then s
    else match p {
      case Ack(id) =>
        if id != BlockId(c.sent) then s
        else if c.sent >= NumBlocks(cfg.source) then s.(client := c.(phase := Complete))
        else s.(client := c.(sent := c.sent + 1), toServer := s.toServer + multiset{DataPacket(cfg, c.sent + 1)})
      case Error(_) => s.(client := c.(phase := Aborted))
      case Data(_, _) => s
    }
  }

  function Next(cfg: Config, s: State, step: Step): Option<State> {
    if Enabled(cfg, s, step) then Some(Apply(cfg, s, step)) else None
  }

  function SystemOf(cfg: Config): System<State, Step> {
    System(INITIAL, (s, step) => Next(cfg, s, step))
  }

  lemma Steps(cfg: Config, s: State, step: Step)
    requires Reachable(SystemOf(cfg), s) && Enabled(cfg, s, step)
    ensures Reachable(SystemOf(cfg), Apply(cfg, s, step))
  {
    hide Reachable, Enabled, Apply;
    Extend(SystemOf(cfg), s, step, Apply(cfg, s, step));
  }

  // ---------------------------------------------------------------- the server's side of a run

  function ActOf(step: Step): Option<Act> {
    if step.ByServer? then Some(step.act) else None
  }

  lemma ServerPlays(cfg: Config, acts: seq<Act>, s: State, act: Act)
    requires IsPlayed(SystemOf(cfg), ActOf, acts, s) && Enabled(cfg, s, ByServer(act))
    ensures IsPlayed(SystemOf(cfg), ActOf, acts + [act], Apply(cfg, s, ByServer(act)))
  {
    hide IsPlayed, Enabled, Apply;
    PlayOn(SystemOf(cfg), ActOf, acts, s, ByServer(act), Apply(cfg, s, ByServer(act)));
  }

  lemma OthersPlay(cfg: Config, acts: seq<Act>, s: State, step: Step)
    requires IsPlayed(SystemOf(cfg), ActOf, acts, s) && Enabled(cfg, s, step) && !step.ByServer?
    ensures IsPlayed(SystemOf(cfg), ActOf, acts, Apply(cfg, s, step))
  {
    hide IsPlayed, Enabled, Apply;
    PlayOn(SystemOf(cfg), ActOf, acts, s, step, Apply(cfg, s, step));
    assert acts + [] == acts;
  }

  lemma OthersLeaveServer(cfg: Config, s: State, step: Step)
    requires Enabled(cfg, s, step) && !step.ByServer?
    ensures Apply(cfg, s, step).server == s.server
  {
  }

  /** In every run of the whole system the server's side is a run of the server, up to the same state. */
  lemma {:induction false} ServerSideRuns(cfg: Config, steps: seq<Step>)
    requires Play(SystemOf(cfg), steps).Some?
    ensures var run := RunServer(cfg.tid, Side(ActOf, steps));
            run.Some? && run.value.server == Play(SystemOf(cfg), steps).value.server
    decreases |steps|
  {
    hide Play, RunServer, CanAct, ServerAfter, Sends, ClientAfter, Side;
    if steps == [] {
      NoActs(cfg);
    } else {
      var before, step, s, t := LastStep(SystemOf(cfg), ActOf, steps);
      ServerSideRuns(cfg, before);
      var acts := Side(ActOf, before);
      if step.ByServer? {
        RunServerOn(cfg.tid, acts, RunServer(cfg.tid, acts).value, step.act);
      } else {
        OthersLeaveServer(cfg, s, step);
        assert acts + [] == acts;
      }
    }
  }

  lemma NoActs(cfg: Config)
    ensures Play(SystemOf(cfg), []) == Some(INITIAL) && Side(ActOf, []) == []
    ensures RunServer(cfg.tid, []) == Some(ServerRun(START, [], []))
  {
  }

  // ---------------------------------------------------------------- what a write transfer promises

  ghost predicate Exact(cfg: Config, s: State) {
    var taken := s.server.taken;
    && match s.server.phase {
         case Starting => s.server.file == None
         case Created => s.server.file == Some([])
         case Receiving => s.server.file == Some(Prefix(cfg.source, taken)) && taken <= s.client.sent <= taken + 1
         case Done => s.server.file == Some(cfg.source)
         case Failed => s.server.file == None
         case Abandoned => s.server.file == Some([])
       }
    && (s.client.phase == Complete ==> s.server.phase == Done)
  }

  ghost predicate WriteExact(cfg: Config) {
    forall s | Reachable(SystemOf(cfg), s) :: Exact(cfg, s)
  }

  // ---------------------------------------------------------------- invariants

  ghost predicate Agreement(cfg: Config, s: State) {
    var taken, sent, last := s.server.taken, s.client.sent, NumBlocks(cfg.source);
    && taken <= sent <= taken + 1 && sent <= last
    && (s.server.phase in {Starting, Created, Abandoned} ==> sent == 0 && s.toClient == multiset{})
    && (s.server.phase == Receiving ==> taken < last)
    && (taken == last <==> s.server.phase == Done)
    && (s.client.phase == Complete ==> s.server.phase == Done)
    && Exact(cfg, s)
  }

  ghost predicate IsBlock(cfg: Config, p: Packet, n: nat) {
    1 <= n <= NumBlocks(cfg.source) && p == DataPacket(cfg, n)
  }

  ghost predicate NothingInvented(cfg: Config, s: State) {
    && (forall p | p in s.toServer :: exists n | 1 <= n <= s.client.sent :: IsBlock(cfg, p, n))
    && (forall p | p in s.toClient && !p.Error? :: p.Ack? && exists n: nat | n <= s.server.taken :: p.id == BlockId(n))
  }

  /** At most one block or acknowledgment is in flight: the latest block sent, if the server has not
      taken it, and otherwise the acknowledgment of the latest block taken. */
  ghost predicate OneInFlight(cfg: Config, s: State) {
    var taken, sent := s.server.taken, s.client.sent;
    && (forall p | p in s.toServer :: sent == taken + 1 && IsBlock(cfg, p, sent) && s.toServer[p] == 1)
    && (forall p | p in s.toClient && !p.Error? :: sent == taken && p == Ack(BlockId(taken)) && s.toClient[p] == 1)
  }

  ghost predicate Covered(cfg: Config) {
    |cfg.source| < BLOCK_SIZE || (!cfg.duplicates && !cfg.retransmits)
  }

  ghost predicate Inv(cfg: Config, s: State) {
    && Agreement(cfg, s)
    && NothingInvented(cfg, s)
    && (!cfg.duplicates && !cfg.retransmits ==> OneInFlight(cfg, s))
  }

  /** A block the server takes is the one it lacks, although it does not check. */
  lemma TakenIsNext(cfg: Config, s: State, p: Packet)
    requires Covered(cfg) && Inv(cfg, s) && s.server.phase == Receiving && p in s.toServer
    ensures s.client.sent == s.server.taken + 1 && IsBlock(cfg, p, s.client.sent)
  {
    if |cfg.source| < BLOCK_SIZE {
      OnlyBlock(cfg, s, p);
    } else {
      hide Agreement, NothingInvented, IsBlock;
      assert OneInFlight(cfg, s);
    }
  }

  lemma OnlyBlock(cfg: Config, s: State, p: Packet)
    requires |cfg.source| < BLOCK_SIZE && Agreement(cfg, s) && NothingInvented(cfg, s)
    requires s.server.phase == Receiving && p in s.toServer
    ensures s.client.sent == s.server.taken + 1 && IsBlock(cfg, p, s.client.sent)
  {
    hide Exact, BlockId, Block;
    assert NumBlocks(cfg.source) == 1;
    var n :| 1 <= n <= s.client.sent && IsBlock(cfg, p, n);
  }

  /** An acknowledgment the client accepts follows the write of its latest block. */
  lemma AckFollowsWrite(cfg: Config, s: State, id: Id)
    requires Covered(cfg) && Inv(cfg, s) && s.client.phase == Awaiting
    requires Ack(id) in s.toClient && id == BlockId(s.client.sent)
    ensures s.server.taken == s.client.sent
  {
    var n: nat :| n <= s.server.taken && id == BlockId(n);
  }

  /** The state after the server took the last block sent. */
  function TookLast(cfg: Config, s: State): State
    requires 1 <= s.client.sent <= NumBlocks(cfg.source)
  {
    var n := s.client.sent;
    State(Server(if n < NumBlocks(cfg.source) then Receiving else Done, Some(Prefix(cfg.source, n)), n), s.client,
          s.toClient + multiset{Ack(BlockId(n))}, s.toServer - multiset{DataPacket(cfg, n)}, s.aborts)
  }

  lemma TakesLast(cfg: Config, s: State, act: Act)
    requires Agreement(cfg, s) && act.Hear? && Enabled(cfg, s, ByServer(act))
    requires Judge(cfg.tid, act.reception) == Accept && act.fate == Acknowledged
    requires s.client.sent == s.server.taken + 1
    requires IsBlock(cfg, Data(act.reception.id, act.reception.payload), s.client.sent)
    ensures Apply(cfg, s, ByServer(act)) == TookLast(cfg, s)
  {
    hide BlockId;
    var r, n := act.reception, s.client.sent;
    BlockLength(cfg.source, n);
    PrefixGrows(cfg.source, n);
    assert multiset([Ack(r.id)]) == multiset{Ack(BlockId(n))};
  }

  lemma AgreementTook(cfg: Config, s: State)
    requires Agreement(cfg, s) && s.server.phase == Receiving && s.client.sent == s.server.taken + 1
    ensures Agreement(cfg, TookLast(cfg, s))
  {
    hide Block, BlockId, Prefix, NumBlocks;
    PrefixAll(cfg.source);
  }

  lemma InventedTook(cfg: Config, s: State)
    requires NothingInvented(cfg, s) && 1 <= s.client.sent <= NumBlocks(cfg.source)
    requires s.client.sent == s.server.taken + 1
    ensures NothingInvented(cfg, TookLast(cfg, s))
  {
    hide Block, BlockId, Prefix, NumBlocks, IsBlock;
    var t, n := TookLast(cfg, s), s.client.sent;
    forall p | p in t.toClient && !p.Error? ensures p.Ack? && exists m: nat | m <= n :: p.id == BlockId(m) {
      if p in s.toClient {
        var m: nat :| m <= s.server.taken && p.id == BlockId(m);
      } else {
        assert p == Ack(BlockId(n));
      }
    }
  }

  lemma OneInFlightTook(cfg: Config, s: State)
    requires OneInFlight(cfg, s) && 1 <= s.client.sent <= NumBlocks(cfg.source) && s.client.sent == s.server.taken + 1
    ensures OneInFlight(cfg, TookLast(cfg, s))
  {
    hide Block, BlockId, Prefix, NumBlocks;
  }

  lemma InvServerTakes(cfg: Config, s: State, act: Act)
    requires Covered(cfg) && Inv(cfg, s) && act.Hear? && Enabled(cfg, s, ByServer(act))
    requires Judge(cfg.tid, act.reception) == Accept && act.fate == Acknowledged
    ensures Inv(cfg, Apply(cfg, s, ByServer(act)))
  {
    hide NothingInvented, OneInFlight, Agreement, Block, BlockId, Prefix;
    var r := act.reception;
    TakenIsNext(cfg, s, Data(r.id, r.payload));
    TakesLast(cfg, s, act);
    AgreementTook(cfg, s);
    InventedTook(cfg, s);
    if !cfg.duplicates && !cfg.retransmits {
      OneInFlightTook(cfg, s);
    }
  }

  /** The server leaves, perhaps with an error message, perhaps with one block consumed. */
  lemma InvFailed(cfg: Config, s: State, errors: multiset<Packet>, blocks: multiset<Packet>, aborts: multiset<Id>)
    requires Inv(cfg, s) && s.server.phase in {Starting, Receiving}
    requires (forall p | p in errors :: p.Error?) && blocks <= s.toServer
    ensures Inv(cfg, State(Server(Failed, None, s.server.taken), s.client, s.toClient + errors, blocks, aborts))
  {
  }

  lemma InvServerFails(cfg: Config, s: State, act: Act)
    requires Inv(cfg, s) && (act.Hear? || act.BeRefused?) && Enabled(cfg, s, ByServer(act))
    requires act.Hear? ==> Judge(cfg.tid, act.reception) != Accept || act.fate != Acknowledged
    ensures Inv(cfg, Apply(cfg, s, ByServer(act)))
  {
    hide NothingInvented, OneInFlight, Block, Prefix, BlockId;
    var t := Apply(cfg, s, ByServer(act));
    InvFailed(cfg, s, multiset(Sends(cfg.tid, act)), t.toServer, t.aborts);
  }

  lemma InvServerStarts(cfg: Config, s: State, act: Act)
    requires Inv(cfg, s) && act in {Create, Open, Abandon} && Enabled(cfg, s, ByServer(act))
    ensures Inv(cfg, Apply(cfg, s, ByServer(act)))
  {
    PrefixAll(cfg.source);
    assert BlockId(0) == 0;
    assert multiset([Ack(0)]) == multiset{Ack(0)} && s.toClient + multiset([]) == s.toClient;
  }

  lemma AgreementSame(cfg: Config, s: State, t: State)
    requires Agreement(cfg, s) && t.server == s.server && t.client == s.client
    requires forall p | p in t.toClient :: p in s.toClient
    ensures Agreement(cfg, t)
  {
    hide Prefix, NumBlocks;
    if s.toClient == multiset{} {
      assert t.toClient == multiset{};
    }
  }

  lemma InventedSame(cfg: Config, s: State, t: State)
    requires NothingInvented(cfg, s) && t.server == s.server && t.client == s.client
    requires (forall p | p in t.toClient :: p in s.toClient) && forall p | p in t.toServer :: p in s.toServer
    ensures NothingInvented(cfg, t)
  {
    hide IsBlock, BlockId;
  }

  lemma OneInFlightLess(cfg: Config, s: State, t: State)
    requires OneInFlight(cfg, s) && t.server == s.server && t.client == s.client
    requires t.toClient <= s.toClient && t.toServer <= s.toServer
    ensures OneInFlight(cfg, t)
  {
    hide IsBlock, BlockId;
  }

  /** Datagrams are lost. */
  lemma InvFewer(cfg: Config, s: State, t: State)
    requires Inv(cfg, s) && t.server == s.server && t.client == s.client
    requires t.toClient <= s.toClient && t.toServer <= s.toServer
    ensures Inv(cfg, t)
  {
    hide Agreement, NothingInvented, OneInFlight;
    AgreementSame(cfg, s, t);
    InventedSame(cfg, s, t);
    if !cfg.duplicates && !cfg.retransmits {
      OneInFlightLess(cfg, s, t);
    }
  }

  /** Copies, where they are made. */
  lemma InvCopied(cfg: Config, s: State, t: State)
    requires Inv(cfg, s) && (cfg.duplicates || cfg.retransmits) && t.server == s.server && t.client == s.client
    requires (forall p | p in t.toClient :: p in s.toClient) && forall p | p in t.toServer :: p in s.toServer
    ensures Inv(cfg, t)
  {
    hide Agreement, NothingInvented, OneInFlight;
    AgreementSame(cfg, s, t);
    InventedSame(cfg, s, t);
  }

  lemma InvRetransmitted(cfg: Config, s: State)
    requires Inv(cfg, s) && Enabled(cfg, s, ClientRetransmits)
    ensures Inv(cfg, Apply(cfg, s, ClientRetransmits))
  {
    hide Agreement, OneInFlight, Block, BlockId;
    var t, n := Apply(cfg, s, ClientRetransmits), s.client.sent;
    AgreementSame(cfg, s, t);
    assert IsBlock(cfg, DataPacket(cfg, n), n);
    forall p | p in t.toServer ensures exists m | 1 <= m <= n :: IsBlock(cfg, p, m) {
      if p in s.toServer {
        var m :| 1 <= m <= n && IsBlock(cfg, p, m);
      }
    }
  }

  lemma InvClientHears(cfg: Config, s: State, p: Packet)
    requires Covered(cfg) && Inv(cfg, s) && p in s.toClient
    ensures Inv(cfg, Apply(cfg, s, ClientHears(p)))
  {
    var t := s.(toClient := s.toClient - multiset{p});
    InvFewer(cfg, s, t);
    if s.client.phase == Awaiting && p.Ack? && p.id == BlockId(s.client.sent) {
      AckFollowsWrite(cfg, s, p.id);
      InvAnswered(cfg, t);
    } else {
      InvNotAnswered(cfg, s, p, t);
    }
  }

  /** The awaited acknowledgment has come: the client is complete or sends its next block. */
  lemma InvAnswered(cfg: Config, t: State)
    requires Covered(cfg) && Inv(cfg, t) && t.client.phase == Awaiting && t.server.taken == t.client.sent
    requires t.server.phase !in {Starting, Created, Abandoned}
    requires !cfg.duplicates && !cfg.retransmits ==> forall p | p in t.toClient :: p.Error?
    ensures Inv(cfg, ClientAfter(cfg, t, Ack(BlockId(t.client.sent))))
  {
    if t.client.sent < NumBlocks(cfg.source) {
      assert IsBlock(cfg, DataPacket(cfg, t.client.sent + 1), t.client.sent + 1);
    }
  }

  lemma InvNotAnswered(cfg: Config, s: State, p: Packet, t: State)
    requires Inv(cfg, t) && t == s.(toClient := s.toClient - multiset{p}) && p in s.toClient
    requires s.client.phase == Awaiting ==> !p.Ack? || p.id != BlockId(s.client.sent)
    ensures Inv(cfg, Apply(cfg, s, ClientHears(p)))
  {
  }

  /** A client that has given up, and the errors on their way to the server, do not matter. */
  lemma InvAborts(cfg: Config, s: State, t: State)
    requires Inv(cfg, s) && t == s.(aborts := t.aborts, client := t.client) && t.client.sent == s.client.sent
    requires t.client.phase == s.client.phase || t.client.phase == Aborted
    ensures Inv(cfg, t)
  {
    hide Block, BlockId, Prefix, NumBlocks, IsBlock;
  }

  lemma InvNetwork(cfg: Config, s: State, step: Step)
    requires Covered(cfg) && Inv(cfg, s) && Enabled(cfg, s, step)
    requires !step.ByServer? && !step.ClientHears?
    ensures Inv(cfg, Apply(cfg, s, step))
  {
    hide Inv, ServerAfter, Sends, ClientAfter, DataPacket, NumBlocks;
    if step.LoseToClient? {
      InvFewer(cfg, s, s.(toClient := s.toClient - multiset{step.packet}));
    } else if step.LoseToServer? {
      InvFewer(cfg, s, s.(toServer := s.toServer - multiset{step.packet}));
    } else if step.RepeatToClient? {
      InvCopied(cfg, s, s.(toClient := s.toClient + multiset{step.packet}));
    } else if step.RepeatToServer? {
      InvCopied(cfg, s, s.(toServer := s.toServer + multiset{step.packet}));
    } else if step == ClientRetransmits {
      InvRetransmitted(cfg, s);
    } else {
      InvAborts(cfg, s, Apply(cfg, s, step));
    }
  }

  lemma InvStep(cfg: Config, s: State, step: Step)
    requires Covered(cfg) && Inv(cfg, s) && Enabled(cfg, s, step)
    ensures Inv(cfg, Apply(cfg, s, step))
  {
    hide Inv;
    match step
    case ByServer(act) =>
      if act in {Create, Open, Abandon} {
        InvServerStarts(cfg, s, act);
      } else if act.Hear? && Judge(cfg.tid, act.reception) == Accept && act.fate == Acknowledged {
        InvServerTakes(cfg, s, act);
      } else {
        InvServerFails(cfg, s, act);
      }
    case ClientHears(p) => InvClientHears(cfg, s, p);
    case _ => InvNetwork(cfg, s, step);
  }

  lemma {:induction false} InvPlay(cfg: Config, steps: seq<Step>)
    requires Covered(cfg) && Play(SystemOf(cfg), steps).Some?
    ensures Inv(cfg, Play(SystemOf(cfg), steps).value)
    decreases |steps|
  {
    hide Inv, Play, Enabled, Apply;
    if steps == [] {
      InvStart(cfg);
    } else {
      var before, step, s, t := LastStep(SystemOf(cfg), ActOf, steps);
      InvPlay(cfg, before);
      InvStep(cfg, s, step);
    }
  }

  lemma InvStart(cfg: Config)
    ensures Inv(cfg, INITIAL) && Play(SystemOf(cfg), []) == Some(INITIAL)
  {
    PrefixAll(cfg.source);
  }

  lemma InvReachable(cfg: Config, s: State)
    requires Covered(cfg) && Reachable(SystemOf(cfg), s)
    ensures Inv(cfg, s)
  {
    var steps: seq<Step> :| LeadsTo(SystemOf(cfg), steps, s);
    InvPlay(cfg, steps);
  }

  /** Without duplication and repetition, what is in flight is one block not yet taken, or one
      acknowledgment of a block already written to the file. */
  lemma AckInFlightFollowsWrite(cfg: Config, s: State)
    requires !cfg.duplicates && !cfg.retransmits && Reachable(SystemOf(cfg), s)
    ensures forall p | p in s.toServer :: IsBlock(cfg, p, s.server.taken + 1) && s.toServer[p] == 1
    ensures forall p | p in s.toClient && p.Ack? :: p.id == BlockId(s.server.taken) && s.toClient[p] == 1
    ensures forall p, q | p in s.toClient && p.Ack? :: q !in s.toServer
    ensures s.server.phase == Receiving ==> s.server.file == Some(Prefix(cfg.source, s.server.taken))
  {
    hide Reachable, NothingInvented, Prefix, NumBlocks;
    InvReachable(cfg, s);
    assert OneInFlight(cfg, s);
    forall p, q | p in s.toClient && p.Ack? ensures q !in s.toServer {
      assert s.client.sent == s.server.taken;
    }
  }

  // ---------------------------------------------------------------- the run that corrupts longer files

  /** The server takes whatever block is in flight. */
  function Taken(s: State, p: Packet): State
    requires s.server.file.Some? && p.Data?
  {
    State(Server(if |p.payload| == BLOCK_SIZE then Receiving else Done,
                 Some(s.server.file.value + p.payload), s.server.taken + 1),
          s.client, s.toClient + multiset{Ack(p.id)}, s.toServer - multiset{p}, s.aborts)
  }

  lemma Takes(cfg: Config, s: State, p: Packet)
    requires Reachable(SystemOf(cfg), s) && s.server.phase == Receiving && s.server.file.Some?
    requires p in s.toServer && p.Data?
    ensures Reachable(SystemOf(cfg), Taken(s, p))
  {
    hide Reachable;
    var r := Datagram(cfg.tid, OPCODE_DATA, p.id, p.payload);
    assert Judge(cfg.tid, r) == Accept;
    var step := ByServer(Hear(r, Acknowledged, true));
    assert multiset([Ack(p.id)]) == multiset{Ack(p.id)};
    assert Apply(cfg, s, step) == Taken(s, p);
    Steps(cfg, s, step);
  }

  /** The awaited acknowledgment makes the client send its next block. */
  function GoneOn(cfg: Config, s: State): State
    requires s.client.sent < NumBlocks(cfg.source)
  {
    State(s.server, Client(Awaiting, s.client.sent + 1), s.toClient - multiset{Ack(BlockId(s.client.sent))},
          s.toServer + multiset{DataPacket(cfg, s.client.sent + 1)}, s.aborts)
  }

  lemma GoesOnByAnswer(cfg: Config, s: State)
    requires s.client.phase == Awaiting && s.client.sent < NumBlocks(cfg.source)
    requires Ack(BlockId(s.client.sent)) in s.toClient
    ensures Apply(cfg, s, ClientHears(Ack(BlockId(s.client.sent)))) == GoneOn(cfg, s)
  {
    hide Block;
  }

  lemma GoesOn(cfg: Config, s: State)
    requires Reachable(SystemOf(cfg), s) && s.client.phase == Awaiting && s.client.sent < NumBlocks(cfg.source)
    requires Ack(BlockId(s.client.sent)) in s.toClient
    ensures Reachable(SystemOf(cfg), GoneOn(cfg, s))
  {
    hide Reachable, Apply, GoneOn, BlockId;
    var p := Ack(BlockId(s.client.sent));
    GoesOnByAnswer(cfg, s);
    Steps(cfg, s, ClientHears(p));
  }

  /** Block k is in flight; the server already holds an extra first block, or nothing extra. */
  function Sending(cfg: Config, k: nat, file: Bytes, taken: nat, acks: multiset<Packet>): State
    requires 1 <= k <= NumBlocks(cfg.source)
  {
    State(Server(Receiving, Some(file), taken), Client(Awaiting, k), acks, multiset{DataPacket(cfg, k)}, multiset{})
  }

  /** One block taken and the next one sent. */
  lemma Round(cfg: Config, k: nat, file: Bytes, taken: nat, acks: multiset<Packet>)
    requires 1 <= k && k + 1 <= NumBlocks(cfg.source)
    requires Reachable(SystemOf(cfg), Sending(cfg, k, file, taken, acks))
    ensures Reachable(SystemOf(cfg), Sending(cfg, k + 1, file + Block(cfg.source, k), taken + 1, acks))
  {
    hide Reachable, GoneOn, Taken, Block, BlockId;
    RoundState(cfg, k, file, taken, acks);
    var s := Sending(cfg, k, file, taken, acks);
    Takes(cfg, s, DataPacket(cfg, k));
    GoesOn(cfg, Taken(s, DataPacket(cfg, k)));
  }

  lemma RoundState(cfg: Config, k: nat, file: Bytes, taken: nat, acks: multiset<Packet>)
    requires 1 <= k && k + 1 <= NumBlocks(cfg.source)
    ensures var t := Taken(Sending(cfg, k, file, taken, acks), DataPacket(cfg, k));
            && Ack(BlockId(k)) in t.toClient && t.client == Client(Awaiting, k)
            && GoneOn(cfg, t) == Sending(cfg, k + 1, file + Block(cfg.source, k), taken + 1, acks)
  {
    hide Block, BlockId;
    BlockLength(cfg.source, k);
    var t := Taken(Sending(cfg, k, file, taken, acks), DataPacket(cfg, k));
    assert t.toServer == multiset{};
    assert t.toClient - multiset{Ack(BlockId(k))} == acks;
  }

  lemma FirstBlockSent(cfg: Config)
    ensures Reachable(SystemOf(cfg), Sending(cfg, 1, [], 0, multiset{}))
  {
    hide Reachable;
    StartReachable(SystemOf(cfg));
    var s := INITIAL.(server := Server(Created, Some([]), 0));
    assert Apply(cfg, INITIAL, ByServer(Create)) == s;
    Steps(cfg, INITIAL, ByServer(Create));
    var t := s.(server := Server(Receiving, Some([]), 0), toClient := multiset{Ack(0)});
    assert multiset([Ack(0)]) == multiset{Ack(0)};
    assert Apply(cfg, s, ByServer(Open)) == t;
    Steps(cfg, s, ByServer(Open));
    GoesOn(cfg, t);
    assert GoneOn(cfg, t) == Sending(cfg, 1, [], 0, multiset{});
  }

  /** A second copy of the first block, made by the network or by the client, is written again. */
  lemma FirstBlockTwice(cfg: Config)
    requires cfg.duplicates || cfg.retransmits
    requires 1 < NumBlocks(cfg.source)
    ensures Reachable(SystemOf(cfg), Sending(cfg, 1, Block(cfg.source, 1), 1, multiset{Ack(BlockId(1))}))
  {
    hide Reachable;
    FirstBlockSent(cfg);
    BlockLength(cfg.source, 1);
    var p := DataPacket(cfg, 1);
    var s := Sending(cfg, 1, [], 0, multiset{});
    var copy := if cfg.duplicates then RepeatToServer(p) else ClientRetransmits;
    var t := s.(toServer := s.toServer + multiset{p});
    assert Apply(cfg, s, copy) == t;
    Steps(cfg, s, copy);
    Takes(cfg, t, p);
    assert t.toServer - multiset{p} == s.toServer;
    assert [] + Block(cfg.source, 1) == Block(cfg.source, 1);
    assert Taken(t, p) == Sending(cfg, 1, Block(cfg.source, 1), 1, multiset{Ack(BlockId(1))});
  }

  lemma {:induction false} ShiftedReached(cfg: Config, k: nat)
    requires cfg.duplicates || cfg.retransmits
    requires 1 < NumBlocks(cfg.source) && k + 1 <= NumBlocks(cfg.source)
    ensures Reachable(SystemOf(cfg), Sending(cfg, k + 1, Block(cfg.source, 1) + Prefix(cfg.source, k), k + 1,
                                   multiset{Ack(BlockId(1))}))
  {
    hide Reachable;
    if k == 0 {
      FirstBlockTwice(cfg);
      assert Block(cfg.source, 1) + Prefix(cfg.source, 0) == Block(cfg.source, 1);
    } else {
      ShiftedReached(cfg, k - 1);
      PrefixGrows(cfg.source, k);
      var file := Block(cfg.source, 1) + Prefix(cfg.source, k - 1);
      assert file + Block(cfg.source, k) == Block(cfg.source, 1) + Prefix(cfg.source, k);
      Round(cfg, k, file, k, multiset{Ack(BlockId(1))});
    }
  }

  /** The server returns true with the first block written twice. */
  lemma CorruptedFileAccepted(cfg: Config) returns (s: State)
    requires cfg.duplicates || cfg.retransmits
    requires 1 < NumBlocks(cfg.source)
    ensures Reachable(SystemOf(cfg), s) && s.server.phase == Done
    ensures s.server.file == Some(Block(cfg.source, 1) + cfg.source) && !Exact(cfg, s)
  {
    hide Reachable;
    var k := NumBlocks(cfg.source) - 1;
    ShiftedReached(cfg, k);
    var file := Block(cfg.source, 1) + Prefix(cfg.source, k);
    s := Sending(cfg, k + 1, file, k + 1, multiset{Ack(BlockId(1))});
    BlockLength(cfg.source, 1);
    BlockLength(cfg.source, k + 1);
    PrefixGrows(cfg.source, k + 1);
    PrefixAll(cfg.source);
    Takes(cfg, s, DataPacket(cfg, k + 1));
    s := Taken(s, DataPacket(cfg, k + 1));
    assert file + Block(cfg.source, k + 1) == Block(cfg.source, 1) + cfg.source;
  }

  lemma {:induction false} SendingReached(cfg: Config, k: nat)
    requires 1 <= k <= NumBlocks(cfg.source)
    ensures Reachable(SystemOf(cfg), Sending(cfg, k, Prefix(cfg.source, k - 1), k - 1, multiset{}))
  {
    hide Reachable, Sending;
    if k == 1 {
      FirstBlockSent(cfg);
      PrefixAll(cfg.source);
    } else {
      SendingReached(cfg, k - 1);
      PrefixGrows(cfg.source, k - 1);
      Round(cfg, k - 1, Prefix(cfg.source, k - 2), k - 2, multiset{});
    }
  }

  /** Whatever the source and the network, some run stores all of it, and both sides know. */
  lemma TransferCanComplete(cfg: Config) returns (s: State)
    ensures Reachable(SystemOf(cfg), s) && s.server == Server(Done, Some(cfg.source), NumBlocks(cfg.source))
    ensures s.client == Client(Complete, NumBlocks(cfg.source))
  {
    hide Reachable, Block, Prefix, BlockId;
    var n := NumBlocks(cfg.source);
    var p := DataPacket(cfg, n);
    SendingReached(cfg, n);
    BlockLength(cfg.source, n);
    PrefixGrows(cfg.source, n);
    PrefixAll(cfg.source);
    Takes(cfg, Sending(cfg, n, Prefix(cfg.source, n - 1), n - 1, multiset{}), p);
    var t := Taken(Sending(cfg, n, Prefix(cfg.source, n - 1), n - 1, multiset{}), p);
    Steps(cfg, t, ClientHears(Ack(p.id)));
    s := Apply(cfg, t, ClientHears(Ack(p.id)));
  }

  /** Main result: which write transfers are exact in every run. */
  lemma WriteExactIff(cfg: Config)
    ensures WriteExact(cfg)
       <==> |cfg.source| < BLOCK_SIZE || (!cfg.duplicates && !cfg.retransmits)
  {
    if Covered(cfg) {
      forall s | Reachable(SystemOf(cfg), s) ensures Exact(cfg, s) {
        InvReachable(cfg, s);
      }
    } else {
      var s := CorruptedFileAccepted(cfg);
    }
  }

  /** What the result of a server run means for the file, whatever else happened around it. */
  lemma ServerRunStores(cfg: Config, steps: seq<Step>, run: ServerRun)
    requires Covered(cfg) && Play(SystemOf(cfg), steps).Some? && RunServer(cfg.tid, Side(ActOf, steps)) == Some(run)
    ensures run.server.phase == Receiving ==> run.server.file == Some(Prefix(cfg.source, run.server.taken))
    ensures run.server.phase == Done ==> run.server.file == Some(cfg.source)
    ensures Play(SystemOf(cfg), steps).value.client.phase == Complete ==> run.server.phase == Done
  {
    ServerSideRuns(cfg, steps);
    assert LeadsTo(SystemOf(cfg), steps, Play(SystemOf(cfg), steps).value);
    WriteExactIff(cfg);
    assert Exact(cfg, Play(SystemOf(cfg), steps).value);
  }

  // ---------------------------------------------------------------- which server runs are played

  /** How many of the first m acknowledgments a client waits for have this id. */
  function Needed(m: nat, id: Id): nat {
    if m == 0 then 0 else Needed(m - 1, id) + if BlockId(m - 1) == id then 1 else 0
  }

  /** What the server has sent is enough for a client to have sent block m. */
  ghost predicate AcksSuffice(cfg: Config, sent: seq<Packet>, m: nat) {
    if cfg.duplicates then forall j: nat | j < m :: Ack(BlockId(j)) in sent
    else forall id: Id :: Needed(m, id) <= multiset(sent)[Ack(id)]
  }

  ghost predicate MayBeBlock(cfg: Config, run: ServerRun, r: Reception, m: nat) {
    && r.Datagram? && r.opcode == OPCODE_DATA && IsBlock(cfg, Data(r.id, r.payload), m)
    && AcksSuffice(cfg, run.sent, m)
    && (cfg.duplicates || cfg.retransmits || m == run.server.taken + 1)
  }

  /** What can come from the client after this run of the server: an error, the next block, or any
      block it can have sent if there may be copies. */
  ghost predicate MayCome(cfg: Config, run: ServerRun, r: Reception) {
    IsAbort(r) || exists m: nat :: MayBeBlock(cfg, run, r, m)
  }

  predicate IsAbort(r: Reception) {
    r.Datagram? && r.opcode == OPCODE_ERROR
  }

  ghost predicate IsPlausible(cfg: Config, acts: seq<Act>) {
    acts != [] ==>
      && IsPlausible(cfg, acts[..|acts| - 1])
      && IsPlausibleAfter(cfg, RunServer(cfg.tid, acts[..|acts| - 1]), acts[|acts| - 1])
  }

  ghost predicate IsPlausibleAfter(cfg: Config, before: Option<ServerRun>, act: Act) {
    before.Some? && IsFromClient(cfg, act) ==> MayCome(cfg, before.value, act.reception)
  }

  lemma IsPlausibleOn(cfg: Config, acts: seq<Act>, act: Act)
    ensures IsPlausible(cfg, acts + [act])
       <==> IsPlausible(cfg, acts) && IsPlausibleAfter(cfg, RunServer(cfg.tid, acts), act)
    ensures IsPlausible(cfg, [])
  {
    assert (acts + [act])[..|acts|] == acts;
  }

  lemma {:induction false} NeededGrows(m: nat, n: nat, id: Id)
    requires m <= n
    ensures Needed(m, id) <= Needed(n, id)
  {
    if m < n {
      NeededGrows(m, n - 1, id);
    }
  }

  lemma SufficeForFewer(cfg: Config, sent: seq<Packet>, m: nat, n: nat)
    requires m <= n && AcksSuffice(cfg, sent, n)
    ensures AcksSuffice(cfg, sent, m)
  {
    if !cfg.duplicates {
      forall id: Id ensures Needed(m, id) <= multiset(sent)[Ack(id)] {
        NeededGrows(m, n, id);
      }
    }
  }

  // ---------------------------------------------------------------- whatever is heard may come

  /** What the client has sent, it could send on what the server has sent. */
  ghost predicate Accounted(cfg: Config, s: State, sent: seq<Packet>) {
    && s.client.sent <= NumBlocks(cfg.source)
    && (forall p | p in s.toServer :: exists m | 1 <= m <= s.client.sent :: IsBlock(cfg, p, m))
    && AcksAccounted(cfg, s, sent)
  }

  ghost predicate AcksAccounted(cfg: Config, s: State, sent: seq<Packet>) {
    if cfg.duplicates
    then AcksSuffice(cfg, sent, s.client.sent) && forall id: Id | Ack(id) in s.toClient :: Ack(id) in sent
    else forall id: Id :: Needed(s.client.sent, id) + s.toClient[Ack(id)] <= multiset(sent)[Ack(id)]
  }

  lemma AccountedServer(cfg: Config, s: State, sent: seq<Packet>, act: Act)
    requires Accounted(cfg, s, sent) && Enabled(cfg, s, ByServer(act))
    ensures Accounted(cfg, Apply(cfg, s, ByServer(act)), sent + Sends(cfg.tid, act))
  {
    hide Sends, ServerAfter, Needed, Block, BlockId;
    var more := Sends(cfg.tid, act);
    assert multiset(sent + more) == multiset(sent) + multiset(more);
  }

  lemma AccountedAnswer(cfg: Config, s: State, sent: seq<Packet>)
    requires Accounted(cfg, s, sent) && Ack(BlockId(s.client.sent)) in s.toClient
    requires s.client.phase == Awaiting && s.client.sent < NumBlocks(cfg.source)
    ensures Accounted(cfg, GoneOn(cfg, s), sent)
  {
    hide Block, AcksAccounted, BlockId;
    var n := s.client.sent;
    AcksAccountedAnswer(cfg, s, sent);
    assert IsBlock(cfg, DataPacket(cfg, n + 1), n + 1);
    forall p | p in GoneOn(cfg, s).toServer ensures exists m | 1 <= m <= n + 1 :: IsBlock(cfg, p, m) {
      if p in s.toServer {
        var m :| 1 <= m <= n && IsBlock(cfg, p, m);
      }
    }
  }

  lemma AcksAccountedAnswer(cfg: Config, s: State, sent: seq<Packet>)
    requires AcksAccounted(cfg, s, sent) && Ack(BlockId(s.client.sent)) in s.toClient
    requires s.client.sent < NumBlocks(cfg.source)
    ensures AcksAccounted(cfg, GoneOn(cfg, s), sent)
  {
    hide Block, BlockId, NumBlocks;
    var n := s.client.sent;
    if cfg.duplicates {
      forall j: nat | j < n + 1 ensures Ack(BlockId(j)) in sent {
        assert j < n || j == n;
      }
    } else {
      forall id: Id ensures Needed(n + 1, id) + GoneOn(cfg, s).toClient[Ack(id)] <= multiset(sent)[Ack(id)] {
        assert Needed(n, id) + s.toClient[Ack(id)] <= multiset(sent)[Ack(id)];
      }
    }
  }

  /** Nothing new is on its way, or only copies where copies are made. */
  lemma AccountedFewer(cfg: Config, s: State, t: State, sent: seq<Packet>)
    requires Accounted(cfg, s, sent) && t.client.sent == s.client.sent
    requires forall p | p in t.toServer :: p in s.toServer
    requires if cfg.duplicates then forall p | p in t.toClient :: p in s.toClient else t.toClient <= s.toClient
    ensures Accounted(cfg, t, sent)
  {
    hide Needed, IsBlock, AcksSuffice;
  }

  lemma AccountedRetransmits(cfg: Config, s: State, sent: seq<Packet>)
    requires Accounted(cfg, s, sent) && Enabled(cfg, s, ClientRetransmits)
    ensures Accounted(cfg, Apply(cfg, s, ClientRetransmits), sent)
  {
    hide Needed, AcksSuffice, Block;
    var n := s.client.sent;
    assert IsBlock(cfg, DataPacket(cfg, n), n);
    forall p | p in Apply(cfg, s, ClientRetransmits).toServer ensures exists m | 1 <= m <= n :: IsBlock(cfg, p, m) {
      if p in s.toServer {
        var m :| 1 <= m <= n && IsBlock(cfg, p, m);
      }
    }
  }

  /** A step in which the client does not go on and no copy of a block is sent. */
  lemma FewerUnderWay(cfg: Config, s: State, step: Step)
    requires Enabled(cfg, s, step) && !step.ByServer? && step != ClientRetransmits
    requires step.ClientHears? ==> !IsAnswer(cfg, s, step.packet)
    ensures var t := Apply(cfg, s, step);
            && t.client.sent == s.client.sent && (forall p | p in t.toServer :: p in s.toServer)
            && if cfg.duplicates then forall p | p in t.toClient :: p in s.toClient else t.toClient <= s.toClient
  {
    hide BlockId, NumBlocks, DataPacket, ClientAfter, IsAnswer;
    if step.ClientHears? {
      NotAnswered(cfg, s, step.packet);
    }
  }

  lemma NotAnswered(cfg: Config, s: State, p: Packet)
    requires p in s.toClient && !IsAnswer(cfg, s, p)
    ensures var t := Apply(cfg, s, ClientHears(p));
            t.client.sent == s.client.sent && t.toServer == s.toServer && t.toClient == s.toClient - multiset{p}
  {
    hide BlockId, NumBlocks, DataPacket;
  }

  lemma AccountedOther(cfg: Config, s: State, sent: seq<Packet>, step: Step)
    requires Accounted(cfg, s, sent) && Enabled(cfg, s, step) && !step.ByServer?
    ensures Accounted(cfg, Apply(cfg, s, step), sent)
  {
    hide Accounted, Block, BlockId, DataPacket, Apply, GoneOn;
    if step.ClientHears? && IsAnswer(cfg, s, step.packet) {
      GoesOnByAnswer(cfg, s);
      AccountedAnswer(cfg, s, sent);
    } else if step == ClientRetransmits {
      AccountedRetransmits(cfg, s, sent);
    } else {
      FewerUnderWay(cfg, s, step);
      AccountedFewer(cfg, s, Apply(cfg, s, step), sent);
    }
  }

  predicate IsAnswer(cfg: Config, s: State, p: Packet) {
    s.client.phase == Awaiting && s.client.sent < NumBlocks(cfg.source) && p == Ack(BlockId(s.client.sent))
  }

  lemma {:induction false} AccountedPlay(cfg: Config, steps: seq<Step>)
    requires Play(SystemOf(cfg), steps).Some?
    ensures RunServer(cfg.tid, Side(ActOf, steps)).Some?
    ensures Accounted(cfg, Play(SystemOf(cfg), steps).value, RunServer(cfg.tid, Side(ActOf, steps)).value.sent)
    decreases |steps|
  {
    hide Play, RunServer, CanAct, ServerAfter, Sends, ClientAfter, Side, Accounted;
    ServerSideRuns(cfg, steps);
    if steps == [] {
      AccountedStart(cfg);
    } else {
      var before, step, s, t := LastStep(SystemOf(cfg), ActOf, steps);
      ServerSideRuns(cfg, before);
      AccountedPlay(cfg, before);
      var acts := Side(ActOf, before);
      var run := RunServer(cfg.tid, acts).value;
      if step.ByServer? {
        RunServerOn(cfg.tid, acts, run, step.act);
        AccountedServer(cfg, s, run.sent, step.act);
      } else {
        AccountedOther(cfg, s, run.sent, step);
        assert acts + [] == acts;
      }
    }
  }

  lemma AccountedStart(cfg: Config)
    ensures Accounted(cfg, INITIAL, []) && Play(SystemOf(cfg), []) == Some(INITIAL)
    ensures Side(ActOf, []) == [] && RunServer(cfg.tid, []) == Some(ServerRun(START, [], []))
  {
  }

  lemma HeardMayCome(cfg: Config, s: State, run: ServerRun, act: Act)
    requires Accounted(cfg, s, run.sent) && s.server == run.server && (Covered(cfg) ==> Inv(cfg, s))
    requires IsFromClient(cfg, act) && Enabled(cfg, s, ByServer(act))
    ensures MayCome(cfg, run, act.reception)
  {
    hide MayBeBlock;
    if !IsAbort(act.reception) {
      var m := BlockMayCome(cfg, s, run, act);
    }
  }

  lemma BlockMayCome(cfg: Config, s: State, run: ServerRun, act: Act) returns (m: nat)
    requires Accounted(cfg, s, run.sent) && s.server == run.server && (Covered(cfg) ==> Inv(cfg, s))
    requires IsFromClient(cfg, act) && Enabled(cfg, s, ByServer(act)) && !IsAbort(act.reception)
    ensures MayBeBlock(cfg, run, act.reception, m)
  {
    hide Needed, Block, BlockId;
    var p := Data(act.reception.id, act.reception.payload);
    m :| 1 <= m <= s.client.sent && IsBlock(cfg, p, m);
    if !cfg.duplicates && !cfg.retransmits {
      m := s.client.sent;
      assert IsBlock(cfg, p, m) && m == run.server.taken + 1;
    }
    assert AcksSuffice(cfg, run.sent, s.client.sent);
    SufficeForFewer(cfg, run.sent, m, s.client.sent);
  }

  lemma {:induction false} PlayedIsPlausible(cfg: Config, steps: seq<Step>)
    requires Play(SystemOf(cfg), steps).Some?
    ensures IsPlausible(cfg, Side(ActOf, steps))
    decreases |steps|
  {
    hide IsPlausible, Accounted, Inv, Play, Side, RunServer, MayCome, CanAct, Apply;
    if steps == [] {
      NoActs(cfg);
      IsPlausibleOn(cfg, [], Create);
    } else {
      var before, step, s, t := LastStep(SystemOf(cfg), ActOf, steps);
      PlayedIsPlausible(cfg, before);
      var acts := Side(ActOf, before);
      if step.ByServer? {
        ServerSideRuns(cfg, before);
        IsPlausibleOn(cfg, acts, step.act);
        if IsFromClient(cfg, step.act) {
          AccountedPlay(cfg, before);
          if Covered(cfg) {
            InvPlay(cfg, before);
          }
          HeardMayCome(cfg, s, RunServer(cfg.tid, acts).value, step.act);
        }
      } else {
        assert acts + [] == acts;
      }
    }
  }

  // ---------------------------------------------------------------- without copies: in lock step

  predicate IsNextBlock(cfg: Config, taken: nat, r: Reception) {
    && taken < NumBlocks(cfg.source) && r.Datagram? && r.opcode == OPCODE_DATA
    && Data(r.id, r.payload) == DataPacket(cfg, taken + 1)
  }

  /** The state of a transfer in lock step, told from its server. */
  ghost predicate InLockStep(cfg: Config, s: State) {
    match s.server.phase
    case Starting => s == INITIAL
    case Created => s == INITIAL.(server := s.server) && s.server.taken == 0
    case Receiving =>
      var k := s.server.taken;
      && k < NumBlocks(cfg.source)
      && s == State(s.server, Client(Awaiting, k), multiset{Ack(BlockId(k))}, multiset{}, multiset{})
    case _ => true
  }

  /** An act in which nothing is heard from the client. */
  lemma OwnActPlayed(cfg: Config, acts: seq<Act>, s: State, act: Act) returns (t: State)
    requires IsPlayed(SystemOf(cfg), ActOf, acts, s) && InLockStep(cfg, s)
    requires CanAct(s.server, act) && !IsFromClient(cfg, act)
    ensures IsPlayed(SystemOf(cfg), ActOf, acts + [act], t) && InLockStep(cfg, t)
    ensures t.server == ServerAfter(cfg.tid, s.server, act)
  {
    hide IsPlayed, Apply, ServerAfter, InLockStep;
    OwnActInStep(cfg, s, act);
    ServerPlays(cfg, acts, s, act);
    t := Apply(cfg, s, ByServer(act));
  }

  lemma OwnActInStep(cfg: Config, s: State, act: Act)
    requires InLockStep(cfg, s) && CanAct(s.server, act) && !IsFromClient(cfg, act)
    ensures InLockStep(cfg, Apply(cfg, s, ByServer(act)))
    ensures Apply(cfg, s, ByServer(act)).server == ServerAfter(cfg.tid, s.server, act)
  {
    hide InLockStep, NumBlocks, Sends, DataPacket;
    if act == Create {
      CreateInStep(cfg, s);
    } else if act == Open {
      OpenInStep(cfg, s);
    } else {
      assert act.Hear? ==> Judge(cfg.tid, act.reception) != Accept;
      OverInStep(cfg, Apply(cfg, s, ByServer(act)));
    }
  }

  lemma CreateInStep(cfg: Config, s: State)
    requires InLockStep(cfg, s) && s.server.phase == Starting
    ensures InLockStep(cfg, Apply(cfg, s, ByServer(Create)))
  {
    hide NumBlocks, DataPacket, BlockId;
    assert s.toClient + multiset([]) == multiset{};
  }

  lemma OpenInStep(cfg: Config, s: State)
    requires InLockStep(cfg, s) && s.server.phase == Created
    ensures InLockStep(cfg, Apply(cfg, s, ByServer(Open)))
  {
    hide NumBlocks, DataPacket, BlockId;
    FirstId(cfg);
    assert multiset{} + multiset([Ack(0)]) == multiset{Ack(0)};
  }

  lemma OverInStep(cfg: Config, s: State)
    requires s.server.phase in {Done, Failed, Abandoned}
    ensures InLockStep(cfg, s)
  {
  }

  lemma FirstId(cfg: Config)
    ensures BlockId(0) == 0 && NumBlocks(cfg.source) > 0
  {
  }

  /** The client has heard the acknowledgment of the blocks taken and sent its next block. */
  function BlockOnTheWay(cfg: Config, server: Server): State
    requires server.taken < NumBlocks(cfg.source)
  {
    State(server, Client(Awaiting, server.taken + 1), multiset{}, multiset{DataPacket(cfg, server.taken + 1)},
          multiset{})
  }

  lemma NextBlockPlayed(cfg: Config, acts: seq<Act>, s: State)
    requires IsPlayed(SystemOf(cfg), ActOf, acts, s) && InLockStep(cfg, s) && s.server.phase == Receiving
    ensures IsPlayed(SystemOf(cfg), ActOf, acts, BlockOnTheWay(cfg, s.server))
  {
    hide IsPlayed, Block;
    var ack := Ack(BlockId(s.server.taken));
    assert s.toClient - multiset{ack} == multiset{};
    assert Apply(cfg, s, ClientHears(ack)) == BlockOnTheWay(cfg, s.server);
    OthersPlay(cfg, acts, s, ClientHears(ack));
  }

  lemma BlockPlayed(cfg: Config, acts: seq<Act>, s: State, act: Act) returns (t: State)
    requires IsPlayed(SystemOf(cfg), ActOf, acts, s) && InLockStep(cfg, s)
    requires CanAct(s.server, act) && IsFromClient(cfg, act) && IsNextBlock(cfg, s.server.taken, act.reception)
    ensures IsPlayed(SystemOf(cfg), ActOf, acts + [act], t) && InLockStep(cfg, t)
    ensures t.server == ServerAfter(cfg.tid, s.server, act)
  {
    hide IsPlayed, Block, BlockId, Apply, ServerAfter, BlockOnTheWay, NumBlocks;
    NextBlockPlayed(cfg, acts, s);
    BlockTakenInStep(cfg, s.server, act);
    ServerPlays(cfg, acts, BlockOnTheWay(cfg, s.server), act);
    t := Apply(cfg, BlockOnTheWay(cfg, s.server), ByServer(act));
  }

  lemma BlockTakenInStep(cfg: Config, server: Server, act: Act)
    requires CanAct(server, act) && IsFromClient(cfg, act) && IsNextBlock(cfg, server.taken, act.reception)
    ensures var u := BlockOnTheWay(cfg, server);
            && Enabled(cfg, u, ByServer(act)) && InLockStep(cfg, Apply(cfg, u, ByServer(act)))
            && Apply(cfg, u, ByServer(act)).server == ServerAfter(cfg.tid, server, act)
  {
    hide Block, BlockId;
    BlockLength(cfg.source, server.taken + 1);
    var u := BlockOnTheWay(cfg, server);
    var t := Apply(cfg, u, ByServer(act));
    if t.server.phase == Receiving {
      assert multiset{} + multiset([Ack(act.reception.id)]) == multiset{Ack(BlockId(t.server.taken))};
      assert u.toServer - multiset{DataPacket(cfg, server.taken + 1)} == multiset{};
    }
  }

  /** The client gives up, and the server hears that instead of a block. */
  lemma AbortPlayed(cfg: Config, acts: seq<Act>, s: State, act: Act) returns (t: State)
    requires IsPlayed(SystemOf(cfg), ActOf, acts, s) && AwaitsWhileReceiving(s)
    requires CanAct(s.server, act) && IsFromClient(cfg, act) && IsAbort(act.reception)
    ensures IsPlayed(SystemOf(cfg), ActOf, acts + [act], t)
    ensures t.server == ServerAfter(cfg.tid, s.server, act)
  {
    hide IsPlayed, ServerAfter, Sends, AwaitsWhileReceiving;
    var code := act.reception.id;
    AwaitsNow(s);
    var u := Apply(cfg, s, ClientAborts(code));
    OthersPlay(cfg, acts, s, ClientAborts(code));
    t := Apply(cfg, u, ByServer(act));
    ServerPlays(cfg, acts, u, act);
  }

  /** While the server listens, the client has not given up. */
  predicate AwaitsWhileReceiving(s: State) {
    s.server.phase == Receiving ==> s.client.phase == Awaiting
  }

  lemma AwaitsNow(s: State)
    requires AwaitsWhileReceiving(s) && s.server.phase == Receiving
    ensures s.client.phase == Awaiting
  {
  }

  lemma LockStepAwaits(cfg: Config, s: State)
    requires InLockStep(cfg, s)
    ensures AwaitsWhileReceiving(s)
  {
  }

  lemma AbortEnds(cfg: Config, server: Server, act: Act)
    requires CanAct(server, act) && IsFromClient(cfg, act) && IsAbort(act.reception)
    ensures ServerAfter(cfg.tid, server, act).phase == Failed
  {
  }

  lemma StartInLockStep(cfg: Config)
    ensures IsPlayed(SystemOf(cfg), ActOf, [], INITIAL) && InLockStep(cfg, INITIAL)
  {
    StartPlayed(SystemOf(cfg), ActOf);
  }

  lemma {:induction false} PlayedInLockStep(cfg: Config, acts: seq<Act>) returns (t: State)
    requires RunServer(cfg.tid, acts).Some? && IsPlausible(cfg, acts) && !cfg.duplicates && !cfg.retransmits
    ensures IsPlayed(SystemOf(cfg), ActOf, acts, t) && t.server == RunServer(cfg.tid, acts).value.server
    ensures InLockStep(cfg, t)
    decreases |acts|
  {
    hide IsPlayed, InLockStep, CanAct, ServerAfter, IsNextBlock, IsPlausible, MayCome, Sends, Play;
    if acts == [] {
      t := INITIAL;
      StartInLockStep(cfg);
      NoActs(cfg);
    } else {
      var before, act, run, run' := LastStep(ServerOf(cfg.tid), (a: Act) => Some(a), acts);
      IsPlausibleOn(cfg, before, act);
      var s := PlayedInLockStep(cfg, before);
      if IsFromClient(cfg, act) && IsAbort(act.reception) {
        LockStepAwaits(cfg, s);
        t := AbortPlayed(cfg, before, s, act);
        AbortEnds(cfg, s.server, act);
        OverInStep(cfg, t);
      } else if IsFromClient(cfg, act) {
        OnlyNextBlock(cfg, run, act.reception);
        t := BlockPlayed(cfg, before, s, act);
      } else {
        t := OwnActPlayed(cfg, before, s, act);
      }
    }
  }

  lemma OnlyNextBlock(cfg: Config, run: ServerRun, r: Reception)
    requires MayCome(cfg, run, r) && !IsAbort(r) && !cfg.duplicates && !cfg.retransmits
    ensures IsNextBlock(cfg, run.server.taken, r)
  {
  }

  // ---------------------------------------------------------------- with copies: from a stock

  /** At least c copies of each block sent are on their way, and the acknowledgments not yet needed. */
  ghost predicate Stocked(cfg: Config, s: State, run: ServerRun, c: nat) {
    && s.server == run.server && s.client.phase == Awaiting && s.client.sent <= NumBlocks(cfg.source)
    && (forall m | 1 <= m <= s.client.sent :: HasCopies(cfg, s, m, c))
    && AcksStocked(cfg, s, run.sent)
  }

  ghost predicate HasCopies(cfg: Config, s: State, m: nat, c: nat)
    requires 1 <= m <= NumBlocks(cfg.source)
  {
    s.toServer[DataPacket(cfg, m)] >= c
  }

  ghost predicate AcksStocked(cfg: Config, s: State, sent: seq<Packet>) {
    if cfg.duplicates then forall id: Id | Ack(id) in sent :: Ack(id) in s.toClient
    else forall id: Id :: Needed(s.client.sent, id) + s.toClient[Ack(id)] == multiset(sent)[Ack(id)]
  }

  /** An act of the server uses up one copy at most. */
  lemma ActFromStock(cfg: Config, acts: seq<Act>, s: State, run: ServerRun, c: nat, act: Act) returns (t: State)
    requires IsPlayed(SystemOf(cfg), ActOf, acts, s) && Stocked(cfg, s, run, c + 1)
    requires Enabled(cfg, s, ByServer(act)) && CanAct(run.server, act)
    ensures IsPlayed(SystemOf(cfg), ActOf, acts + [act], t)
    ensures Stocked(cfg, t, ServerRun(ServerAfter(cfg.tid, run.server, act), run.sent + Sends(cfg.tid, act),
                                      run.heard + Hears(act)), c)
  {
    hide IsPlayed, Needed, Sends, ServerAfter, Block, BlockId;
    t := Apply(cfg, s, ByServer(act));
    ServerPlays(cfg, acts, s, act);
    var more := Sends(cfg.tid, act);
    assert multiset(run.sent + more) == multiset(run.sent) + multiset(more);
    forall m | 1 <= m <= t.client.sent ensures HasCopies(cfg, t, m, c) {
      assert HasCopies(cfg, s, m, c + 1);
    }
  }

  /** The same state but for more copies of one block. */
  ghost predicate AddsBlock(s: State, t: State, p: Packet, k: nat) {
    t == s.(toServer := s.toServer[p := s.toServer[p] + k])
  }

  lemma CopyMade(cfg: Config, acts: seq<Act>, s: State) returns (t: State)
    requires cfg.duplicates || cfg.retransmits
    requires IsPlayed(SystemOf(cfg), ActOf, acts, s)
    requires s.client.phase == Awaiting && 1 <= s.client.sent <= NumBlocks(cfg.source)
    requires DataPacket(cfg, s.client.sent) in s.toServer
    ensures IsPlayed(SystemOf(cfg), ActOf, acts, t) && AddsBlock(s, t, DataPacket(cfg, s.client.sent), 1)
  {
    hide IsPlayed, Block, BlockId;
    var p := DataPacket(cfg, s.client.sent);
    var copy := if cfg.duplicates then RepeatToServer(p) else ClientRetransmits;
    t := Apply(cfg, s, copy);
    assert s.toServer + multiset{p} == s.toServer[p := s.toServer[p] + 1];
    OthersPlay(cfg, acts, s, copy);
  }

  lemma {:induction false} CopiesMade(cfg: Config, acts: seq<Act>, s: State, k: nat) returns (t: State)
    requires cfg.duplicates || cfg.retransmits
    requires IsPlayed(SystemOf(cfg), ActOf, acts, s)
    requires s.client.phase == Awaiting && 1 <= s.client.sent <= NumBlocks(cfg.source)
    requires DataPacket(cfg, s.client.sent) in s.toServer
    ensures IsPlayed(SystemOf(cfg), ActOf, acts, t) && AddsBlock(s, t, DataPacket(cfg, s.client.sent), k)
  {
    hide IsPlayed, Block, BlockId;
    if k == 0 {
      t := s;
    } else {
      var u := CopiesMade(cfg, acts, s, k - 1);
      t := CopyMade(cfg, acts, u);
    }
  }

  /** The acknowledgment the client waits for is there, and is still there afterwards if it can be copied. */
  lemma AckReady(cfg: Config, acts: seq<Act>, s: State, run: ServerRun, c: nat) returns (t: State)
    requires IsPlayed(SystemOf(cfg), ActOf, acts, s) && Stocked(cfg, s, run, c)
    requires AcksSuffice(cfg, run.sent, s.client.sent + 1)
    ensures IsPlayed(SystemOf(cfg), ActOf, acts, t) && t == s.(toClient := t.toClient)
    ensures var ack := Ack(BlockId(s.client.sent));
            ack in t.toClient && AcksStocked(cfg, s.(toClient := t.toClient - multiset{ack},
                                                    client := Client(Awaiting, s.client.sent + 1)), run.sent)
  {
    hide IsPlayed, Block, BlockId;
    var ack := Ack(BlockId(s.client.sent));
    if cfg.duplicates {
      assert ack in run.sent && ack in s.toClient;
      t := Apply(cfg, s, RepeatToClient(ack));
      OthersPlay(cfg, acts, s, RepeatToClient(ack));
    } else {
      t := s;
      assert Needed(s.client.sent + 1, ack.id) == Needed(s.client.sent, ack.id) + 1;
    }
  }

  lemma BlockStocked(cfg: Config, acts: seq<Act>, s: State, run: ServerRun, c: nat) returns (t: State)
    requires cfg.duplicates || cfg.retransmits
    requires IsPlayed(SystemOf(cfg), ActOf, acts, s) && Stocked(cfg, s, run, c)
    requires s.client.sent < NumBlocks(cfg.source) && AcksSuffice(cfg, run.sent, s.client.sent + 1)
    ensures IsPlayed(SystemOf(cfg), ActOf, acts, t) && Stocked(cfg, t, run, c)
    ensures t.client.sent == s.client.sent + 1
  {
    hide IsPlayed, Block, BlockId, Needed, AcksSuffice;
    var n, ack := s.client.sent, Ack(BlockId(s.client.sent));
    var u := AckReady(cfg, acts, s, run, c);
    GoesOnByAnswer(cfg, u);
    OthersPlay(cfg, acts, u, ClientHears(ack));
    t := CopiesMade(cfg, acts, GoneOn(cfg, u), c);
    forall m | 1 <= m <= n + 1 ensures HasCopies(cfg, t, m, c) {
      if m <= n {
        assert HasCopies(cfg, s, m, c);
      }
    }
  }

  lemma {:induction false} BlocksStocked(cfg: Config, acts: seq<Act>, s: State, run: ServerRun, c: nat, m: nat)
    returns (t: State)
    requires cfg.duplicates || cfg.retransmits
    requires IsPlayed(SystemOf(cfg), ActOf, acts, s) && Stocked(cfg, s, run, c)
    requires m <= NumBlocks(cfg.source) && AcksSuffice(cfg, run.sent, m)
    ensures IsPlayed(SystemOf(cfg), ActOf, acts, t) && Stocked(cfg, t, run, c)
    ensures t.client.sent >= m
    decreases m - s.client.sent
  {
    hide IsPlayed, AcksSuffice, AcksStocked;
    if s.client.sent >= m {
      t := s;
    } else {
      SufficeForFewer(cfg, run.sent, s.client.sent + 1, m);
      var u := BlockStocked(cfg, acts, s, run, c);
      t := BlocksStocked(cfg, acts, u, run, c, m);
    }
  }

  lemma HearFromStock(cfg: Config, acts: seq<Act>, s: State, run: ServerRun, c: nat, act: Act) returns (t: State)
    requires cfg.duplicates || cfg.retransmits
    requires IsPlayed(SystemOf(cfg), ActOf, acts, s) && Stocked(cfg, s, run, c + 1)
    requires CanAct(run.server, act) && IsFromClient(cfg, act)
    requires MayCome(cfg, run, act.reception) && !IsAbort(act.reception)
    ensures IsPlayed(SystemOf(cfg), ActOf, acts + [act], t)
    ensures Stocked(cfg, t, ServerRun(ServerAfter(cfg.tid, run.server, act), run.sent + Sends(cfg.tid, act),
                                      run.heard + Hears(act)), c)
  {
    hide IsPlayed, AcksSuffice, AcksStocked, Sends, ServerAfter, Block, BlockId;
    var m: nat :| MayBeBlock(cfg, run, act.reception, m);
    var u := BlocksStocked(cfg, acts, s, run, c + 1, m);
    assert HasCopies(cfg, u, m, c + 1);
    t := ActFromStock(cfg, acts, u, run, c, act);
  }

  /** A transfer with a stock of copies, until the client gives up. */
  ghost predicate IsStocked(cfg: Config, s: State, run: ServerRun, c: nat) {
    run.server.phase == Failed || Stocked(cfg, s, run, c)
  }

  lemma StockedWhileRunning(cfg: Config, s: State, run: ServerRun, c: nat, act: Act)
    requires IsStocked(cfg, s, run, c) && CanAct(run.server, act)
    ensures Stocked(cfg, s, run, c) && s.server == run.server && AwaitsWhileReceiving(s)
  {
  }

  lemma {:induction false} PlayedFromStock(cfg: Config, acts: seq<Act>, c: nat) returns (t: State)
    requires RunServer(cfg.tid, acts).Some? && IsPlausible(cfg, acts) && (cfg.duplicates || cfg.retransmits)
    ensures IsPlayed(SystemOf(cfg), ActOf, acts, t)
    ensures IsStocked(cfg, t, RunServer(cfg.tid, acts).value, c)
    decreases |acts|
  {
    hide IsPlayed, Stocked, CanAct, ServerAfter, IsPlausible, MayCome, Sends, Play, AwaitsWhileReceiving;
    if acts == [] {
      t := INITIAL;
      StartStocked(cfg, c);
    } else {
      var before, act, run, run' := LastStep(ServerOf(cfg.tid), (a: Act) => Some(a), acts);
      IsPlausibleOn(cfg, before, act);
      var s := PlayedFromStock(cfg, before, c + 1);
      StockedWhileRunning(cfg, s, run, c + 1, act);
      if IsFromClient(cfg, act) && IsAbort(act.reception) {
        t := AbortPlayed(cfg, before, s, act);
        AbortEnds(cfg, run.server, act);
      } else if IsFromClient(cfg, act) {
        t := HearFromStock(cfg, before, s, run, c, act);
      } else {
        t := ActFromStock(cfg, before, s, run, c, act);
      }
    }
  }

  lemma StartStocked(cfg: Config, c: nat)
    ensures IsPlayed(SystemOf(cfg), ActOf, [], INITIAL) && RunServer(cfg.tid, []) == Some(ServerRun(START, [], []))
    ensures Stocked(cfg, INITIAL, ServerRun(START, [], []), c)
  {
    StartPlayed(SystemOf(cfg), ActOf);
  }

  /** Which sequences of acts the server can go through in a whole system: the runs of the server in
      which what is heard from the client may come. */
  lemma PlayedIff(cfg: Config, acts: seq<Act>)
    ensures (exists s :: IsPlayed(SystemOf(cfg), ActOf, acts, s))
       <==> RunServer(cfg.tid, acts).Some? && IsPlausible(cfg, acts)
  {
    if s :| IsPlayed(SystemOf(cfg), ActOf, acts, s) {
      var steps: seq<Step> :| PlaysOut(SystemOf(cfg), ActOf, steps, acts, s);
      ServerSideRuns(cfg, steps);
      PlayedIsPlausible(cfg, steps);
    }
    if RunServer(cfg.tid, acts).Some? && IsPlausible(cfg, acts) {
      if cfg.duplicates || cfg.retransmits {
        var t := PlayedFromStock(cfg, acts, 0);
      } else {
        var t := PlayedInLockStep(cfg, acts);
      }
    }
  }
}
