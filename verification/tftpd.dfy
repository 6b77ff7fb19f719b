/** The two transfer handlers of tftpd.c as they run: loops over a socket and a file. */
module Tftpd {
  import opened Tftp
  import opened Wrappers
  import R = ReadTransfer
  import W = WriteTransfer
  import D = SharedDirectory

  /** A bound UDP socket. What recvfrom() will yield, call by call, and whether each sendto() works
      are fixed in advance; after the last reception, recvfrom() times out. */
  class Socket {
    const inbox: seq<Reception>
    const sendWorks: nat -> bool
    var sendCalls: nat
    var received: nat
    var sent: seq<Packet>

    /** What the k-th call of recvfrom() yields. */
    function Incoming(k: nat): Reception {
      if k < |inbox| then inbox[k] else Nothing
    }

    /** What a stretch of calls of recvfrom() yields. */
    function Heard(from: nat, to: nat): seq<Reception>
      requires from <= to
    {
      seq(to - from, i requires 0 <= i < to - from => Incoming(from + i))
    }

    constructor (inbox: seq<Reception>, sendWorks: nat -> bool)
      ensures this.inbox == inbox && this.sendWorks == sendWorks
      ensures sendCalls == 0 && received == 0 && sent == []
    {
      this.inbox, this.sendWorks := inbox, sendWorks;
      sendCalls, received, sent := 0, 0, [];
    }

    method Send(p: Packet) returns (ok: bool)
      modifies this`sendCalls, this`sent
      ensures ok == sendWorks(old(sendCalls)) && sendCalls == old(sendCalls) + 1
      ensures sent == if ok then old(sent) + [p] else old(sent)
    {
      ok := sendWorks(sendCalls);
      sendCalls := sendCalls + 1;
      if ok { sent := sent + [p]; }
    }

    method Receive() returns (r: Reception)
      modifies this`received
      ensures r == Incoming(old(received)) && received == old(received) + 1
    {
      r := Incoming(received);
      received := received + 1;
    }
  }

  /** The server root. Permissions, the success of each read(), the number of bytes each write()
      manages and whether a shortfall is for lack of space are fixed in advance. */
  class FileSystem {
    const permits: D.Path -> bool
    const readWorks: nat -> bool
    const room: nat -> nat
    const full: nat -> bool
    var disk: D.Disk
    var next: D.Inode
    var readCalls: nat
    var writeCalls: nat

    ghost predicate Valid()
      reads this
    {
      D.WellFormed(disk) && forall n | n in disk.inodes :: n < next
    }

    constructor (disk: D.Disk, next: D.Inode, permits: D.Path -> bool, readWorks: nat -> bool, room: nat -> nat,
                 full: nat -> bool)
      requires D.WellFormed(disk) && forall n | n in disk.inodes :: n < next
      ensures Valid() && this.disk == disk
      ensures this.permits == permits && this.readWorks == readWorks && this.room == room && this.full == full
    {
      this.disk, this.next := disk, next;
      this.permits, this.readWorks, this.room, this.full := permits, readWorks, room, full;
      readCalls, writeCalls := 0, 0;
    }

    /** open() with O_CREAT | O_EXCL */
    method Create(path: D.Path) returns (inode: Option<D.Inode>)
      requires Valid()
      modifies this`disk, this`next
      ensures Valid()
      ensures inode.Some? <==> path !in old(disk.names) && permits(path)
      ensures inode.Some? ==> inode.value !in old(disk.inodes)
      ensures disk == if inode.None? then old(disk)
                      else D.Disk(old(disk.names)[path := inode.value], old(disk.inodes)[inode.value := []])
    {
      if path in disk.names || !permits(path) { return None; }
      inode := Some(next);
      disk := D.Disk(disk.names[path := next], disk.inodes[next := []]);
      next := next + 1;
    }

    method Append(inode: D.Inode, bytes: Bytes) returns (written: nat)
      requires Valid() && inode in disk.inodes
      modifies this`disk, this`writeCalls
      ensures Valid() && writeCalls == old(writeCalls) + 1
      ensures written == Min(|bytes|, room(old(writeCalls)))
      ensures disk == old(disk).(inodes := old(disk.inodes)[inode := old(disk.inodes)[inode] + bytes[..written]])
    {
      written := Min(|bytes|, room(writeCalls));
      disk := disk.(inodes := disk.inodes[inode := disk.inodes[inode] + bytes[..written]]);
      writeCalls := writeCalls + 1;
    }

    method Unlink(path: D.Path)
      requires Valid()
      modifies this`disk
      ensures Valid() && disk == old(disk).(names := old(disk.names) - {path})
    {
      disk := disk.(names := disk.names - {path});
    }

    /** Reads of a regular file are short only at its end. */
    method Read(inode: D.Inode, offset: nat) returns (chunk: Option<Bytes>)
      requires Valid() && inode in disk.inodes && offset <= |disk.inodes[inode]|
      modifies this`readCalls
      ensures readCalls == old(readCalls) + 1
      ensures chunk == if readWorks(old(readCalls))
                       then Some(disk.inodes[inode][offset..Min(offset + BLOCK_SIZE, |disk.inodes[inode]|)])
                       else None
    {
      var file := disk.inodes[inode];
      chunk := if readWorks(readCalls) then Some(file[offset..Min(offset + BLOCK_SIZE, |file|)]) else None;
      readCalls := readCalls + 1;
    }
  }

  // ---------------------------------------------------------------- reads

  /** The first n datagrams of a read transfer. */
  function DataPackets(file: Bytes, n: nat): seq<Packet>
    requires n <= NumBlocks(file)
  {
    seq(n, i requires 0 <= i < n => Data(BlockId(i + 1), Block(file, i + 1)))
  }

  function Payloads(packets: seq<Packet>): seq<Bytes>
    requires forall p | p in packets :: p.Data?
  {
    seq(|packets|, i requires 0 <= i < |packets| => packets[i].payload)
  }

  /** The payloads of those datagrams join to a prefix of the file, and all of them to the file. */
  lemma DataPacketsCarryFile(file: Bytes, n: nat)
    requires n <= NumBlocks(file)
    ensures Concat(Payloads(DataPackets(file, n))) == Prefix(file, n)
    ensures Concat(Payloads(DataPackets(file, NumBlocks(file)))) == file
  {
    assert Payloads(DataPackets(file, n)) == Blocks(file, n);
    BlocksJoin(file, n);
    assert Payloads(DataPackets(file, NumBlocks(file))) == Blocks(file, NumBlocks(file));
    BlocksJoin(file, NumBlocks(file));
    PrefixAll(file);
  }

  lemma ChunkIsBlock(file: Bytes, offset: nat, n: nat)
    requires n < NumBlocks(file) && offset == BLOCK_SIZE * n
    ensures offset <= |file| && file[offset..Min(offset + BLOCK_SIZE, |file|)] == Block(file, n + 1)
  {
  }

  /** The acknowledgment with this id, from whatever port. */
  predicate IsAck(r: Reception, id: Id) {
    r.Datagram? && r.opcode == OPCODE_ACK && r.id == id
  }

  /** One iteration of the read handler's loop: the block at this offset is read and sent, and what is
      received is checked. sent tells whether the block went out. */
  method SendBlock(fs: FileSystem, socket: Socket, inode: D.Inode, tid: Id, id: Id, offset: nat, ghost n: nat)
    returns (sent: bool, size: nat, r: Reception, accepted: bool, ghost told: bool)
    requires fs.Valid() && inode in fs.disk.inodes
    requires n < NumBlocks(fs.disk.inodes[inode]) && offset == BLOCK_SIZE * n && id == BlockId(n + 1)
    modifies fs`readCalls, socket
    ensures var file := fs.disk.inodes[inode];
            && sent == (fs.readWorks(old(fs.readCalls)) && socket.sendWorks(old(socket.sendCalls)))
            && size == |Block(file, n + 1)|
            && (!sent ==> socket.sent == old(socket.sent) && socket.received == old(socket.received))
            && (sent ==>
                  && r == socket.Incoming(old(socket.received)) && socket.received == old(socket.received) + 1
                  && socket.sent == old(socket.sent) + [Data(id, Block(file, n + 1))]
                                    + if told then [Error(ERROR_UNKNOWN_TID)] else [])
    ensures accepted <==> sent && IsAck(r, id) && r.source == tid
    ensures told <==> sent && IsAck(r, id) && r.source != tid && socket.sendWorks(old(socket.sendCalls) + 1)
    ensures accepted ==> fs.readCalls == old(fs.readCalls) + 1 && socket.sendCalls == old(socket.sendCalls) + 1
  {
    hide Block, BlockId, IsAck;
    ChunkIsBlock(fs.disk.inodes[inode], offset, n);
    size := Min(offset + BLOCK_SIZE, |fs.disk.inodes[inode]|) - offset;
    sent, r, accepted, told := false, Nothing, false, false;
    var chunk := fs.Read(inode, offset);
    if chunk.Some? {
      sent := socket.Send(Data(id, chunk.value));
    }
    if sent {
      r := socket.Receive();
      accepted, told := CheckAck(socket, r, tid, id);
    }
  }

  /** The checks on what is received, for its opcode, its id and its source, in this order. told:
      a stranger was told so. */
  method CheckAck(socket: Socket, r: Reception, tid: Id, id: Id) returns (accepted: bool, ghost told: bool)
    modifies socket`sendCalls, socket`sent
    ensures accepted <==> IsAck(r, id) && r.source == tid
    ensures told <==> IsAck(r, id) && r.source != tid && socket.sendWorks(old(socket.sendCalls))
    ensures socket.sent == old(socket.sent) + if told then [Error(ERROR_UNKNOWN_TID)] else []
    ensures accepted ==> socket.sendCalls == old(socket.sendCalls)
  {
    accepted, told := false, false;
    if r == Nothing { return; }
    if r.opcode != OPCODE_ACK { return; }
    if r.id != id { return; }
    if r.source != tid {
      told := socket.Send(Error(ERROR_UNKNOWN_TID));
      return;
    }
    accepted := true;
  }

  /** The block of round i is read and sent. */
  ghost predicate GoesOut(fs: FileSystem, socket: Socket, reads0: nat, sends0: nat, i: nat) {
    fs.readWorks(reads0 + i) && socket.sendWorks(sends0 + i)
  }

  /** Round i of a read transfer goes well: its block is read and sent, and acknowledged. */
  ghost predicate RoundWorks(fs: FileSystem, socket: Socket, reads0: nat, sends0: nat, received0: nat, tid: Id, i: nat)
  {
    && GoesOut(fs, socket, reads0, sends0, i)
    && IsAck(socket.Incoming(received0 + i), BlockId(i + 1)) && socket.Incoming(received0 + i).source == tid
  }

  /** The acts are a run of the step relation's server that ends like this. */
  ghost predicate IsReaderRun(file: Bytes, tid: Id, acts: seq<R.Act>, server: R.Server, sent: seq<Packet>,
                              heard: seq<Reception>)
  {
    R.RunServer(file, tid, acts) == Some(R.ServerRun(server, sent, heard))
  }

  lemma NothingSent(file: Bytes, tid: Id)
    ensures DataPackets(file, 0) == [] && IsReaderRun(file, tid, [], R.Server(R.Ready, 0), [], [])
  {
  }

  lemma DataPacketsGrow(file: Bytes, n: nat)
    requires n < NumBlocks(file)
    ensures DataPackets(file, n + 1) == DataPackets(file, n) + [Data(BlockId(n + 1), Block(file, n + 1))]
  {
  }

  /** Where the server is after it judged the reception that answers its n-th block. */
  function Judged(file: Bytes, tid: Id, n: nat, r: Reception): R.Server {
    R.Server(if !IsAck(r, BlockId(n)) || r.source != tid then R.Failed
             else if n < NumBlocks(file) then R.Ready else R.Done, n)
  }

  lemma AckJudged(tid: Id, id: Id, r: Reception)
    ensures R.Judge(tid, id, r) == R.Accept <==> IsAck(r, id) && r.source == tid
    ensures R.Judge(tid, id, r) == R.RefuseStranger <==> IsAck(r, id) && r.source != tid
    ensures IsAck(r, id) ==> r.Datagram?
  {
    R.JudgeMeans(tid, id, r);
  }

  lemma ReaderRunOn(file: Bytes, tid: Id, acts: seq<R.Act>, server: R.Server, sent: seq<Packet>, heard: seq<Reception>,
                    act: R.Act)
    requires IsReaderRun(file, tid, acts, server, sent, heard) && R.CanAct(file, server, act)
    ensures IsReaderRun(file, tid, acts + [act], R.ServerAfter(file, tid, server, act),
                        sent + R.Sends(file, tid, server, act), heard + R.Hears(act))
  {
    hide R.CanAct, R.ServerAfter, R.Sends;
    R.RunServerOn(file, tid, acts, R.ServerRun(server, sent, heard), act);
  }

  lemma SendIsAct(file: Bytes, tid: Id, acts: seq<R.Act>, n: nat, heard: seq<Reception>)
    requires n < NumBlocks(file) && IsReaderRun(file, tid, acts, R.Server(R.Ready, n), DataPackets(file, n), heard)
    ensures IsReaderRun(file, tid, acts + [R.Send], R.Server(R.Waiting, n + 1), DataPackets(file, n + 1), heard)
  {
    hide IsReaderRun, DataPackets, Block, BlockId, NumBlocks;
    ReaderRunOn(file, tid, acts, R.Server(R.Ready, n), DataPackets(file, n), heard, R.Send);
    DataPacketsGrow(file, n);
    assert heard + R.Hears(R.Send) == heard;
  }

  /** What a reception does to the step relation's server. */
  lemma HearMeans(file: Bytes, tid: Id, n: nat, r: Reception, told: bool)
    requires 1 <= n <= NumBlocks(file) && (told ==> IsAck(r, BlockId(n)) && r.source != tid)
    ensures R.ServerAfter(file, tid, R.Server(R.Waiting, n), R.Hear(r, told)) == Judged(file, tid, n, r)
    ensures R.Sends(file, tid, R.Server(R.Waiting, n), R.Hear(r, told))
         == if told then [Error(ERROR_UNKNOWN_TID)] else []
  {
    hide IsAck, R.Judge, Block, BlockId, NumBlocks;
    AckJudged(tid, BlockId(n), r);
    BlockLength(file, n);
  }

  /** The block sent and the reception judged are two acts of the step relation's server. */
  lemma RoundIsTwoActs(file: Bytes, tid: Id, acts: seq<R.Act>, n: nat, heard: seq<Reception>, r: Reception, told: bool)
    returns (longer: seq<R.Act>)
    requires told ==> IsAck(r, BlockId(n + 1)) && r.source != tid
    requires n < NumBlocks(file) && IsReaderRun(file, tid, acts, R.Server(R.Ready, n), DataPackets(file, n), heard)
    ensures IsReaderRun(file, tid, longer, Judged(file, tid, n + 1, r),
                        DataPackets(file, n + 1) + (if told then [Error(ERROR_UNKNOWN_TID)] else []), heard + [r])
  {
    hide IsReaderRun, IsAck, Judged, R.ServerAfter, R.Sends, Block, BlockId, NumBlocks, DataPackets;
    SendIsAct(file, tid, acts, n, heard);
    HearMeans(file, tid, n + 1, r, told);
    ReaderRunOn(file, tid, acts + [R.Send], R.Server(R.Waiting, n + 1), DataPackets(file, n + 1), heard,
                R.Hear(r, told));
    longer := acts + [R.Send] + [R.Hear(r, told)];
  }

  /** A block that is not read or does not go out is an act of the step relation's server. */
  lemma GivingUpIsAct(file: Bytes, tid: Id, acts: seq<R.Act>, n: nat, sent: seq<Packet>, heard: seq<Reception>)
    requires IsReaderRun(file, tid, acts, R.Server(R.Ready, n), sent, heard)
    ensures IsReaderRun(file, tid, acts + [R.GiveUp], R.Server(R.Failed, n), sent, heard)
  {
    R.RunServerOn(file, tid, acts, R.ServerRun(R.Server(R.Ready, n), sent, heard), R.GiveUp);
    assert sent + [] == sent && heard + [] == heard;
  }

  lemma HeardGrows(socket: Socket, from: nat, to: nat)
    requires from <= to
    ensures socket.Heard(from, to + 1) == socket.Heard(from, to) + [socket.Incoming(to)]
    ensures socket.Heard(from, from) == []
  {
  }

  /** What a read handler did to its socket, up to now, is this run of the step relation's server. */
  ghost predicate ReadsAs(file: Bytes, tid: Id, acts: seq<R.Act>, server: R.Server, sent0: seq<Packet>,
                          sent: seq<Packet>,
                          heard: seq<Reception>)
  {
    exists out: seq<Packet> :: sent == sent0 + out && IsReaderRun(file, tid, acts, server, out, heard)
  }

  lemma ReadsAsThis(file: Bytes, tid: Id, acts: seq<R.Act>, server: R.Server, sent0: seq<Packet>, out: seq<Packet>,
                    heard: seq<Reception>)
    requires IsReaderRun(file, tid, acts, server, out, heard)
    ensures ReadsAs(file, tid, acts, server, sent0, sent0 + out, heard)
  {
  }

  /** What goes out when this answers the n-th block: a stranger who acknowledges is told so. */
  function Told(socket: Socket, tid: Id, n: nat, r: Reception, send: nat): seq<Packet> {
    if IsAck(r, BlockId(n)) && r.source != tid && socket.sendWorks(send) then [Error(ERROR_UNKNOWN_TID)] else []
  }

  /** How the loop has ended without success when n blocks have been sent, seen from where it began:
      all rounds before the last one worked, and either the last block got no acknowledgment from the
      client, or the next one was not read or did not go out. A stranger who acknowledged is told so. */
  ghost predicate RoundsStop(fs: FileSystem, socket: Socket, reads0: nat, sends0: nat, received0: nat, tid: Id,
                             file: Bytes, n: nat, sent0: seq<Packet>, sent: seq<Packet>)
    requires n <= NumBlocks(file)
  {
    && (forall i: nat | i < n :: GoesOut(fs, socket, reads0, sends0, i))
    && (forall i: nat | i + 1 < n :: RoundWorks(fs, socket, reads0, sends0, received0, tid, i))
    && ((n > 0 ==> RoundWorks(fs, socket, reads0, sends0, received0, tid, n - 1)) ==>
          n < NumBlocks(file) && !GoesOut(fs, socket, reads0, sends0, n))
    && sent == sent0 + DataPackets(file, n)
               + if n > 0 then Told(socket, tid, n, socket.Incoming(received0 + n - 1), sends0 + n) else []
  }

  /** One iteration, as a part of the whole: m blocks have been sent after it. */
  method SendRound(fs: FileSystem, socket: Socket, inode: D.Inode, tid: Id, id: Id, offset: nat, ghost n: nat,
                   ghost reads0: nat, ghost sends0: nat, ghost received0: nat, ghost sent0: seq<Packet>,
                   ghost acts0: seq<R.Act>)
    returns (accepted: bool, size: nat, ghost m: nat, ghost acts: seq<R.Act>)
    requires fs.Valid() && inode in fs.disk.inodes
    requires n < NumBlocks(fs.disk.inodes[inode]) && offset == BLOCK_SIZE * n && id == BlockId(n + 1)
    requires fs.readCalls == reads0 + n && socket.sendCalls == sends0 + n && socket.received == received0 + n
    requires socket.sent == sent0 + DataPackets(fs.disk.inodes[inode], n)
    requires IsReaderRun(fs.disk.inodes[inode], tid, acts0, R.Server(R.Ready, n),
                         DataPackets(fs.disk.inodes[inode], n), socket.Heard(received0, received0 + n))
    requires forall i: nat | i < n :: RoundWorks(fs, socket, reads0, sends0, received0, tid, i)
    modifies fs`readCalls, socket
    ensures accepted <==> RoundWorks(fs, socket, reads0, sends0, received0, tid, n)
    ensures size == |Block(fs.disk.inodes[inode], n + 1)|
    ensures var file := fs.disk.inodes[inode];
            && n <= m <= n + 1 && socket.received == received0 + m
            && (accepted ==>
                  && m == n + 1 && socket.sent == sent0 + DataPackets(file, m)
                  && fs.readCalls == reads0 + m && socket.sendCalls == sends0 + m
                  && IsReaderRun(file, tid, acts, R.Server(if m < NumBlocks(file) then R.Ready else R.Done, m),
                                 DataPackets(file, m), socket.Heard(received0, received0 + m)))
            && (!accepted ==>
                  && RoundsStop(fs, socket, reads0, sends0, received0, tid, file, m, sent0, socket.sent)
                  && ReadsAs(file, tid, acts, R.Server(R.Failed, m), sent0, socket.sent,
                             socket.Heard(received0, socket.received)))
  {
    hide IsReaderRun, ReadsAs, DataPackets, IsAck, Block, BlockId;
    ghost var file, heard := fs.disk.inodes[inode], socket.Heard(received0, received0 + n);
    ghost var told;
    var sent, r;
    sent, size, r, accepted, told := SendBlock(fs, socket, inode, tid, id, offset, n);
    if !sent {
      StopsBeforeSending(fs, socket, reads0, sends0, received0, tid, file, n, sent0);
      GivingUpIsAct(file, tid, acts0, n, DataPackets(file, n), heard);
      ReadsAsThis(file, tid, acts0 + [R.GiveUp], R.Server(R.Failed, n), sent0, DataPackets(file, n), heard);
      return false, size, n, acts0 + [R.GiveUp];
    }
    m := n + 1;
    acts := RoundIsTwoActs(file, tid, acts0, n, heard, r, told);
    HeardGrows(socket, received0, received0 + n);
    DataPacketsGrow(file, n);
    ghost var out := DataPackets(file, m) + if told then [Error(ERROR_UNKNOWN_TID)] else [];
    assert socket.sent == sent0 + out;
    if accepted {
      assert out == DataPackets(file, m);
    } else {
      StopsAfterSending(fs, socket, reads0, sends0, received0, tid, file, n, sent0, told);
      assert sent0 + out == sent0 + DataPackets(file, m) + if told then [Error(ERROR_UNKNOWN_TID)] else [];
      ReadsAsThis(file, tid, acts, R.Server(R.Failed, m), sent0, out, socket.Heard(received0, received0 + m));
    }
  }

  lemma StopsBeforeSending(fs: FileSystem, socket: Socket, reads0: nat, sends0: nat, received0: nat, tid: Id,
                           file: Bytes, n: nat, sent0: seq<Packet>)
    requires n < NumBlocks(file) && !GoesOut(fs, socket, reads0, sends0, n)
    requires forall i: nat | i < n :: RoundWorks(fs, socket, reads0, sends0, received0, tid, i)
    ensures RoundsStop(fs, socket, reads0, sends0, received0, tid, file, n, sent0, sent0 + DataPackets(file, n))
  {
    hide DataPackets, IsAck, BlockId, NumBlocks, GoesOut;
    forall i: nat | i < n ensures GoesOut(fs, socket, reads0, sends0, i) {
      assert RoundWorks(fs, socket, reads0, sends0, received0, tid, i);
    }
    if n > 0 {
      assert RoundWorks(fs, socket, reads0, sends0, received0, tid, n - 1);
      assert n - 1 + 1 == n && received0 + (n - 1) == received0 + n - 1;
    }
    assert sent0 + DataPackets(file, n) + [] == sent0 + DataPackets(file, n);
  }

  lemma StopsAfterSending(fs: FileSystem, socket: Socket, reads0: nat, sends0: nat, received0: nat, tid: Id,
                          file: Bytes, n: nat, sent0: seq<Packet>, told: bool)
    requires n < NumBlocks(file) && GoesOut(fs, socket, reads0, sends0, n)
    requires forall i: nat | i < n :: RoundWorks(fs, socket, reads0, sends0, received0, tid, i)
    requires !RoundWorks(fs, socket, reads0, sends0, received0, tid, n)
    requires var r := socket.Incoming(received0 + n);
             told <==> IsAck(r, BlockId(n + 1)) && r.source != tid && socket.sendWorks(sends0 + n + 1)
    ensures RoundsStop(fs, socket, reads0, sends0, received0, tid, file, n + 1, sent0,
                       sent0 + DataPackets(file, n + 1) + if told then [Error(ERROR_UNKNOWN_TID)] else [])
  {
    hide DataPackets, IsAck, BlockId, GoesOut, NumBlocks;
    forall i: nat | i < n + 1 ensures GoesOut(fs, socket, reads0, sends0, i) {
      assert i < n ==> RoundWorks(fs, socket, reads0, sends0, received0, tid, i);
    }
    assert n + 1 - 1 == n && received0 + (n + 1) - 1 == received0 + n && sends0 + (n + 1) == sends0 + n + 1;
  }

  lemma NextId(n: nat)
    ensures BlockId(n + 1) == if BlockId(n) + 1 == ID_SPACE then 0 else BlockId(n) + 1
  {
  }

  lemma StartsAtZero(file: Bytes)
    ensures BlockId(0) == 0 && NumBlocks(file) > 0
  {
  }

  /** The transfer itself, once the file is open. n counts the blocks sent; acts is the run of the
      step relation's server that these iterations are. */
  method SendFile(fs: FileSystem, socket: Socket, inode: D.Inode, tid: Id)
    returns (result: bool, ghost n: nat, ghost acts: seq<R.Act>)
    requires fs.Valid() && inode in fs.disk.inodes
    modifies fs`readCalls, socket
    ensures var file := fs.disk.inodes[inode];
            && n <= NumBlocks(file) && socket.received == old(socket.received) + n
            && (result <==> forall i: nat | i < NumBlocks(file) ::
                  RoundWorks(fs, socket, old(fs.readCalls), old(socket.sendCalls), old(socket.received), tid, i))
            && (result ==> n == NumBlocks(file) && socket.sent == old(socket.sent) + DataPackets(file, n))
            && (!result ==> RoundsStop(fs, socket, old(fs.readCalls), old(socket.sendCalls), old(socket.received), tid,
                                       file, n, old(socket.sent), socket.sent))
            && ReadsAs(file, tid, acts, R.Server(if result then R.Done else R.Failed, n),
                       old(socket.sent), socket.sent, socket.Heard(old(socket.received), socket.received))
  {
    hide IsReaderRun, ReadsAs, DataPackets, RoundWorks, RoundsStop, Block, BlockId, NumBlocks;
    ghost var file, sent0 := fs.disk.inodes[inode], socket.sent;
    ghost var reads0, sends0, received0 := fs.readCalls, socket.sendCalls, socket.received;
    var id: Id, offset: nat, more := 0, 0, true;
    n, acts := 0, [];
    NothingSent(file, tid);
    StartsAtZero(file);
    HeardGrows(socket, received0, received0);
    while more
      invariant fs.readCalls == reads0 + n && socket.sendCalls == sends0 + n && socket.received == received0 + n
      invariant n <= NumBlocks(file) && id == BlockId(n)
      invariant socket.sent == sent0 + DataPackets(file, n)
      invariant forall i: nat | i < n :: RoundWorks(fs, socket, reads0, sends0, received0, tid, i)
      invariant more ==> n < NumBlocks(file) && offset == BLOCK_SIZE * n
      invariant !more ==> n == NumBlocks(file)
      invariant IsReaderRun(file, tid, acts, R.Server(if more then R.Ready else R.Done, n), DataPackets(file, n),
                            socket.Heard(received0, received0 + n))
      decreases NumBlocks(file) - n, more
    {
      NextId(n);
      id := if id + 1 == ID_SPACE then 0 else id + 1;
      var accepted, size;
      ghost var before := n;
      accepted, size, n, acts :=
        SendRound(fs, socket, inode, tid, id, offset, n, reads0, sends0, received0, sent0, acts);
      if !accepted {
        assert !RoundWorks(fs, socket, reads0, sends0, received0, tid, before);
        return false, n, acts;
      }
      BlockLength(file, n);
      offset := offset + size;
      more := size == BLOCK_SIZE;
    }
    ReadsAsThis(file, tid, acts, R.Server(R.Done, n), sent0, DataPackets(file, n),
                socket.Heard(received0, received0 + n));
    result := true;
  }

  /** The read handler. It returns true exactly if each block is read, sent, and answered by a datagram
      from the client's port that is an acknowledgment with the id of that block. Otherwise it stops at
      the first failure, and an error goes out only to tell a stranger who sent that acknowledgment. */
  method HandleRrq(fs: FileSystem, socket: Socket, path: D.Path, tid: Id)
    returns (result: bool, ghost n: nat, ghost acts: seq<R.Act>)
    requires fs.Valid()
    modifies fs`readCalls, socket
    ensures path !in fs.disk.names || !fs.permits(path) ==>
              && !result && socket.received == old(socket.received)
              && var code := if path !in fs.disk.names then ERROR_FILE_NOT_FOUND else ERROR_ACCESS_VIOLATION;
                 socket.sent == old(socket.sent) + if socket.sendWorks(old(socket.sendCalls)) then [Error(code)] else []
    ensures path in fs.disk.names && fs.permits(path) ==>
              var file := fs.disk.inodes[fs.disk.names[path]];
              && n <= NumBlocks(file) && socket.received == old(socket.received) + n
              && (result <==> forall i: nat | i < NumBlocks(file) ::
                    RoundWorks(fs, socket, old(fs.readCalls), old(socket.sendCalls), old(socket.received), tid, i))
              && (result ==> n == NumBlocks(file))
              && (forall i: nat | i < n :: GoesOut(fs, socket, old(fs.readCalls), old(socket.sendCalls), i))
    ensures path in fs.disk.names && fs.permits(path) ==>
              var file := fs.disk.inodes[fs.disk.names[path]];
              var heard := socket.Heard(old(socket.received), socket.received);
              var last := if n > 0 then heard[n - 1] else Nothing;
              && |heard| == n <= NumBlocks(file)
              && (forall i | 0 <= i < n && (result || i + 1 < n) ::
                    heard[i].Datagram? && heard[i].opcode == OPCODE_ACK && heard[i].id == BlockId(i + 1)
                    && heard[i].source == tid)
              && (!result ==>
                    || (n > 0 && !(last.Datagram? && last.opcode == OPCODE_ACK && last.id == BlockId(n)
                                   && last.source == tid))
                    || (n < NumBlocks(file)
                        && !(fs.readWorks(old(fs.readCalls) + n) && socket.sendWorks(old(socket.sendCalls) + n))))
              && socket.sent == old(socket.sent) + DataPackets(file, n)
                                + if last.Datagram? && last.opcode == OPCODE_ACK && last.id == BlockId(n)
                                     && last.source != tid && socket.sendWorks(old(socket.sendCalls) + n)
                                  then [Error(ERROR_UNKNOWN_TID)] else []
    ensures path in fs.disk.names && fs.permits(path) ==>
              ReadsAs(fs.disk.inodes[fs.disk.names[path]], tid, acts, R.Server(if result then R.Done else R.Failed, n),
                      old(socket.sent), socket.sent, socket.Heard(old(socket.received), socket.received))
  {
    hide ReadsAs, DataPackets, BlockId, NumBlocks, RoundWorks, RoundsStop, GoesOut;
    if path !in fs.disk.names {
      var _ := socket.Send(Error(ERROR_FILE_NOT_FOUND));
      return false, 0, [];
    } else if !fs.permits(path) {
      var _ := socket.Send(Error(ERROR_ACCESS_VIOLATION));
      return false, 0, [];
    }
    ghost var file := fs.disk.inodes[fs.disk.names[path]];
    ghost var reads0, sends0, received0, sent0 := fs.readCalls, socket.sendCalls, socket.received, socket.sent;
    result, n, acts := SendFile(fs, socket, fs.disk.names[path], tid);
    ReadMeans(fs, socket, reads0, sends0, received0, tid, file, n, sent0, socket.sent, result);
  }

  /** What the end of the loop means, in terms of the datagrams. */
  lemma ReadMeans(fs: FileSystem, socket: Socket, reads0: nat, sends0: nat, received0: nat, tid: Id, file: Bytes,
                  n: nat, sent0: seq<Packet>, sent: seq<Packet>, result: bool)
    requires n <= NumBlocks(file)
    requires result ==> n == NumBlocks(file) && sent == sent0 + DataPackets(file, n)
                        && forall i: nat | i < n :: RoundWorks(fs, socket, reads0, sends0, received0, tid, i)
    requires !result ==> RoundsStop(fs, socket, reads0, sends0, received0, tid, file, n, sent0, sent)
    ensures forall i: nat | i < n :: GoesOut(fs, socket, reads0, sends0, i)
    ensures var heard := socket.Heard(received0, received0 + n);
            var last := if n > 0 then heard[n - 1] else Nothing;
            && (forall i | 0 <= i < n && (result || i + 1 < n) ::
                  heard[i].Datagram? && heard[i].opcode == OPCODE_ACK && heard[i].id == BlockId(i + 1)
                  && heard[i].source == tid)
            && (!result ==>
                  || (n > 0 && !(last.Datagram? && last.opcode == OPCODE_ACK && last.id == BlockId(n)
                                 && last.source == tid))
                  || (n < NumBlocks(file) && !(fs.readWorks(reads0 + n) && socket.sendWorks(sends0 + n))))
            && sent == sent0 + DataPackets(file, n)
                       + if last.Datagram? && last.opcode == OPCODE_ACK && last.id == BlockId(n)
                            && last.source != tid && socket.sendWorks(sends0 + n)
                         then [Error(ERROR_UNKNOWN_TID)] else []
  {
    hide DataPackets, BlockId, NumBlocks, RoundWorks, RoundsStop, GoesOut;
    if result {
      AllRoundsWork(fs, socket, reads0, sends0, received0, tid, file, n, sent0);
    } else {
      RoundsStopMeans(fs, socket, reads0, sends0, received0, tid, file, n, sent0, sent);
    }
  }

  /** What it means, in terms of the datagrams, that all rounds worked. */
  lemma AllRoundsWork(fs: FileSystem, socket: Socket, reads0: nat, sends0: nat, received0: nat, tid: Id, file: Bytes,
                      n: nat, sent0: seq<Packet>)
    requires n == NumBlocks(file)
    requires forall i: nat | i < n :: RoundWorks(fs, socket, reads0, sends0, received0, tid, i)
    ensures forall i: nat | i < n :: GoesOut(fs, socket, reads0, sends0, i)
    ensures var heard := socket.Heard(received0, received0 + n);
            && (forall i | 0 <= i < n ::
                  heard[i].Datagram? && heard[i].opcode == OPCODE_ACK && heard[i].id == BlockId(i + 1)
                  && heard[i].source == tid)
            && n > 0
            && var last := heard[n - 1];
               sent0 + DataPackets(file, n) == sent0 + DataPackets(file, n) + Told(socket, tid, n, last, sends0 + n)
  {
    hide DataPackets, BlockId, GoesOut, NumBlocks;
    StartsAtZero(file);
    var heard := socket.Heard(received0, received0 + n);
    forall i | 0 <= i < n
      ensures heard[i].Datagram? && heard[i].opcode == OPCODE_ACK && heard[i].id == BlockId(i + 1)
              && heard[i].source == tid && GoesOut(fs, socket, reads0, sends0, i)
    {
      assert RoundWorks(fs, socket, reads0, sends0, received0, tid, i);
    }
    assert heard[n - 1].source == tid;
    assert sent0 + DataPackets(file, n) + [] == sent0 + DataPackets(file, n);
  }

  /** What it means that the rounds stopped. */
  lemma RoundsStopMeans(fs: FileSystem, socket: Socket, reads0: nat, sends0: nat, received0: nat, tid: Id, file: Bytes,
                        n: nat, sent0: seq<Packet>, sent: seq<Packet>)
    requires n <= NumBlocks(file) && RoundsStop(fs, socket, reads0, sends0, received0, tid, file, n, sent0, sent)
    ensures forall i: nat | i < n :: GoesOut(fs, socket, reads0, sends0, i)
    ensures var heard := socket.Heard(received0, received0 + n);
            var last := if n > 0 then heard[n - 1] else Nothing;
            && (forall i | 0 <= i < n - 1 ::
                  heard[i].Datagram? && heard[i].opcode == OPCODE_ACK && heard[i].id == BlockId(i + 1)
                  && heard[i].source == tid)
            && (|| (n > 0 && !(last.Datagram? && last.opcode == OPCODE_ACK && last.id == BlockId(n)
                               && last.source == tid))
                || (n < NumBlocks(file) && !(fs.readWorks(reads0 + n) && socket.sendWorks(sends0 + n))))
            && sent == sent0 + DataPackets(file, n) + Told(socket, tid, n, last, sends0 + n)
  {
    hide DataPackets, BlockId, NumBlocks;
    var heard := socket.Heard(received0, received0 + n);
    if n > 0 {
      assert heard[n - 1] == socket.Incoming(received0 + n - 1);
      assert RoundWorks(fs, socket, reads0, sends0, received0, tid, n - 1)
        <==> GoesOut(fs, socket, reads0, sends0, n - 1) && IsAck(heard[n - 1], BlockId(n))
             && heard[n - 1].source == tid;
    }
    forall i | 0 <= i < n - 1
      ensures heard[i].Datagram? && heard[i].opcode == OPCODE_ACK && heard[i].id == BlockId(i + 1)
              && heard[i].source == tid
    {
      assert RoundWorks(fs, socket, reads0, sends0, received0, tid, i);
    }
  }

  // ---------------------------------------------------------------- writes

  /** A block of data, from whatever port. */
  predicate IsData(r: Reception) {
    r.Datagram? && r.opcode == OPCODE_DATA
  }

  lemma DataJudged(tid: Id, r: Reception)
    ensures W.Judge(tid, r) == W.Accept <==> IsData(r) && r.source == tid
    ensures W.Judge(tid, r) == W.RefuseStranger <==> IsData(r) && r.source != tid
  {
    W.JudgeMeans(tid, r);
  }

  /** What goes out in answer to a block that is not taken: a stranger is told so, and the client is
      told that the disk is full. */
  function Complaint(fs: FileSystem, socket: Socket, tid: Id, r: Reception, write: nat, send: nat): seq<Packet> {
    if !IsData(r) || !socket.sendWorks(send) then []
    else if r.source != tid then [Error(ERROR_UNKNOWN_TID)]
    else if |r.payload| > fs.room(write) && fs.full(write) then [Error(ERROR_DISK_FULL)]
    else []
  }

  /** Block i of a write transfer goes well: it comes from the client, is written, and is acknowledged. */
  ghost predicate BlockWorks(fs: FileSystem, socket: Socket, writes0: nat, sends0: nat, received0: nat, tid: Id, i: nat)
  {
    && IsData(socket.Incoming(received0 + i)) && socket.Incoming(received0 + i).source == tid
    && |socket.Incoming(received0 + i).payload| <= fs.room(writes0 + i)
    && socket.sendWorks(sends0 + i)
  }

  /** The first k blocks go well, and all of them are full, except the last one unless more follow. */
  ghost predicate BlocksWork(fs: FileSystem, socket: Socket, writes0: nat, sends0: nat, received0: nat, tid: Id,
                             k: nat, more: bool)
  {
    forall i: nat | i < k ::
      && BlockWorks(fs, socket, writes0, sends0, received0, tid, i)
      && (|socket.Incoming(received0 + i).payload| == BLOCK_SIZE <==> i + 1 < k || more)
  }

  ghost predicate CompleteAfter(fs: FileSystem, socket: Socket, writes0: nat, sends0: nat, received0: nat, tid: Id,
                                k: nat)
  {
    1 <= k && BlocksWork(fs, socket, writes0, sends0, received0, tid, k, false)
  }

  ghost predicate Completes(fs: FileSystem, socket: Socket, writes0: nat, sends0: nat, received0: nat, tid: Id) {
    exists k: nat :: CompleteAfter(fs, socket, writes0, sends0, received0, tid, k)
  }

  lemma BlocksWorkGrows(fs: FileSystem, socket: Socket, writes0: nat, sends0: nat, received0: nat, tid: Id, k: nat)
    requires BlocksWork(fs, socket, writes0, sends0, received0, tid, k, true)
    requires BlockWorks(fs, socket, writes0, sends0, received0, tid, k)
    ensures BlocksWork(fs, socket, writes0, sends0, received0, tid, k + 1,
                       |socket.Incoming(received0 + k).payload| == BLOCK_SIZE)
  {
  }

  /** A transfer does not complete if a block fails before the first short one. */
  lemma NeverCompletes(fs: FileSystem, socket: Socket, writes0: nat, sends0: nat, received0: nat, tid: Id, k: nat)
    requires BlocksWork(fs, socket, writes0, sends0, received0, tid, k, true)
    requires !BlockWorks(fs, socket, writes0, sends0, received0, tid, k)
    ensures !Completes(fs, socket, writes0, sends0, received0, tid)
  {
    forall m: nat ensures !CompleteAfter(fs, socket, writes0, sends0, received0, tid, m) {
      if m != 0 && m <= k {
        assert BlockWorks(fs, socket, writes0, sends0, received0, tid, m - 1);
      }
    }
  }

  function AcksFor(rs: seq<Reception>): seq<Packet>
    requires forall r | r in rs :: r.Datagram?
  {
    seq(|rs|, i requires 0 <= i < |rs| => Ack(rs[i].id))
  }

  function PayloadsOf(rs: seq<Reception>): seq<Bytes>
    requires forall r | r in rs :: r.Datagram?
  {
    seq(|rs|, i requires 0 <= i < |rs| => rs[i].payload)
  }

  ghost predicate IsSessionTrace(d0: D.Disk, path: D.Path, trace: seq<(D.Disk, D.Session)>, d: D.Disk, s: D.Session) {
    && trace != [] && trace[0] == (d0, D.Session(path, D.Starting, 0, [])) && trace[|trace| - 1] == (d, s)
    && forall i | 0 <= i < |trace| - 1 :: D.Move(trace[i].0, trace[i].1, trace[i + 1].0, trace[i + 1].1)
  }

  lemma SessionTraceGrows(d0: D.Disk, path: D.Path, trace: seq<(D.Disk, D.Session)>, d: D.Disk, s: D.Session,
                          d': D.Disk, s': D.Session)
    requires IsSessionTrace(d0, path, trace, d, s) && D.Move(d, s, d', s')
    ensures IsSessionTrace(d0, path, trace + [(d', s')], d', s')
  {
  }

  /** The acts are a run of the step relation's server that ends like this. */
  ghost predicate IsWriterRun(tid: Id, acts: seq<W.Act>, server: W.Server, sent: seq<Packet>, heard: seq<Reception>) {
    W.RunServer(tid, acts) == Some(W.ServerRun(server, sent, heard))
  }

  lemma WriterRunOn(tid: Id, acts: seq<W.Act>, server: W.Server, sent: seq<Packet>, heard: seq<Reception>, act: W.Act)
    requires IsWriterRun(tid, acts, server, sent, heard) && W.CanAct(server, act)
    ensures IsWriterRun(tid, acts + [act], W.ServerAfter(tid, server, act), sent + W.Sends(tid, act),
                        heard + W.Hears(act))
  {
    W.RunServerOn(tid, acts, W.ServerRun(server, sent, heard), act);
  }

  /** One iteration of the write handler's loop: what is received is checked for its opcode and its
      source, in this order, and then written and acknowledged. written is None if nothing was
      written; act is the act of the step relation's server. */
  method TakeBlock(fs: FileSystem, socket: Socket, inode: D.Inode, tid: Id)
    returns (r: Reception, written: Option<nat>, taken: bool, ghost act: W.Act)
    requires fs.Valid() && inode in fs.disk.inodes
    modifies fs`disk, fs`writeCalls, socket
    ensures fs.Valid()
    ensures r == socket.Incoming(old(socket.received)) && socket.received == old(socket.received) + 1
    ensures written == if IsData(r) && r.source == tid
                       then Some(Min(|r.payload|, fs.room(old(fs.writeCalls)))) else None
    ensures taken <==> IsData(r) && r.source == tid && |r.payload| <= fs.room(old(fs.writeCalls))
                       && socket.sendWorks(old(socket.sendCalls))
    ensures fs.disk == if written.None? then old(fs.disk) else
              old(fs.disk).(inodes := old(fs.disk.inodes)[
                                        inode := old(fs.disk.inodes)[inode] + r.payload[..written.value]])
    ensures act.Hear? && act.reception == r && (taken <==> W.Judge(tid, r) == W.Accept && act.fate == W.Acknowledged)
    ensures W.Sends(tid, act) == if taken then [Ack(r.id)]
                                 else Complaint(fs, socket, tid, r, old(fs.writeCalls), old(socket.sendCalls))
    ensures socket.sent == old(socket.sent) + W.Sends(tid, act)
    ensures taken ==> fs.writeCalls == old(fs.writeCalls) + 1 && socket.sendCalls == old(socket.sendCalls) + 1
  {
    written, taken := None, false;
    r := socket.Receive();
    DataJudged(tid, r);
    act := W.Hear(r, W.AckFails, false);
    if r == Nothing { return; }
    if r.opcode != OPCODE_DATA { return; }
    if r.source != tid {
      var told := socket.Send(Error(ERROR_UNKNOWN_TID));
      act := W.Hear(r, W.AckFails, told);
      return;
    }
    var isFull := fs.full(fs.writeCalls);
    var n := fs.Append(inode, r.payload);
    written := Some(n);
    if n != |r.payload| {
      var told := false;
      if isFull {
        told := socket.Send(Error(ERROR_DISK_FULL));
      }
      act := W.Hear(r, W.WriteFails(isFull), told);
      return;
    }
    taken := socket.Send(Ack(r.id));
    if taken {
      act := W.Hear(r, W.Acknowledged, false);
    }
  }

  /** A block taken: two moves of the session in the directory. */
  lemma TakenIsMoves(d0: D.Disk, path: D.Path, d: D.Disk, s: D.Session, d': D.Disk, payload: Bytes,
                     trace: seq<(D.Disk, D.Session)>)
    returns (trace': seq<(D.Disk, D.Session)>)
    requires s.phase == D.Receiving && s.inode in d.inodes && IsSessionTrace(d0, path, trace, d, s)
    requires |payload| <= BLOCK_SIZE
    requires d' == d.(inodes := d.inodes[s.inode := d.inodes[s.inode] + payload])
    ensures var phase := if |payload| == BLOCK_SIZE then D.Receiving else D.Succeeded;
            IsSessionTrace(d0, path, trace', d', s.(phase := phase, blocks := s.blocks + [payload]))
  {
    var w := s.(phase := D.Written, blocks := s.blocks + [payload]);
    assert payload[..|payload|] == payload;
    assert D.Appends(d, s, d', w, payload, |payload|);
    SessionTraceGrows(d0, path, trace, d, s, d', w);
    var s' := w.(phase := if |payload| == BLOCK_SIZE then D.Receiving else D.Succeeded);
    SessionTraceGrows(d0, path, trace + [(d', w)], d', w, d', s');
    trace' := trace + [(d', w)] + [(d', s')];
  }

  /** A block not taken: the session is about to delete its file. */
  lemma NotTakenIsMoves(d0: D.Disk, path: D.Path, d: D.Disk, s: D.Session, d': D.Disk, r: Reception,
                        written: Option<nat>, trace: seq<(D.Disk, D.Session)>)
    returns (trace': seq<(D.Disk, D.Session)>, s': D.Session)
    requires s.phase == D.Receiving && s.inode in d.inodes && IsSessionTrace(d0, path, trace, d, s)
    requires written.Some? ==> r.Datagram? && written.value <= |r.payload| <= BLOCK_SIZE
    requires d' == if written.None? then d
                   else d.(inodes := d.inodes[s.inode := d.inodes[s.inode] + r.payload[..written.value]])
    ensures IsSessionTrace(d0, path, trace', d', s') && s'.phase == D.Failing && s'.path == s.path
  {
    s' := s.(phase := D.Failing);
    if written.Some? && written.value == |r.payload| {
      var w := s.(phase := D.Written, blocks := s.blocks + [r.payload]);
      assert D.Appends(d, s, d', w, r.payload, written.value);
      SessionTraceGrows(d0, path, trace, d, s, d', w);
      s' := w.(phase := D.Failing);
      SessionTraceGrows(d0, path, trace + [(d', w)], d', w, d', s');
      trace' := trace + [(d', w)] + [(d', s')];
    } else {
      if written.Some? {
        assert D.Appends(d, s, d', s', r.payload, written.value);
      }
      SessionTraceGrows(d0, path, trace, d, s, d', s');
      trace' := trace + [(d', s')];
    }
  }

  /** What goes out while these receptions are taken one after the other. */
  function AllAcks(rs: seq<Reception>): seq<Packet>
    requires forall r | r in rs :: r.Datagram?
  {
    [Ack(0)] + AcksFor(rs)
  }

  /** The receptions rs were taken one after the other, and this is what they left behind. */
  ghost predicate Progress(d0: D.Disk, path: D.Path, tid: Id, inode: D.Inode, empty: D.Disk, d: D.Disk,
                           rs: seq<Reception>, phase: D.Phase, trace: seq<(D.Disk, D.Session)>, acts: seq<W.Act>)
  {
    && phase in {D.Receiving, D.Succeeded}
    && (forall r | r in rs :: r.Datagram?)
    && inode in d.inodes
    && d == empty.(inodes := empty.inodes[inode := Concat(PayloadsOf(rs))])
    && IsSessionTrace(d0, path, trace, d, D.Session(path, phase, inode, PayloadsOf(rs)))
    && IsWriterRun(tid, acts, W.Server(if phase == D.Succeeded then W.Done else W.Receiving,
                                       Some(d.inodes[inode]), |rs|), AllAcks(rs), rs)
  }

  lemma PayloadsGrow(rs: seq<Reception>, r: Reception)
    requires (forall q | q in rs :: q.Datagram?) && r.Datagram?
    ensures PayloadsOf(rs + [r]) == PayloadsOf(rs) + [r.payload]
    ensures Concat(PayloadsOf(rs + [r])) == Concat(PayloadsOf(rs)) + r.payload
  {
    assert PayloadsOf(rs + [r]) == PayloadsOf(rs) + [r.payload];
    ConcatAppend(PayloadsOf(rs), r.payload);
  }

  lemma AcksForGrow(rs: seq<Reception>, r: Reception)
    requires (forall q | q in rs :: q.Datagram?) && r.Datagram?
    ensures AcksFor(rs + [r]) == AcksFor(rs) + [Ack(r.id)]
  {
  }

  lemma FileGrows(empty: D.Disk, d: D.Disk, d': D.Disk, inode: D.Inode, content: Bytes, payload: Bytes)
    requires d == empty.(inodes := empty.inodes[inode := content])
    requires d' == d.(inodes := d.inodes[inode := content + payload])
    ensures d' == empty.(inodes := empty.inodes[inode := content + payload])
  {
  }

  lemma AckGoesOut(tid: Id, act: W.Act)
    requires act.Hear? && W.Judge(tid, act.reception) == W.Accept && act.fate == W.Acknowledged
    ensures W.Sends(tid, act) == [Ack(act.reception.id)]
  {
  }

  lemma ProgressTakes(d0: D.Disk, path: D.Path, tid: Id, inode: D.Inode, empty: D.Disk, d: D.Disk, d': D.Disk,
                      rs: seq<Reception>, act: W.Act, trace: seq<(D.Disk, D.Session)>, acts: seq<W.Act>)
    returns (trace': seq<(D.Disk, D.Session)>)
    requires Progress(d0, path, tid, inode, empty, d, rs, D.Receiving, trace, acts)
    requires act.Hear? && W.Judge(tid, act.reception) == W.Accept && act.fate == W.Acknowledged
    requires var r := act.reception;
             |r.payload| <= BLOCK_SIZE && d' == d.(inodes := d.inodes[inode := d.inodes[inode] + r.payload])
    ensures var r := act.reception;
            Progress(d0, path, tid, inode, empty, d', rs + [r],
                     if |r.payload| == BLOCK_SIZE then D.Receiving else D.Succeeded, trace', acts + [act])
  {
    hide IsSessionTrace, IsWriterRun, PayloadsOf, Concat, AcksFor, W.Sends;
    var r := act.reception;
    PayloadsGrow(rs, r);
    AcksForGrow(rs, r);
    FileGrows(empty, d, d', inode, Concat(PayloadsOf(rs)), r.payload);
    trace' := TakenIsMoves(d0, path, d, D.Session(path, D.Receiving, inode, PayloadsOf(rs)), d', r.payload, trace);
    assert AllAcks(rs + [r]) == AllAcks(rs) + [Ack(r.id)];
    AckGoesOut(tid, act);
    WriterRunOn(tid, acts, W.Server(W.Receiving, Some(d.inodes[inode]), |rs|), AllAcks(rs), rs, act);
  }

  /** The receptions rs were taken, then one was not; the session is about to delete its file. */
  ghost predicate Stopped(d0: D.Disk, path: D.Path, tid: Id, inode: D.Inode, empty: D.Disk, d: D.Disk,
                          rs: seq<Reception>, act: W.Act, last: D.Session, trace: seq<(D.Disk, D.Session)>,
                          acts: seq<W.Act>)
  {
    && (forall r | r in rs :: r.Datagram?)
    && d.names == empty.names
    && (forall n | n in empty.inodes && n != inode :: n in d.inodes && d.inodes[n] == empty.inodes[n])
    && last.phase == D.Failing && last.path == path && IsSessionTrace(d0, path, trace, d, last)
    && act.Hear? && (W.Judge(tid, act.reception) != W.Accept || act.fate != W.Acknowledged)
    && IsWriterRun(tid, acts, W.Server(W.Failed, None, |rs|), AllAcks(rs) + W.Sends(tid, act), rs + [act.reception])
  }

  lemma ProgressStops(d0: D.Disk, path: D.Path, tid: Id, inode: D.Inode, empty: D.Disk, d: D.Disk, d': D.Disk,
                      rs: seq<Reception>, act: W.Act, written: Option<nat>, trace: seq<(D.Disk, D.Session)>,
                      acts: seq<W.Act>)
    returns (last: D.Session, trace': seq<(D.Disk, D.Session)>)
    requires Progress(d0, path, tid, inode, empty, d, rs, D.Receiving, trace, acts)
    requires act.Hear? && (W.Judge(tid, act.reception) != W.Accept || act.fate != W.Acknowledged)
    requires written.Some? ==> act.reception.Datagram? && written.value <= |act.reception.payload| <= BLOCK_SIZE
    requires d' == if written.None? then d
                   else d.(inodes := d.inodes[inode := d.inodes[inode] + act.reception.payload[..written.value]])
    ensures Stopped(d0, path, tid, inode, empty, d', rs, act, last, trace', acts + [act])
  {
    hide IsSessionTrace, IsWriterRun;
    var s := D.Session(path, D.Receiving, inode, PayloadsOf(rs));
    trace', last := NotTakenIsMoves(d0, path, d, s, d', act.reception, written, trace);
    WriterRunOn(tid, acts, W.Server(W.Receiving, Some(d.inodes[inode]), |rs|), AllAcks(rs), rs, act);
  }

  /** Where the loop of the write handler begins: the session, and how far the calls have come. */
  datatype Opening = Opening(d0: D.Disk, path: D.Path, tid: Id, inode: D.Inode, at: Point)

  datatype Point = Point(disk: D.Disk, writes: nat, sends: nat, received: nat, sent: seq<Packet>)

  function Now(fs: FileSystem, socket: Socket): Point
    reads fs, socket
  {
    Point(fs.disk, fs.writeCalls, socket.sendCalls, socket.received, socket.sent)
  }

  /** The loop after the receptions rs were taken: all went well so far. */
  ghost predicate Loops(fs: FileSystem, socket: Socket, from: Opening, now: Point, rs: seq<Reception>, more: bool,
                        trace: seq<(D.Disk, D.Session)>, acts: seq<W.Act>)
  {
    && now.writes == from.at.writes + |rs| && now.sends == from.at.sends + |rs|
    && now.received == from.at.received + |rs| && rs == socket.Heard(from.at.received, now.received)
    && BlocksWork(fs, socket, from.at.writes, from.at.sends, from.at.received, from.tid, |rs|, more)
    && Progress(from.d0, from.path, from.tid, from.inode, from.at.disk, now.disk, rs,
                if more then D.Receiving else D.Succeeded, trace, acts)
    && now.sent == from.at.sent + AcksFor(rs) && (!more ==> |rs| > 0)
  }

  /** The loop has ended with an act that takes no block. */
  ghost predicate Stops(fs: FileSystem, socket: Socket, from: Opening, now: Point, rs: seq<Reception>, stop: W.Act,
                        last: D.Session, trace: seq<(D.Disk, D.Session)>, acts: seq<W.Act>)
  {
    && stop.Hear? && stop.reception == socket.Incoming(from.at.received + |rs|)
    && now.received == from.at.received + |rs| + 1 && rs == socket.Heard(from.at.received, from.at.received + |rs|)
    && BlocksWork(fs, socket, from.at.writes, from.at.sends, from.at.received, from.tid, |rs|, true)
    && !Completes(fs, socket, from.at.writes, from.at.sends, from.at.received, from.tid)
    && Stopped(from.d0, from.path, from.tid, from.inode, from.at.disk, now.disk, rs, stop, last, trace, acts)
    && now.sent == from.at.sent + AcksFor(rs) + W.Sends(from.tid, stop)
    && !BlockWorks(fs, socket, from.at.writes, from.at.sends, from.at.received, from.tid, |rs|)
    && W.Sends(from.tid, stop)
       == Complaint(fs, socket, from.tid, stop.reception, from.at.writes + |rs|, from.at.sends + |rs|)
  }

  lemma LoopTakes(fs: FileSystem, socket: Socket, from: Opening, now: Point, rs: seq<Reception>, act: W.Act,
                  trace: seq<(D.Disk, D.Session)>, acts: seq<W.Act>, d': D.Disk)
    returns (trace': seq<(D.Disk, D.Session)>)
    requires Loops(fs, socket, from, now, rs, true, trace, acts)
    requires act.Hear? && W.Judge(from.tid, act.reception) == W.Accept && act.fate == W.Acknowledged
    requires BlockWorks(fs, socket, from.at.writes, from.at.sends, from.at.received, from.tid, |rs|)
    requires var r := act.reception;
             && |r.payload| <= BLOCK_SIZE && r == socket.Incoming(now.received) && from.inode in now.disk.inodes
             && d' == now.disk.(inodes := now.disk.inodes[from.inode := now.disk.inodes[from.inode] + r.payload])
    ensures var r := act.reception;
            var now' := Point(d', now.writes + 1, now.sends + 1, now.received + 1,
                              now.sent + W.Sends(from.tid, act));
            Loops(fs, socket, from, now', rs + [r], |r.payload| == BLOCK_SIZE, trace', acts + [act])
  {
    hide BlockWorks, BlocksWork, Progress, IsSessionTrace, IsWriterRun, PayloadsOf, Concat, AllAcks, AcksFor;
    var r := act.reception;
    BlocksWorkGrows(fs, socket, from.at.writes, from.at.sends, from.at.received, from.tid, |rs|);
    trace' := ProgressTakes(from.d0, from.path, from.tid, from.inode, from.at.disk, now.disk, d', rs, act, trace, acts);
    HeardGrows(socket, from.at.received, now.received);
    AreDatagrams(from, now, rs, trace, acts);
    AcksForGrow(rs, r);
  }

  lemma AreDatagrams(from: Opening, now: Point, rs: seq<Reception>, trace: seq<(D.Disk, D.Session)>, acts: seq<W.Act>)
    requires Progress(from.d0, from.path, from.tid, from.inode, from.at.disk, now.disk, rs, D.Receiving, trace, acts)
    ensures from.inode in now.disk.inodes && forall r | r in rs :: r.Datagram?
  {
  }

  lemma LoopStops(fs: FileSystem, socket: Socket, from: Opening, now: Point, rs: seq<Reception>, act: W.Act,
                  written: Option<nat>, trace: seq<(D.Disk, D.Session)>, acts: seq<W.Act>, now': Point)
    returns (last: D.Session, trace': seq<(D.Disk, D.Session)>)
    requires Loops(fs, socket, from, now, rs, true, trace, acts)
    requires act.Hear? && (W.Judge(from.tid, act.reception) != W.Accept || act.fate != W.Acknowledged)
    requires !BlockWorks(fs, socket, from.at.writes, from.at.sends, from.at.received, from.tid, |rs|)
    requires written.Some? ==> act.reception.Datagram? && written.value <= |act.reception.payload| <= BLOCK_SIZE
    requires act.reception == socket.Incoming(now.received) && now'.received == now.received + 1
    requires now'.sent == now.sent + W.Sends(from.tid, act) && from.inode in now.disk.inodes
    requires W.Sends(from.tid, act) == Complaint(fs, socket, from.tid, act.reception, now.writes, now.sends)
    requires now'.disk == if written.None? then now.disk
                          else now.disk.(inodes := now.disk.inodes[from.inode := now.disk.inodes[from.inode]
                                                                    + act.reception.payload[..written.value]])
    ensures Stops(fs, socket, from, now', rs, act, last, trace', acts + [act])
  {
    hide BlockWorks, BlocksWork, Completes, Progress, Stopped, IsSessionTrace, IsWriterRun, PayloadsOf, Concat;
    hide AllAcks, AcksFor, W.Sends, Complaint;
    NeverCompletes(fs, socket, from.at.writes, from.at.sends, from.at.received, from.tid, |rs|);
    last, trace' := ProgressStops(from.d0, from.path, from.tid, from.inode, from.at.disk, now.disk, now'.disk, rs, act,
                                  written, trace, acts);
  }

  /** One iteration, as a part of the whole. */
  method ReceiveRound(fs: FileSystem, socket: Socket, inode: D.Inode, tid: Id, ghost from: Opening,
                      ghost before: seq<Reception>, ghost trace0: seq<(D.Disk, D.Session)>, ghost acts0: seq<W.Act>)
    returns (taken: bool, size: nat, ghost rs: seq<Reception>, ghost stop: W.Act, ghost last: D.Session,
             ghost trace: seq<(D.Disk, D.Session)>, ghost acts: seq<W.Act>)
    requires fs.Valid() && from.inode == inode && from.tid == tid
    requires forall r | r in socket.inbox && r.Datagram? :: |r.payload| <= BLOCK_SIZE
    requires Loops(fs, socket, from, Now(fs, socket), before, true, trace0, acts0)
    modifies fs`disk, fs`writeCalls, socket
    ensures fs.Valid() && socket.received == old(socket.received) + 1
    ensures taken ==>
              && old(socket.received) < |socket.inbox|
              && Loops(fs, socket, from, Now(fs, socket), rs, size == BLOCK_SIZE, trace, acts)
    ensures !taken ==> Stops(fs, socket, from, Now(fs, socket), rs, stop, last, trace, acts)
  {
    hide BlocksWork, Completes, Progress, IsSessionTrace, IsWriterRun, PayloadsOf, Concat, AllAcks, AcksFor, Stops;
    hide Stopped, W.Sends, Complaint;
    ghost var now := Now(fs, socket);
    AreDatagrams(from, now, before, trace0, acts0);
    var r, written;
    r, written, taken, stop := TakeBlock(fs, socket, inode, tid);
    rs, last, acts := before, D.Session(from.path, D.Succeeded, inode, []), acts0 + [stop];
    size := if r.Datagram? then |r.payload| else 0;
    if taken {
      assert r.payload[..|r.payload|] == r.payload;
      trace := LoopTakes(fs, socket, from, now, before, stop, trace0, acts0, fs.disk);
      rs := before + [r];
    } else {
      last, trace := LoopStops(fs, socket, from, now, before, stop, written, trace0, acts0, Now(fs, socket));
    }
  }

  lemma LoopBegins(fs: FileSystem, socket: Socket, from: Opening, trace: seq<(D.Disk, D.Session)>, acts: seq<W.Act>)
    requires Progress(from.d0, from.path, from.tid, from.inode, from.at.disk, from.at.disk, [], D.Receiving, trace,
                      acts)
    ensures Loops(fs, socket, from, from.at, [], true, trace, acts)
  {
    hide Progress;
    HeardGrows(socket, from.at.received, from.at.received);
  }

  lemma LoopCompletes(fs: FileSystem, socket: Socket, from: Opening, now: Point, rs: seq<Reception>,
                      trace: seq<(D.Disk, D.Session)>, acts: seq<W.Act>)
    requires Loops(fs, socket, from, now, rs, false, trace, acts)
    ensures CompleteAfter(fs, socket, from.at.writes, from.at.sends, from.at.received, from.tid, |rs|)
    ensures Completes(fs, socket, from.at.writes, from.at.sends, from.at.received, from.tid)
  {
    hide BlocksWork;
  }

  /** The blocks of a write transfer, once the file is open and the opening acknowledgment sent.
      rs are the blocks taken; on failure, stop is the act that ended the loop. */
  method ReceiveFile(fs: FileSystem, socket: Socket, inode: D.Inode, tid: Id, ghost from: Opening,
                     ghost trace0: seq<(D.Disk, D.Session)>, ghost acts0: seq<W.Act>)
    returns (result: bool, ghost rs: seq<Reception>, ghost stop: W.Act, ghost last: D.Session,
             ghost trace: seq<(D.Disk, D.Session)>, ghost acts: seq<W.Act>)
    requires fs.Valid() && from.inode == inode && from.tid == tid && from.at == Now(fs, socket)
    requires forall r | r in socket.inbox && r.Datagram? :: |r.payload| <= BLOCK_SIZE
    requires Progress(from.d0, from.path, tid, inode, fs.disk, fs.disk, [], D.Receiving, trace0, acts0)
    modifies fs`disk, fs`writeCalls, socket
    ensures fs.Valid()
    ensures result <==> Completes(fs, socket, from.at.writes, from.at.sends, from.at.received, tid)
    ensures result ==>
              && CompleteAfter(fs, socket, from.at.writes, from.at.sends, from.at.received, tid, |rs|)
              && Loops(fs, socket, from, Now(fs, socket), rs, false, trace, acts)
    ensures !result ==> Stops(fs, socket, from, Now(fs, socket), rs, stop, last, trace, acts)
  {
    hide Loops, Stops, Completes, CompleteAfter, Progress;
    var more := true;
    rs, trace, acts := [], trace0, acts0;
    last, stop := D.Session(from.path, D.Succeeded, inode, []), W.Create;
    LoopBegins(fs, socket, from, trace, acts);
    while more
      invariant fs.Valid() && Loops(fs, socket, from, Now(fs, socket), rs, more, trace, acts)
      decreases |socket.inbox| - socket.received, more
    {
      var taken, size;
      taken, size, rs, stop, last, trace, acts := ReceiveRound(fs, socket, inode, tid, from, rs, trace, acts);
      if !taken {
        StopsIncomplete(fs, socket, from, Now(fs, socket), rs, stop, last, trace, acts);
        return false, rs, stop, last, trace, acts;
      }
      more := size == BLOCK_SIZE;
    }
    LoopCompletes(fs, socket, from, Now(fs, socket), rs, trace, acts);
    result := true;
  }

  lemma StopsIncomplete(fs: FileSystem, socket: Socket, from: Opening, now: Point, rs: seq<Reception>, stop: W.Act,
                        last: D.Session, trace: seq<(D.Disk, D.Session)>, acts: seq<W.Act>)
    requires Stops(fs, socket, from, now, rs, stop, last, trace, acts)
    ensures !Completes(fs, socket, from.at.writes, from.at.sends, from.at.received, from.tid)
  {
    hide Stopped, Completes, BlocksWork;
  }

  /** The start of the write handler: the file is created and the opening acknowledgment sent. */
  method Greet(fs: FileSystem, socket: Socket, path: D.Path, tid: Id)
    returns (inode: Option<D.Inode>, greeted: bool, ghost last: D.Session,
             ghost trace: seq<(D.Disk, D.Session)>, ghost acts: seq<W.Act>)
    requires fs.Valid()
    modifies fs`disk, fs`next, socket`sendCalls, socket`sent
    ensures fs.Valid()
    ensures inode.Some? <==> path !in old(fs.disk.names) && fs.permits(path)
    ensures greeted <==> inode.Some? && socket.sendWorks(old(socket.sendCalls))
    ensures inode.Some? ==> inode.value !in old(fs.disk.inodes)
    ensures fs.disk == if inode.None? then old(fs.disk) else
              D.Disk(old(fs.disk.names)[path := inode.value], old(fs.disk.inodes)[inode.value := []])
    ensures socket.sendCalls == old(socket.sendCalls) + 1
    ensures last == (if inode.None? then D.Session(path, D.Refused, 0, [])
                     else D.Session(path, if greeted then D.Receiving else D.LeftEmpty, inode.value, []))
    ensures IsSessionTrace(old(fs.disk), path, trace, fs.disk, last)
    ensures var code := if path in old(fs.disk.names) then ERROR_FILE_EXISTS else ERROR_ACCESS_VIOLATION;
            var out := if !socket.sendWorks(old(socket.sendCalls)) then []
                       else if inode.None? then [Error(code)] else [Ack(0)];
            && (inode.None? ==> fs.disk == old(fs.disk) && socket.sent == old(socket.sent) + out)
            && (inode.Some? && !greeted ==> socket.sent == old(socket.sent))
            && (greeted ==> socket.sent == old(socket.sent) + [Ack(0)])
            && IsWriterRun(tid, acts, if inode.None? then W.Server(W.Failed, None, 0)
                                      else W.Server(if greeted then W.Receiving else W.Abandoned, Some([]), 0), out, [])
  {
    hide IsSessionTrace, IsWriterRun;
    ghost var d0 := fs.disk;
    inode := fs.Create(path);
    greeted := false;
    if inode.None? {
      var code := if path in fs.disk.names then ERROR_FILE_EXISTS else ERROR_ACCESS_VIOLATION;
      var told := socket.Send(Error(code));
      acts := [W.BeRefused(if told then Some(code) else None)];
      last, trace := RefusedTrace(d0, path);
      RefusedRun(tid, if told then Some(code) else None);
    } else {
      greeted := socket.Send(Ack(0));
      last := D.Session(path, if greeted then D.Receiving else D.LeftEmpty, inode.value, []);
      trace := CreatedTrace(d0, path, fs.disk, last);
      acts := [W.Create] + [if greeted then W.Open else W.Abandon];
      CreatedRun(tid, if greeted then W.Open else W.Abandon);
    }
  }

  lemma TraceBegins(d0: D.Disk, path: D.Path)
    ensures var s := D.Session(path, D.Starting, 0, []); IsSessionTrace(d0, path, [(d0, s)], d0, s)
  {
  }

  lemma RefusedTrace(d0: D.Disk, path: D.Path) returns (last: D.Session, trace: seq<(D.Disk, D.Session)>)
    ensures last == D.Session(path, D.Refused, 0, []) && IsSessionTrace(d0, path, trace, d0, last)
  {
    hide IsSessionTrace;
    var s := D.Session(path, D.Starting, 0, []);
    last := s.(phase := D.Refused);
    trace := [(d0, s)] + [(d0, last)];
    TraceBegins(d0, path);
    SessionTraceGrows(d0, path, [(d0, s)], d0, s, d0, last);
  }

  lemma CreatedTrace(d0: D.Disk, path: D.Path, d: D.Disk, last: D.Session) returns (trace: seq<(D.Disk, D.Session)>)
    requires path !in d0.names && last.inode !in d0.inodes
    requires d == D.Disk(d0.names[path := last.inode], d0.inodes[last.inode := []])
    requires last == D.Session(path, last.phase, last.inode, []) && last.phase in {D.Receiving, D.LeftEmpty}
    ensures IsSessionTrace(d0, path, trace, d, last)
  {
    hide IsSessionTrace;
    var s, created := D.Session(path, D.Starting, 0, []), last.(phase := D.Created);
    assert D.Creates(d0, s, d, created);
    TraceBegins(d0, path);
    SessionTraceGrows(d0, path, [(d0, s)], d0, s, d, created);
    SessionTraceGrows(d0, path, [(d0, s)] + [(d, created)], d, created, d, last);
    trace := [(d0, s)] + [(d, created)] + [(d, last)];
  }

  lemma RefusedRun(tid: Id, code: Option<nat>)
    ensures IsWriterRun(tid, [W.BeRefused(code)], W.Server(W.Failed, None, 0),
                        if code.Some? then [Error(code.value)] else [], [])
  {
    assert IsWriterRun(tid, [], W.START, [], []);
    WriterRunOn(tid, [], W.START, [], [], W.BeRefused(code));
    assert [] + [W.BeRefused(code)] == [W.BeRefused(code)];
    assert [] + W.Sends(tid, W.BeRefused(code)) == if code.Some? then [Error(code.value)] else [];
    assert [] + W.Hears(W.BeRefused(code)) == [];
  }

  lemma CreatedRun(tid: Id, act: W.Act)
    requires act in {W.Open, W.Abandon}
    ensures IsWriterRun(tid, [W.Create] + [act],
                        W.Server(if act == W.Open then W.Receiving else W.Abandoned, Some([]), 0),
                        if act == W.Open then [Ack(0)] else [], [])
  {
    assert IsWriterRun(tid, [], W.START, [], []);
    WriterRunOn(tid, [], W.START, [], [], W.Create);
    assert [] + [W.Create] == [W.Create];
    WriterRunOn(tid, [W.Create], W.Server(W.Created, Some([]), 0), [], [], act);
    assert [] + W.Sends(tid, act) == W.Sends(tid, act);
  }

  /** path names a file of its own with this content, beside what was on the disk before. */
  ghost predicate AddsFile(before: D.Disk, after: D.Disk, path: D.Path, content: Bytes) {
    && path !in before.names && path in after.names
    && after.names == before.names[path := after.names[path]]
    && after.names[path] !in before.inodes && after.names[path] in after.inodes
    && after.inodes[after.names[path]] == content
  }

  /** What a write handler did to its socket is this run of the step relation's server. */
  ghost predicate WritesAs(tid: Id, acts: seq<W.Act>, server: W.Server, sent0: seq<Packet>, sent: seq<Packet>,
                           heard: seq<Reception>)
  {
    exists out: seq<Packet> :: sent == sent0 + out && IsWriterRun(tid, acts, server, out, heard)
  }

  lemma WritesAsThis(tid: Id, acts: seq<W.Act>, server: W.Server, sent0: seq<Packet>, out: seq<Packet>,
                     heard: seq<Reception>)
    requires IsWriterRun(tid, acts, server, out, heard)
    ensures WritesAs(tid, acts, server, sent0, sent0 + out, heard)
  {
  }

  /** The file that a session has at its path, unless the path was taken before. */
  function OwnFile(before: D.Disk, after: D.Disk, path: D.Path): Option<Bytes>
    requires D.WellFormed(after)
  {
    if path !in before.names && path in after.names then Some(after.inodes[after.names[path]]) else None
  }

  /** The files that were there keep their content. */
  ghost predicate KeepsFiles(before: D.Disk, after: D.Disk) {
    forall n | n in before.inodes :: n in after.inodes && after.inodes[n] == before.inodes[n]
  }

  /** A call of the write handler is the whole of a session in the shared directory, and a run of the
      step relation's server: it sent and heard the same, and has the same file. */
  ghost predicate IsWholeSession(d0: D.Disk, d: D.Disk, path: D.Path, tid: Id, result: bool, taken: nat,
                                 server: W.Server, last: D.Session, trace: seq<(D.Disk, D.Session)>, acts: seq<W.Act>,
                                 sent0: seq<Packet>, sent: seq<Packet>, heard: seq<Reception>)
    requires D.WellFormed(d)
  {
    && KeepsFiles(d0, d)
    && IsSessionTrace(d0, path, trace, d, last)
    && (last.phase == D.Succeeded <==> result) && D.HasEnded(last.phase)
    && WritesAs(tid, acts, server, sent0, sent, heard)
    && (server.phase == W.Done <==> result) && server.phase in {W.Done, W.Failed, W.Abandoned}
    && server.taken == taken && server.file == OwnFile(d0, d, path)
  }

  /** The file has just been created and greeted with the opening acknowledgment. */
  ghost predicate IsOpening(from: Opening, sent0: seq<Packet>) {
    && D.WellFormed(from.d0) && from.path !in from.d0.names && from.inode !in from.d0.inodes
    && from.at.disk == D.Disk(from.d0.names[from.path := from.inode], from.d0.inodes[from.inode := []])
    && from.at.sent == sent0 + [Ack(0)]
  }

  /** The file of a session that succeeds. */
  lemma FileKept(fs: FileSystem, socket: Socket, from: Opening, now: Point, rs: seq<Reception>,
                 trace: seq<(D.Disk, D.Session)>, acts: seq<W.Act>, sent0: seq<Packet>)
    requires IsOpening(from, sent0) && Loops(fs, socket, from, now, rs, false, trace, acts) && D.WellFormed(now.disk)
    ensures now.received == from.at.received + |rs| && rs == socket.Heard(from.at.received, now.received)
    ensures (forall r | r in rs :: r.Datagram?) && now.sent == sent0 + AllAcks(rs)
    ensures forall i | 0 <= i < |rs| :: rs[i].opcode == OPCODE_DATA && rs[i].source == from.tid
                                        && (|rs[i].payload| == BLOCK_SIZE <==> i + 1 < |rs|)
    ensures AddsFile(from.d0, now.disk, from.path, Concat(PayloadsOf(rs))) && KeepsFiles(from.d0, now.disk)
    ensures IsSessionTrace(from.d0, from.path, trace, now.disk,
                           D.Session(from.path, D.Succeeded, from.inode, PayloadsOf(rs)))
    ensures WritesAs(from.tid, acts, W.Server(W.Done, OwnFile(from.d0, now.disk, from.path), |rs|), sent0, now.sent,
                     socket.Heard(from.at.received, now.received))
  {
    hide IsSessionTrace, IsWriterRun, WritesAs, BlocksWork, PayloadsOf, Concat;
    WritesAsThis(from.tid, acts, W.Server(W.Done, OwnFile(from.d0, now.disk, from.path), |rs|), sent0, AllAcks(rs), rs);
    assert now.sent == sent0 + AllAcks(rs);
    BlocksAreData(fs, socket, from, now.received, rs, false);
  }

  /** The blocks taken, as datagrams. */
  lemma BlocksAreData(fs: FileSystem, socket: Socket, from: Opening, received: nat, rs: seq<Reception>, more: bool)
    requires received == from.at.received + |rs| && rs == socket.Heard(from.at.received, received)
    requires BlocksWork(fs, socket, from.at.writes, from.at.sends, from.at.received, from.tid, |rs|, more)
    ensures forall i | 0 <= i < |rs| ::
              rs[i].Datagram? && rs[i].opcode == OPCODE_DATA && rs[i].source == from.tid
              && (|rs[i].payload| == BLOCK_SIZE <==> i + 1 < |rs| || more)
  {
    forall i | 0 <= i < |rs|
      ensures rs[i].Datagram? && rs[i].opcode == OPCODE_DATA && rs[i].source == from.tid
              && (|rs[i].payload| == BLOCK_SIZE <==> i + 1 < |rs| || more)
    {
      assert BlockWorks(fs, socket, from.at.writes, from.at.sends, from.at.received, from.tid, i);
    }
  }

  /** A session that fails deletes its file. */
  lemma FileDropped(fs: FileSystem, socket: Socket, from: Opening, now: Point, rs: seq<Reception>, stop: W.Act,
                    last: D.Session, trace: seq<(D.Disk, D.Session)>, acts: seq<W.Act>, sent0: seq<Packet>, d': D.Disk)
    requires IsOpening(from, sent0) && Stops(fs, socket, from, now, rs, stop, last, trace, acts)
    requires d' == now.disk.(names := now.disk.names - {from.path}) && D.WellFormed(d')
    ensures now.received == from.at.received + |rs| + 1 && rs == socket.Heard(from.at.received, from.at.received + |rs|)
    ensures forall r | r in rs :: r.Datagram?
    ensures forall i | 0 <= i < |rs| :: rs[i].opcode == OPCODE_DATA && rs[i].source == from.tid
                                        && |rs[i].payload| == BLOCK_SIZE
    ensures !BlockWorks(fs, socket, from.at.writes, from.at.sends, from.at.received, from.tid, |rs|)
    ensures now.sent == sent0 + AllAcks(rs)
                        + Complaint(fs, socket, from.tid, socket.Incoming(from.at.received + |rs|),
                                    from.at.writes + |rs|, from.at.sends + |rs|)
    ensures d'.names == from.d0.names && KeepsFiles(from.d0, d')
    ensures var last' := last.(phase := D.Discarded);
            IsSessionTrace(from.d0, from.path, trace + [(d', last')], d', last')
    ensures WritesAs(from.tid, acts, W.Server(W.Failed, OwnFile(from.d0, d', from.path), |rs|), sent0, now.sent,
                     socket.Heard(from.at.received, now.received))
  {
    hide IsSessionTrace, IsWriterRun, WritesAs, BlocksWork, BlockWorks, Completes, W.Sends, AcksFor, Complaint;
    BlocksAreData(fs, socket, from, from.at.received + |rs|, rs, true);
    SessionTraceGrows(from.d0, from.path, trace, now.disk, last, d', last.(phase := D.Discarded));
    HeardGrows(socket, from.at.received, from.at.received + |rs|);
    StoppedRun(from.tid, rs, stop, sent0, now.sent, acts);
  }

  lemma StoppedRun(tid: Id, rs: seq<Reception>, stop: W.Act, sent0: seq<Packet>, sent: seq<Packet>, acts: seq<W.Act>)
    requires (forall r | r in rs :: r.Datagram?) && stop.Hear?
    requires sent == sent0 + [Ack(0)] + AcksFor(rs) + W.Sends(tid, stop)
    requires IsWriterRun(tid, acts, W.Server(W.Failed, None, |rs|), AllAcks(rs) + W.Sends(tid, stop),
                         rs + [stop.reception])
    ensures sent == sent0 + AllAcks(rs) + W.Sends(tid, stop)
    ensures WritesAs(tid, acts, W.Server(W.Failed, None, |rs|), sent0, sent, rs + [stop.reception])
  {
    hide IsWriterRun, WritesAs, W.Sends, AcksFor;
    var out := AllAcks(rs) + W.Sends(tid, stop);
    WritesAsThis(tid, acts, W.Server(W.Failed, None, |rs|), sent0, out, rs + [stop.reception]);
    assert sent == sent0 + out && sent0 + out == sent0 + AllAcks(rs) + W.Sends(tid, stop);
  }

  /** The rest of the write handler: without success the file is deleted. */
  method ReceiveOrDiscard(fs: FileSystem, socket: Socket, inode: D.Inode, tid: Id, path: D.Path, ghost from: Opening,
                          ghost sent0: seq<Packet>, ghost trace0: seq<(D.Disk, D.Session)>, ghost acts0: seq<W.Act>)
    returns (result: bool, ghost rs: seq<Reception>, ghost server: W.Server, ghost last: D.Session,
             ghost trace: seq<(D.Disk, D.Session)>, ghost acts: seq<W.Act>)
    requires fs.Valid() && from == Opening(from.d0, path, tid, inode, Now(fs, socket)) && IsOpening(from, sent0)
    requires forall r | r in socket.inbox && r.Datagram? :: |r.payload| <= BLOCK_SIZE
    requires Progress(from.d0, path, tid, inode, fs.disk, fs.disk, [], D.Receiving, trace0, acts0)
    modifies fs`disk, fs`writeCalls, socket
    ensures fs.Valid() && from.at.received <= socket.received
    ensures result <==> Completes(fs, socket, from.at.writes, from.at.sends, from.at.received, tid)
    ensures rs == socket.Heard(from.at.received, from.at.received + |rs|) && forall r | r in rs :: r.Datagram?
    ensures result ==>
              && CompleteAfter(fs, socket, from.at.writes, from.at.sends, from.at.received, tid, |rs|)
              && socket.received == from.at.received + |rs|
              && socket.sent == sent0 + [Ack(0)] + AcksFor(rs)
              && AddsFile(from.d0, fs.disk, path, Concat(PayloadsOf(rs)))
    ensures !result ==>
              var r := socket.Incoming(from.at.received + |rs|);
              var write, send := from.at.writes + |rs|, from.at.sends + |rs|;
              && fs.disk.names == from.d0.names && socket.received == from.at.received + |rs| + 1
              && !(r.Datagram? && r.opcode == OPCODE_DATA && r.source == tid && |r.payload| <= fs.room(write)
                   && socket.sendWorks(send))
              && socket.sent == sent0 + [Ack(0)] + AcksFor(rs)
                                + if !r.Datagram? || r.opcode != OPCODE_DATA || !socket.sendWorks(send) then []
                                  else if r.source != tid then [Error(ERROR_UNKNOWN_TID)]
                                  else if |r.payload| > fs.room(write) && fs.full(write) then [Error(ERROR_DISK_FULL)]
                                  else []
    ensures forall i | 0 <= i < |rs| :: rs[i].opcode == OPCODE_DATA && rs[i].source == tid
                                        && (|rs[i].payload| == BLOCK_SIZE <==> i + 1 < |rs| || !result)
    ensures IsWholeSession(from.d0, fs.disk, path, tid, result, |rs|, server, last, trace, acts, sent0, socket.sent,
                           socket.Heard(from.at.received, socket.received))
  {
    hide IsOpening, IsSessionTrace, IsWriterRun, WritesAs, Completes, CompleteAfter, PayloadsOf, AllAcks, AcksFor;
    hide Concat, Progress, Loops, Stops, AddsFile, KeepsFiles, OwnFile, BlockWorks, Complaint;
    ghost var stop;
    result, rs, stop, last, trace, acts := ReceiveFile(fs, socket, inode, tid, from, trace0, acts0);
    if result {
      FileKept(fs, socket, from, Now(fs, socket), rs, trace, acts, sent0);
      last := D.Session(path, D.Succeeded, inode, PayloadsOf(rs));
    } else {
      ghost var now := Now(fs, socket);
      fs.Unlink(path);
      FileDropped(fs, socket, from, now, rs, stop, last, trace, acts, sent0, fs.disk);
      last := last.(phase := D.Discarded);
      trace := trace + [(fs.disk, last)];
    }
    AcksInAll(sent0, rs);
    ComplaintMeans(fs, socket, tid, from, socket.Incoming(from.at.received + |rs|), |rs|);
    server := W.Server(if result then W.Done else W.Failed, OwnFile(from.d0, fs.disk, path), |rs|);
  }

  /** The write handler. It succeeds exactly when the file is new and may be created, the opening
      acknowledgment goes out, and all blocks up to the first short one go well; then the file holds
      those blocks and each got its acknowledgment. Otherwise no name is left behind, except for an
      empty file when the opening acknowledgment could not be sent. rs are the blocks taken. What was
      sent, heard and stored is a run of the server of the write transfer, and the trace is one of the
      session in the shared directory. */
  method HandleWrq(fs: FileSystem, socket: Socket, path: D.Path, tid: Id)
    returns (result: bool, ghost rs: seq<Reception>, ghost server: W.Server, ghost last: D.Session,
             ghost trace: seq<(D.Disk, D.Session)>, ghost acts: seq<W.Act>)
    requires fs.Valid()
    requires forall r | r in socket.inbox && r.Datagram? :: |r.payload| <= BLOCK_SIZE
    modifies fs`disk, fs`next, fs`writeCalls, socket
    ensures fs.Valid()
    ensures result <==>
              && path !in old(fs.disk.names) && fs.permits(path) && socket.sendWorks(old(socket.sendCalls))
              && Completes(fs, socket, old(fs.writeCalls), old(socket.sendCalls) + 1, old(socket.received), tid)
    ensures rs == socket.Heard(old(socket.received), old(socket.received) + |rs|) && forall r | r in rs :: r.Datagram?
    ensures result ==>
              && CompleteAfter(fs, socket, old(fs.writeCalls), old(socket.sendCalls) + 1, old(socket.received), tid,
                               |rs|)
              && socket.received == old(socket.received) + |rs|
              && socket.sent == old(socket.sent) + [Ack(0)] + AcksFor(rs)
              && AddsFile(old(fs.disk), fs.disk, path, Concat(PayloadsOf(rs)))
    ensures forall i | 0 <= i < |rs| :: rs[i].opcode == OPCODE_DATA && rs[i].source == tid
                                        && (|rs[i].payload| == BLOCK_SIZE <==> i + 1 < |rs| || !result)
    ensures path in old(fs.disk.names) || !fs.permits(path) ==>
              var code := if path in old(fs.disk.names) then ERROR_FILE_EXISTS else ERROR_ACCESS_VIOLATION;
              && fs.disk == old(fs.disk) && rs == [] && socket.received == old(socket.received)
              && socket.sent == old(socket.sent) + if socket.sendWorks(old(socket.sendCalls)) then [Error(code)] else []
    ensures path !in old(fs.disk.names) && fs.permits(path) && !socket.sendWorks(old(socket.sendCalls)) ==>
              && AddsFile(old(fs.disk), fs.disk, path, []) && rs == []
              && socket.received == old(socket.received) && socket.sent == old(socket.sent)
    ensures path !in old(fs.disk.names) && fs.permits(path) && socket.sendWorks(old(socket.sendCalls)) && !result ==>
              var r := socket.Incoming(old(socket.received) + |rs|);
              var write, send := old(fs.writeCalls) + |rs|, old(socket.sendCalls) + 1 + |rs|;
              && fs.disk.names == old(fs.disk.names) && socket.received == old(socket.received) + |rs| + 1
              && !(r.Datagram? && r.opcode == OPCODE_DATA && r.source == tid && |r.payload| <= fs.room(write)
                   && socket.sendWorks(send))
              && socket.sent == old(socket.sent) + [Ack(0)] + AcksFor(rs)
                                + if !r.Datagram? || r.opcode != OPCODE_DATA || !socket.sendWorks(send) then []
                                  else if r.source != tid then [Error(ERROR_UNKNOWN_TID)]
                                  else if |r.payload| > fs.room(write) && fs.full(write) then [Error(ERROR_DISK_FULL)]
                                  else []
    ensures old(socket.received) <= socket.received
    ensures IsWholeSession(old(fs.disk), fs.disk, path, tid, result, |rs|, server, last, trace, acts, old(socket.sent),
                           socket.sent, socket.Heard(old(socket.received), socket.received))
  {
    hide IsOpening, IsSessionTrace, IsWriterRun, WritesAs, Completes, CompleteAfter, PayloadsOf, AcksFor, Concat;
    hide Progress, OwnFile, KeepsFiles, AddsFile, BlockWorks, Complaint, W.ServerAfter, W.Sends, AllAcks, D.Move;
    hide D.WellFormed, FileSystem.Valid, IsWholeSession;
    ghost var d0, sent0 := fs.disk, socket.sent;
    IsWellFormed(fs);
    ghost var code := if path in d0.names then ERROR_FILE_EXISTS else ERROR_ACCESS_VIOLATION;
    ghost var out := if socket.sendWorks(socket.sendCalls) then [Error(code)] else [];
    assert sent0 + [] == sent0;
    var inode, greeted;
    rs := [];
    inode, greeted, last, trace, acts := Greet(fs, socket, path, tid);
    IsWellFormed(fs);
    if greeted {
      ghost var from := Opening(d0, path, tid, inode.value, Now(fs, socket));
      GreetedOpens(from, sent0, trace, acts);
      result, rs, server, last, trace, acts :=
        ReceiveOrDiscard(fs, socket, inode.value, tid, path, from, sent0, trace, acts);
    } else {
      HeardGrows(socket, socket.received, socket.received);
      result := false;
      server := if inode.None? then W.Server(W.Failed, None, 0) else W.Server(W.Abandoned, Some([]), 0);
      NotGreeted(path, tid, d0, fs.disk, inode, server, last, trace, sent0,
                 if inode.None? then out else [], acts);
    }
  }

  /** What stopped the loop, and what was said about it. */
  lemma ComplaintMeans(fs: FileSystem, socket: Socket, tid: Id, from: Opening, r: Reception, k: nat)
    requires r == socket.Incoming(from.at.received + k)
    ensures BlockWorks(fs, socket, from.at.writes, from.at.sends, from.at.received, tid, k)
       <==> r.Datagram? && r.opcode == OPCODE_DATA && r.source == tid && |r.payload| <= fs.room(from.at.writes + k)
            && socket.sendWorks(from.at.sends + k)
    ensures Complaint(fs, socket, tid, r, from.at.writes + k, from.at.sends + k)
         == if !r.Datagram? || r.opcode != OPCODE_DATA || !socket.sendWorks(from.at.sends + k) then []
            else if r.source != tid then [Error(ERROR_UNKNOWN_TID)]
            else if |r.payload| > fs.room(from.at.writes + k) && fs.full(from.at.writes + k)
            then [Error(ERROR_DISK_FULL)]
            else []
  {
  }

  lemma IsWellFormed(fs: FileSystem)
    requires fs.Valid()
    ensures D.WellFormed(fs.disk)
  {
  }

  /** A write handler that does not come to its loop. */
  lemma NotGreeted(path: D.Path, tid: Id, d0: D.Disk, d: D.Disk, inode: Option<D.Inode>, server: W.Server,
                   last: D.Session, trace: seq<(D.Disk, D.Session)>, sent0: seq<Packet>, out: seq<Packet>,
                   acts: seq<W.Act>)
    requires D.WellFormed(d) && (inode.Some? ==> path !in d0.names && inode.value !in d0.inodes)
    requires d == if inode.None? then d0
                  else D.Disk(d0.names[path := inode.value], d0.inodes[inode.value := []])
    requires IsWriterRun(tid, acts, server, out, []) && IsSessionTrace(d0, path, trace, d, last)
    requires server == if inode.None? then W.Server(W.Failed, None, 0) else W.Server(W.Abandoned, Some([]), 0)
    requires last.phase in {D.Refused, D.LeftEmpty}
    ensures inode.Some? ==> AddsFile(d0, d, path, [])
    ensures IsWholeSession(d0, d, path, tid, false, 0, server, last, trace, acts, sent0, sent0 + out, [])
  {
    hide IsWriterRun, IsSessionTrace, WritesAs;
    WritesAsThis(tid, acts, server, sent0, out, []);
  }

  /** One that comes to its loop. */
  lemma GreetedOpens(from: Opening, sent0: seq<Packet>, trace: seq<(D.Disk, D.Session)>, acts: seq<W.Act>)
    requires D.WellFormed(from.d0) && from.path !in from.d0.names && from.inode !in from.d0.inodes
    requires from.at.disk == D.Disk(from.d0.names[from.path := from.inode], from.d0.inodes[from.inode := []])
    requires from.at.sent == sent0 + [Ack(0)]
    requires IsSessionTrace(from.d0, from.path, trace, from.at.disk, D.Session(from.path, D.Receiving, from.inode, []))
    requires IsWriterRun(from.tid, acts, W.Server(W.Receiving, Some([]), 0), [Ack(0)], [])
    ensures IsOpening(from, sent0)
    ensures Progress(from.d0, from.path, from.tid, from.inode, from.at.disk, from.at.disk, [], D.Receiving, trace, acts)
  {
    hide IsSessionTrace, IsWriterRun;
    NothingTaken();
    assert from.at.disk == from.at.disk.(inodes := from.at.disk.inodes[from.inode := []]);
  }

  lemma AcksInAll(sent0: seq<Packet>, rs: seq<Reception>)
    requires forall r | r in rs :: r.Datagram?
    ensures sent0 + AllAcks(rs) == sent0 + [Ack(0)] + AcksFor(rs)
  {
  }

  lemma NothingTaken()
    ensures AcksFor([]) == [] && AllAcks([]) == [Ack(0)] && PayloadsOf([]) == [] && Concat([]) == []
  {
  }
}
