/** Write sessions forked by tftpd.c share one directory. Files are modelled by inode, since the
    server writes through a descriptor but deletes by name. */
module SharedDirectory {
  import opened Tftp

  type Path = string
  type Inode = nat

  datatype Disk = Disk(names: map<Path, Inode>, inodes: map<Inode, Bytes>)

  /** Written: a block is on disk, its acknowledgment is not sent yet. Failing: about to delete. */
  datatype Phase =
    | Starting | Created | Receiving | Written | Failing
    | Succeeded | Discarded | LeftEmpty | Refused

  /** blocks: the payloads written in full so far. */
  datatype Session = Session(path: Path, phase: Phase, inode: Inode, blocks: seq<Bytes>)

  datatype State = State(disk: Disk, sessions: seq<Session>)

  // ---------------------------------------------------------------- the moves of one session

  /** open() with O_CREAT | O_EXCL. */
  ghost predicate Creates(d: Disk, s: Session, d': Disk, s': Session) {
    && s.path !in d.names && s'.inode !in d.inodes
    && d' == Disk(d.names[s.path := s'.inode], d.inodes[s'.inode := []])
    && s' == Session(s.path, Created, s'.inode, [])
  }

  /** A block written in full, or only in part, at the end of the file. */
  ghost predicate Appends(d: Disk, s: Session, d': Disk, s': Session, payload: Bytes, written: nat) {
    && |payload| <= BLOCK_SIZE && written <= |payload| && s.inode in d.inodes
    && d' == d.(inodes := d.inodes[s.inode := d.inodes[s.inode] + payload[..written]])
    && s' == if written == |payload| then s.(phase := Written, blocks := s.blocks + [payload])
             else s.(phase := Failing)
  }

  ghost predicate Move(d: Disk, s: Session, d': Disk, s': Session) {
    match s.phase
    case Starting => Creates(d, s, d', s') || (d' == d && s' == s.(phase := Refused))
    case Created => d' == d && s' in {s.(phase := Receiving), s.(phase := LeftEmpty)}
    case Receiving =>
      || (d' == d && s' == s.(phase := Failing))
      || exists payload: Bytes, written: nat :: Appends(d, s, d', s', payload, written)
    case Written =>
      && d' == d && s.blocks != []
      && s' in {s.(phase := Failing),
                s.(phase := if |s.blocks[|s.blocks| - 1]| == BLOCK_SIZE then Receiving else Succeeded)}
    case Failing => d' == d.(names := d.names - {s.path}) && s' == s.(phase := Discarded)
    case _ => false
  }

  // ---------------------------------------------------------------- all sessions together

  ghost predicate Forks(s: State, s': State) {
    exists path :: s' == s.(sessions := s.sessions + [Session(path, Starting, 0, [])])
  }

  ghost predicate Moves(s: State, s': State, i: nat) {
    && i < |s.sessions| && i < |s'.sessions|
    && s'.sessions == s.sessions[i := s'.sessions[i]]
    && Move(s.disk, s.sessions[i], s'.disk, s'.sessions[i])
  }

  ghost predicate Next(s: State, s': State) {
    Forks(s, s') || exists i: nat :: Moves(s, s', i)
  }

  ghost predicate WellFormed(d: Disk) {
    forall p | p in d.names :: d.names[p] in d.inodes
  }

  /** Any number of sessions, started at any time and interleaved in any order. */
  ghost predicate IsRun(d0: Disk, run: seq<State>) {
    && run != [] && WellFormed(d0) && run[0] == State(d0, [])
    && forall i | 0 <= i < |run| - 1 :: Next(run[i], run[i + 1])
  }

  // ---------------------------------------------------------------- what holds in every state

  predicate IsLive(phase: Phase) {
    phase in {Created, Receiving, Written, Failing}
  }

  predicate HasEnded(phase: Phase) {
    phase in {Succeeded, Discarded, LeftEmpty, Refused}
  }

  /** The session's path names the file it created. */
  predicate Owns(phase: Phase) {
    IsLive(phase) || phase in {Succeeded, LeftEmpty}
  }

  /** Full blocks, then one that is shorter. */
  ghost predicate IsPayload(blocks: seq<Bytes>) {
    && blocks != [] && |blocks[|blocks| - 1]| < BLOCK_SIZE
    && forall i | 0 <= i < |blocks| - 1 :: |blocks[i]| == BLOCK_SIZE
  }

  ghost predicate Consistent(d0: Disk, d: Disk, s: Session) {
    Owns(s.phase) ==>
      && s.path in d.names && d.names[s.path] == s.inode
      && s.path !in d0.names && s.inode !in d0.inodes && s.inode in d.inodes
      && (s.phase != Failing ==> d.inodes[s.inode] == Concat(s.blocks))
      && (s.phase in {Created, LeftEmpty} ==> s.blocks == [])
      && (s.phase == Receiving ==> forall b | b in s.blocks :: |b| == BLOCK_SIZE)
      && (s.phase == Written ==> s.blocks != [] && |s.blocks[|s.blocks| - 1]| <= BLOCK_SIZE
                                 && forall i | 0 <= i < |s.blocks| - 1 :: |s.blocks[i]| == BLOCK_SIZE)
      && (s.phase == Succeeded ==> IsPayload(s.blocks))
  }

  ghost predicate Untouched(d0: Disk, d: Disk) {
    && (forall p | p in d0.names :: p in d.names && d.names[p] == d0.names[p])
    && (forall n | n in d0.inodes :: n in d.inodes && d.inodes[n] == d0.inodes[n])
  }

  /** A session owns the path. */
  ghost predicate IsOwned(s: State, p: Path) {
    exists i :: 0 <= i < |s.sessions| && IsOwnerOf(s.sessions[i], p)
  }

  predicate IsOwnerOf(session: Session, p: Path) {
    Owns(session.phase) && session.path == p
  }

  ghost predicate Inv(d0: Disk, s: State) {
    && WellFormed(d0) && WellFormed(s.disk) && Untouched(d0, s.disk)
    && (forall i | 0 <= i < |s.sessions| :: Consistent(d0, s.disk, s.sessions[i]))
    && (forall i, j | 0 <= i < j < |s.sessions| && Owns(s.sessions[i].phase) && Owns(s.sessions[j].phase) ::
          s.sessions[i].inode != s.sessions[j].inode)
    && (forall p | p in s.disk.names && p !in d0.names :: IsOwned(s, p))
  }

  lemma AppendIsSound(d0: Disk, d: Disk, s: Session, d': Disk, s': Session, payload: Bytes, written: nat)
    requires WellFormed(d0) && WellFormed(d) && Untouched(d0, d)
    requires Consistent(d0, d, s) && s.phase == Receiving && Appends(d, s, d', s', payload, written)
    ensures WellFormed(d') && Untouched(d0, d') && Consistent(d0, d', s')
  {
    if written == |payload| {
      assert payload[..written] == payload;
      ConcatAppend(s.blocks, payload);
    }
  }

  /** A session's own move keeps what it says of itself. */
  lemma MoveIsSound(d0: Disk, d: Disk, s: Session, d': Disk, s': Session)
    requires WellFormed(d0) && WellFormed(d) && Untouched(d0, d)
    requires Consistent(d0, d, s) && Move(d, s, d', s')
    ensures WellFormed(d') && Untouched(d0, d') && Consistent(d0, d', s')
  {
    if s.phase == Receiving && (d' != d || s' != s.(phase := Failing)) {
      var payload: Bytes, written: nat :| Appends(d, s, d', s', payload, written);
      AppendIsSound(d0, d, s, d', s', payload, written);
    }
  }

  /** It disturbs no other owner. */
  lemma MoveIsLocal(d0: Disk, d: Disk, s: Session, d': Disk, s': Session, other: Session)
    requires WellFormed(d)
    requires Consistent(d0, d, s) && Move(d, s, d', s') && Consistent(d0, d, other)
    requires Owns(s.phase) && Owns(other.phase) ==> s.inode != other.inode
    ensures Consistent(d0, d', other)
    ensures Owns(s'.phase) && Owns(other.phase) ==> s'.inode != other.inode
  {
  }

  lemma ForkKeepsOwners(s: State, s': State, p: Path)
    requires Forks(s, s') && IsOwned(s, p)
    ensures IsOwned(s', p)
  {
    hide IsOwnerOf;
    var i :| 0 <= i < |s.sessions| && IsOwnerOf(s.sessions[i], p);
    assert s'.sessions[i] == s.sessions[i];
  }

  lemma ForkKeeps(d0: Disk, s: State, s': State)
    requires Inv(d0, s) && Forks(s, s')
    ensures Inv(d0, s')
  {
    hide WellFormed, Untouched, IsOwned;
    var path :| s' == s.(sessions := s.sessions + [Session(path, Starting, 0, [])]);
    forall i | 0 <= i < |s'.sessions| ensures Consistent(d0, s'.disk, s'.sessions[i]) {
      assert i < |s.sessions| ==> s'.sessions[i] == s.sessions[i];
    }
    forall p | p in s'.disk.names && p !in d0.names ensures IsOwned(s', p) {
      ForkKeepsOwners(s, s', p);
    }
  }

  /** A move leaves a name with its owner, or gives a new one to the session that moves. */
  lemma MoveKeepsOwner(d0: Disk, d: Disk, s: Session, d': Disk, s': Session, p: Path)
    requires Move(d, s, d', s') && p in d'.names
    ensures p !in d.names ==> IsOwnerOf(s', p)
    ensures p in d.names && IsOwnerOf(s, p) ==> IsOwnerOf(s', p)
  {
  }

  /** Every new name still has its owner. */
  lemma MoveKeepsOwners(d0: Disk, s: State, s': State, i: nat, p: Path)
    requires Moves(s, s', i) && p in s'.disk.names && (p in s.disk.names ==> IsOwned(s, p))
    ensures IsOwned(s', p)
  {
    hide Move, IsOwnerOf;
    MoveKeepsOwner(d0, s.disk, s.sessions[i], s'.disk, s'.sessions[i], p);
    if p in s.disk.names {
      var k :| 0 <= k < |s.sessions| && IsOwnerOf(s.sessions[k], p);
      assert k != i ==> s'.sessions[k] == s.sessions[k];
      assert IsOwnerOf(s'.sessions[k], p);
    }
  }

  lemma MoveKeeps(d0: Disk, s: State, s': State, i: nat)
    requires Inv(d0, s) && Moves(s, s', i)
    ensures Inv(d0, s')
  {
    hide WellFormed, Untouched, IsOwned, Move, Consistent;
    MoveIsSound(d0, s.disk, s.sessions[i], s'.disk, s'.sessions[i]);
    forall j | 0 <= j < |s.sessions| && j != i
      ensures Consistent(d0, s'.disk, s'.sessions[j])
      ensures Owns(s'.sessions[i].phase) && Owns(s'.sessions[j].phase) ==> s'.sessions[i].inode != s'.sessions[j].inode
    {
      MoveIsLocal(d0, s.disk, s.sessions[i], s'.disk, s'.sessions[i], s.sessions[j]);
    }
    forall p | p in s'.disk.names && p !in d0.names ensures IsOwned(s', p) {
      MoveKeepsOwners(d0, s, s', i, p);
    }
  }

  lemma {:induction false} InvHolds(d0: Disk, run: seq<State>)
    requires IsRun(d0, run)
    ensures Inv(d0, run[|run| - 1])
  {
    if |run| > 1 {
      var before := run[..|run| - 1];
      InvHolds(d0, before);
      var s, s' := run[|run| - 2], run[|run| - 1];
      assert Next(s, s');
      if Forks(s, s') {
        ForkKeeps(d0, s, s');
      } else {
        var i: nat :| Moves(s, s', i);
        MoveKeeps(d0, s, s', i);
      }
    }
  }

  // ---------------------------------------------------------------- main results

  /** In every state of every interleaving no two live sessions own a path, and no file that was
      there before is changed or removed. */
  lemma OneLiveOwner(d0: Disk, run: seq<State>)
    requires IsRun(d0, run)
    ensures var s := run[|run| - 1];
            && Untouched(d0, s.disk)
            && (forall i, j | 0 <= i < j < |s.sessions| && IsLive(s.sessions[i].phase) && IsLive(s.sessions[j].phase) ::
                  s.sessions[i].path != s.sessions[j].path)
            && (forall i | 0 <= i < |s.sessions| && IsLive(s.sessions[i].phase) ::
                  var me := s.sessions[i];
                  me.path in s.disk.names && me.path !in d0.names && s.disk.names[me.path] == me.inode)
  {
    InvHolds(d0, run);
  }

  /** The session left this file behind. */
  ghost predicate LeftBehind(s: State, path: Path, i: nat) {
    && i < |s.sessions| && s.sessions[i].path == path
    && path in s.disk.names && s.disk.names[path] in s.disk.inodes
    && var content := s.disk.inodes[s.disk.names[path]];
       || (s.sessions[i].phase == Succeeded && IsPayload(s.sessions[i].blocks)
           && content == Concat(s.sessions[i].blocks))
       || (s.sessions[i].phase == LeftEmpty && content == [])
  }

  predicate AllEnded(s: State) {
    forall session | session in s.sessions :: HasEnded(session.phase)
  }

  /** When every session has ended, the new files are in one-to-one correspondence with the sessions
      that succeeded, each holding its complete payload, or that left an empty file because their
      opening acknowledgment could not be sent. */
  lemma FilesLeftBehind(d0: Disk, run: seq<State>)
    requires IsRun(d0, run)
    requires AllEnded(run[|run| - 1])
    ensures var s := run[|run| - 1];
            && (forall p | p in s.disk.names && p !in d0.names :: exists i: nat :: LeftBehind(s, p, i))
            && (forall p, i: nat, j: nat | LeftBehind(s, p, i) && LeftBehind(s, p, j) :: i == j)
            && (forall i: nat | i < |s.sessions| && s.sessions[i].phase in {Succeeded, LeftEmpty} ::
                  s.sessions[i].path !in d0.names && LeftBehind(s, s.sessions[i].path, i))
            && Untouched(d0, s.disk)
  {
    hide Inv;
    InvHolds(d0, run);
    var s := run[|run| - 1];
    InvTells(d0, s);
    forall i: nat | i < |s.sessions| && s.sessions[i].phase in {Succeeded, LeftEmpty}
      ensures s.sessions[i].path !in d0.names && LeftBehind(s, s.sessions[i].path, i)
    {
      EndedLeaves(d0, s, i);
    }
    forall p | p in s.disk.names && p !in d0.names ensures exists i: nat :: LeftBehind(s, p, i) {
      var i :| 0 <= i < |s.sessions| && IsOwnerOf(s.sessions[i], p);
      assert HasEnded(s.sessions[i].phase);
      assert LeftBehind(s, s.sessions[i].path, i);
    }
    forall p, i: nat, j: nat | LeftBehind(s, p, i) && LeftBehind(s, p, j) ensures i == j {
      OneLeaves(d0, s, p, i, j);
    }
  }

  lemma InvTells(d0: Disk, s: State)
    requires Inv(d0, s)
    ensures Untouched(d0, s.disk) && forall p | p in s.disk.names && p !in d0.names :: IsOwned(s, p)
  {
  }

  lemma EndedLeaves(d0: Disk, s: State, i: nat)
    requires Inv(d0, s) && i < |s.sessions| && s.sessions[i].phase in {Succeeded, LeftEmpty}
    ensures s.sessions[i].path !in d0.names && LeftBehind(s, s.sessions[i].path, i)
  {
    assert Consistent(d0, s.disk, s.sessions[i]);
  }

  /** Two owners of a path would own the same file. */
  lemma OneLeaves(d0: Disk, s: State, p: Path, i: nat, j: nat)
    requires Inv(d0, s) && LeftBehind(s, p, i) && LeftBehind(s, p, j)
    ensures i == j
  {
    assert Consistent(d0, s.disk, s.sessions[i]) && Consistent(d0, s.disk, s.sessions[j]);
  }
}
