/** A read transfer of a file while write sessions of the same daemon change the directory. */
module SharedReads {
  import opened SharedDirectory
  import opened Tftp

  /** The content of a file in a state of a run. */
  ghost predicate Exists(run: seq<State>, n: Inode, i: nat) {
    i < |run| && n in run[i].disk.inodes
  }

  ghost function ContentAt(run: seq<State>, n: Inode, i: nat): Bytes
    requires Exists(run, n, i)
  {
    run[i].disk.inodes[n]
  }

  ghost predicate IsPrefix(a: Bytes, b: Bytes) {
    |a| <= |b| && b[..|a|] == a
  }

  // ---------------------------------------------------------------- files only grow

  lemma MoveOnlyGrows(d: Disk, s: Session, d': Disk, s': Session, n: Inode)
    requires Move(d, s, d', s') && n in d.inodes
    ensures n in d'.inodes && IsPrefix(d.inodes[n], d'.inodes[n])
    ensures d'.inodes[n] != d.inodes[n] ==> IsLive(s.phase) && s.inode == n
  {
  }

  lemma StepOnlyGrows(s: State, s': State, n: Inode)
    requires Next(s, s') && n in s.disk.inodes
    ensures n in s'.disk.inodes && IsPrefix(s.disk.inodes[n], s'.disk.inodes[n])
  {
    if !Forks(s, s') {
      var i: nat :| Moves(s, s', i);
      MoveOnlyGrows(s.disk, s.sessions[i], s'.disk, s'.sessions[i], n);
    }
  }

  lemma RunSteps(d0: Disk, run: seq<State>, i: nat)
    requires IsRun(d0, run) && 0 < i < |run|
    ensures Next(run[i - 1], run[i])
  {
    assert Next(run[i - 1], run[i - 1 + 1]);
  }

  lemma {:induction false} OnlyGrows(d0: Disk, run: seq<State>, n: Inode, i: nat, j: nat)
    requires IsRun(d0, run) && Exists(run, n, i) && i <= j < |run|
    ensures Exists(run, n, j) && IsPrefix(ContentAt(run, n, i), ContentAt(run, n, j))
    decreases j
  {
    hide IsRun, Next;
    if i < j {
      OnlyGrows(d0, run, n, i, j - 1);
      RunSteps(d0, run, j);
      StepOnlyGrows(run[j - 1], run[j], n);
    }
  }

  // ---------------------------------------------------------------- files without a live session do not change

  /** No session is still writing to the file. */
  ghost predicate IsQuiet(s: State, n: Inode) {
    n in s.disk.inodes && forall i | 0 <= i < |s.sessions| :: !IsWriting(s.sessions[i], n)
  }

  predicate IsWriting(session: Session, n: Inode) {
    IsLive(session.phase) && session.inode == n
  }

  lemma MoveStaysQuiet(d: Disk, s: Session, d': Disk, s': Session, n: Inode)
    requires Move(d, s, d', s') && n in d.inodes && !IsWriting(s, n)
    ensures n in d'.inodes && d'.inodes[n] == d.inodes[n] && !IsWriting(s', n)
  {
    MoveOnlyGrows(d, s, d', s', n);
  }

  lemma StepStaysQuiet(s: State, s': State, n: Inode)
    requires Next(s, s') && IsQuiet(s, n)
    ensures IsQuiet(s', n) && s'.disk.inodes[n] == s.disk.inodes[n]
  {
    if Forks(s, s') {
      forall i | 0 <= i < |s'.sessions| ensures !IsWriting(s'.sessions[i], n) {
        assert i < |s.sessions| ==> s'.sessions[i] == s.sessions[i];
      }
    } else {
      var k: nat :| Moves(s, s', k);
      MoveStaysQuiet(s.disk, s.sessions[k], s'.disk, s'.sessions[k], n);
      forall i | 0 <= i < |s'.sessions| ensures !IsWriting(s'.sessions[i], n) {
        assert i != k ==> s'.sessions[i] == s.sessions[i];
      }
    }
  }

  lemma {:induction false} StaysQuiet(d0: Disk, run: seq<State>, n: Inode, i: nat, j: nat)
    requires IsRun(d0, run) && i <= j < |run| && IsQuiet(run[i], n)
    ensures IsQuiet(run[j], n) && ContentAt(run, n, j) == ContentAt(run, n, i)
    decreases j
  {
    hide IsRun, Next, IsWriting;
    if i < j {
      StaysQuiet(d0, run, n, i, j - 1);
      RunSteps(d0, run, j);
      StepStaysQuiet(run[j - 1], run[j], n);
    }
  }

  // ---------------------------------------------------------------- a reader

  /** The moments at which a reader reads its blocks, one after the other. */
  ghost predicate AreMoments(run: seq<State>, n: Inode, times: seq<int>) {
    && (forall k | 0 <= k < |times| :: 0 <= times[k] && Exists(run, n, times[k]))
    && (forall k, l | 0 <= k < l < |times| :: times[k] <= times[l])
  }

  /** The blocks read so far, each as the file was when it was read. */
  ghost function Delivered(run: seq<State>, n: Inode, times: seq<int>): Bytes
    requires AreMoments(run, n, times)
  {
    if times == [] then []
    else
      var before := Delivered(run, n, times[..|times| - 1]);
      before + Chunk(ContentAt(run, n, times[|times| - 1]), |before|)
  }

  /** What read() yields at an offset. */
  function Chunk(content: Bytes, offset: nat): Bytes {
    if offset >= |content| then [] else content[offset..Min(offset + BLOCK_SIZE, |content|)]
  }

  /** The transfer goes on as long as blocks are full. */
  ghost predicate IsFullUpTo(run: seq<State>, n: Inode, times: seq<int>)
    requires AreMoments(run, n, times)
  {
    |Delivered(run, n, times)| == BLOCK_SIZE * |times|
  }

  /** All blocks but the last are full, and the last one is not. */
  ghost predicate Finishes(run: seq<State>, n: Inode, times: seq<int>) {
    && times != [] && AreMoments(run, n, times)
    && IsFullUpTo(run, n, times[..|times| - 1]) && !IsFullUpTo(run, n, times)
  }

  /** What was read is the beginning of the file, then and later. */
  lemma {:induction false} DeliveredIsPrefix(d0: Disk, run: seq<State>, n: Inode, times: seq<int>, j: nat)
    requires IsRun(d0, run) && AreMoments(run, n, times) && Exists(run, n, j)
    requires forall k | 0 <= k < |times| :: times[k] <= j
    ensures IsPrefix(Delivered(run, n, times), ContentAt(run, n, j))
    decreases |times|
  {
    if times != [] {
      var front, last := times[..|times| - 1], times[|times| - 1];
      DeliveredIsPrefix(d0, run, n, front, last);
      OnlyGrows(d0, run, n, last, j);
      ChunkFollows(Delivered(run, n, front), ContentAt(run, n, last));
      PrefixOfPrefix(Delivered(run, n, times), ContentAt(run, n, last), ContentAt(run, n, j));
    }
  }

  lemma ChunkFollows(before: Bytes, content: Bytes)
    requires IsPrefix(before, content)
    ensures IsPrefix(before + Chunk(content, |before|), content)
    ensures |Chunk(content, |before|)| < BLOCK_SIZE ==> before + Chunk(content, |before|) == content
  {
    assert before + Chunk(content, |before|) == content[..Min(|before| + BLOCK_SIZE, |content|)];
  }

  lemma PrefixOfPrefix(a: Bytes, b: Bytes, c: Bytes)
    requires IsPrefix(a, b) && IsPrefix(b, c)
    ensures IsPrefix(a, c)
  {
    assert c[..|a|] == b[..|a|];
  }

  /** A reader that finishes has delivered the file as it was when the last block was read. */
  lemma SnapshotDelivered(d0: Disk, run: seq<State>, n: Inode, times: seq<int>)
    requires IsRun(d0, run) && Finishes(run, n, times)
    ensures Delivered(run, n, times) == ContentAt(run, n, times[|times| - 1])
  {
    var front, last := times[..|times| - 1], times[|times| - 1];
    DeliveredIsPrefix(d0, run, n, front, last);
    ChunkFollows(Delivered(run, n, front), ContentAt(run, n, last));
  }

  /** Later the file is what was delivered exactly if nothing was written to it after the last read. */
  lemma DeliveredIff(d0: Disk, run: seq<State>, n: Inode, times: seq<int>, j: nat)
    requires IsRun(d0, run) && Finishes(run, n, times) && times[|times| - 1] <= j < |run|
    ensures Exists(run, n, j)
    ensures Delivered(run, n, times) == ContentAt(run, n, j)
       <==> |ContentAt(run, n, j)| == |ContentAt(run, n, times[|times| - 1])|
  {
    SnapshotDelivered(d0, run, n, times);
    OnlyGrows(d0, run, n, times[|times| - 1], j);
  }

  /** If no session is writing to the file when the last block is read, the reader has delivered the
      file for good. */
  lemma FinalFileDelivered(d0: Disk, run: seq<State>, n: Inode, times: seq<int>, j: nat)
    requires IsRun(d0, run) && Finishes(run, n, times) && times[|times| - 1] <= j < |run|
    requires IsQuiet(run[times[|times| - 1]], n)
    ensures Exists(run, n, j) && Delivered(run, n, times) == ContentAt(run, n, j)
  {
    SnapshotDelivered(d0, run, n, times);
    StaysQuiet(d0, run, n, times[|times| - 1], j);
  }

  // ---------------------------------------------------------------- a file read too early

  const NOBODY := Disk(map[], map[])

  function UploadState(phase: Phase, content: Bytes, blocks: seq<Bytes>): State {
    State(Disk(map["f" := 1], map[1 := content]), [Session("f", phase, 1, blocks)])
  }

  /** The upload of a file of one short block. */
  function Upload(block: Bytes): seq<State> {
    [State(NOBODY, []),
     State(NOBODY, [Session("f", Starting, 0, [])]),
     UploadState(Created, [], []),
     UploadState(Receiving, [], []),
     UploadState(Written, block, [block]),
     UploadState(Succeeded, block, [block])]
  }

  lemma UploadBegins()
    ensures Next(State(NOBODY, []), State(NOBODY, [Session("f", Starting, 0, [])]))
    ensures Next(State(NOBODY, [Session("f", Starting, 0, [])]), UploadState(Created, [], []))
    ensures Next(UploadState(Created, [], []), UploadState(Receiving, [], []))
  {
    var s, t, u := State(NOBODY, []), State(NOBODY, [Session("f", Starting, 0, [])]), UploadState(Created, [], []);
    assert t == s.(sessions := s.sessions + [Session("f", Starting, 0, [])]) && Forks(s, t);
    assert Creates(t.disk, t.sessions[0], u.disk, u.sessions[0]) && Moves(t, u, 0);
    assert Moves(u, UploadState(Receiving, [], []), 0);
  }

  lemma UploadWrites(block: Bytes)
    requires |block| < BLOCK_SIZE
    ensures Next(UploadState(Receiving, [], []), UploadState(Written, block, [block]))
    ensures Next(UploadState(Written, block, [block]), UploadState(Succeeded, block, [block]))
  {
    var s, t := UploadState(Receiving, [], []), UploadState(Written, block, [block]);
    assert [] + block[..|block|] == block && [] + [block] == [block];
    assert Appends(s.disk, s.sessions[0], t.disk, t.sessions[0], block, |block|) && Moves(s, t, 0);
    assert Moves(t, UploadState(Succeeded, block, [block]), 0);
  }

  lemma UploadIsRun(block: Bytes)
    requires |block| < BLOCK_SIZE
    ensures IsRun(NOBODY, Upload(block))
  {
    hide Next, UploadState;
    var run := Upload(block);
    UploadBegins();
    UploadWrites(block);
    forall i | 0 <= i < |run| - 1 ensures Next(run[i], run[i + 1]) {
      assert i == 0 || i == 1 || i == 2 || i == 3 || i == 4;
    }
  }

  /** A reader that comes during the upload finishes with less than the file. */
  lemma ReadTooEarly(block: Bytes)
    requires 0 < |block| < BLOCK_SIZE
    ensures var run := Upload(block);
            && IsRun(NOBODY, run) && Finishes(run, 1, [3])
            && Exists(run, 1, 5) && Delivered(run, 1, [3]) == [] && ContentAt(run, 1, 5) == block
  {
    UploadIsRun(block);
    var run, times := Upload(block), [3];
    assert times[..0] == [];
    assert AreMoments(run, 1, times) && Delivered(run, 1, times[..0]) == [];
  }
}
