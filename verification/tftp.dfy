/** Datagrams and 512-byte chunking shared by both directions of a TFTP transfer. */
module Tftp {

  newtype Byte = b: int | 0 <= b < 256
  type Bytes = seq<Byte>

  const BLOCK_SIZE := 512
  const ID_SPACE := 65536

  const OPCODE_DATA := 3
  const OPCODE_ACK := 4
  const OPCODE_ERROR := 5

  const ERROR_FILE_NOT_FOUND := 1
  const ERROR_ACCESS_VIOLATION := 2
  const ERROR_DISK_FULL := 3
  const ERROR_UNKNOWN_TID := 5
  const ERROR_FILE_EXISTS := 6

  /** A 16-bit field of a packet: a block id or a port number (the transfer id). */
  type Id = i: int | 0 <= i < ID_SPACE

  datatype Packet =
    | Data(id: Id, payload: Bytes)
    | Ack(id: Id)
    | Error(code: nat)

  /** What one call to recvfrom() yields: a failure (or a timeout), or a datagram and the port
      it came from. The payload is what follows the four header bytes. */
  datatype Reception =
    | Nothing
    | Datagram(source: Id, opcode: nat, id: Id, payload: Bytes)

  function BlockId(n: nat): Id {
    n % ID_SPACE
  }

  /** Block ids tell two blocks apart as long as they lie within one id cycle. */
  lemma IdsDistinct(m: nat, n: nat)
    requires 1 <= m <= ID_SPACE && 1 <= n <= ID_SPACE
    requires BlockId(m) == BlockId(n)
    ensures m == n
  {
  }

  function Min(a: nat, b: nat): nat {
    if a <= b then a else b
  }

  /** A file always ends with a block shorter than 512 bytes, which may be empty. */
  function NumBlocks(file: Bytes): nat {
    |file| / BLOCK_SIZE + 1
  }

  /** The n-th block of a file, counting from one. */
  function Block(file: Bytes, n: nat): Bytes
    requires 1 <= n <= NumBlocks(file)
  {
    file[BLOCK_SIZE * (n - 1)..Min(BLOCK_SIZE * n, |file|)]
  }

  /** The first n blocks of a file, joined. */
  function Prefix(file: Bytes, n: nat): Bytes {
    file[..Min(BLOCK_SIZE * n, |file|)]
  }

  function Concat(blocks: seq<Bytes>): Bytes {
    if blocks == [] then [] else Concat(blocks[..|blocks| - 1]) + blocks[|blocks| - 1]
  }

  lemma ConcatAppend(blocks: seq<Bytes>, block: Bytes)
    ensures Concat(blocks + [block]) == Concat(blocks) + block
  {
    assert (blocks + [block])[..|blocks|] == blocks;
  }

  lemma BlockLength(file: Bytes, n: nat)
    requires 1 <= n <= NumBlocks(file)
    ensures |Block(file, n)| <= BLOCK_SIZE
    ensures |Block(file, n)| == BLOCK_SIZE <==> n < NumBlocks(file)
  {
  }

  lemma PrefixGrows(file: Bytes, n: nat)
    requires 1 <= n <= NumBlocks(file)
    ensures Prefix(file, n) == Prefix(file, n - 1) + Block(file, n)
  {
    assert BLOCK_SIZE * (n - 1) <= |file|;
  }

  lemma PrefixAll(file: Bytes)
    ensures Prefix(file, NumBlocks(file)) == file
    ensures Prefix(file, 0) == []
  {
  }

  /** The canonical chunking: blocks 1 to n of a file. */
  function Blocks(file: Bytes, n: nat): (blocks: seq<Bytes>)
    requires n <= NumBlocks(file)
  {
    seq(n, i requires 0 <= i < n => Block(file, i + 1))
  }

  lemma {:induction false} BlocksJoin(file: Bytes, n: nat)
    requires n <= NumBlocks(file)
    ensures Concat(Blocks(file, n)) == Prefix(file, n)
  {
    if n == 0 {
      PrefixAll(file);
    } else {
      BlocksJoin(file, n - 1);
      PrefixGrows(file, n);
      assert Blocks(file, n) == Blocks(file, n - 1) + [Block(file, n)];
      ConcatAppend(Blocks(file, n - 1), Block(file, n));
    }
  }
}
