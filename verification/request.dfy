/** How main() of tftpd.c takes a request apart, and which file names reach a handler. */
module Request {
  import opened Text
  import opened Wrappers

  const NAME_MAX := 255
  const MIN_SIZE := 2 + 2 + 6
  const MAX_SIZE := 2 + (1 + NAME_MAX) + 9

  const RRQ := 1
  const WRQ := 2

  predicate IsOpcode(n: nat) {
    n == RRQ || n == WRQ
  }

  datatype Request = Request(opcode: nat, name: string, mode: string)

  // ---------------------------------------------------------------- the format and its decoding

  /** The packet of section 5 of RFC 1350. */
  function Encode(r: Request): string
    requires r.opcode < 256
  {
    [NUL, r.opcode as char] + r.name + [NUL] + r.mode + [NUL]
  }

  /** The first two bytes, in network order. */
  function Opcode(b: string): nat
    requires |b| >= 2
  {
    b[0] as int * 256 + b[1] as int
  }

  function Overlay(stale: string, datagram: string): string
    requires |stale| == MAX_SIZE
  {
    if |datagram| >= MAX_SIZE then datagram[..MAX_SIZE] else datagram + stale[|datagram|..]
  }

  /** What the buffer means after a datagram of this size was received into it. The mode runs up to
      its NUL byte, or to the end of the buffer. */
  function Decode(buffer: string, size: nat): Option<Request>
    requires |buffer| == MAX_SIZE
  {
    var end := IndexFrom(buffer, NUL, 2);
    if size < MIN_SIZE || !IsOpcode(Opcode(buffer)) || end >= 2 + 1 + NAME_MAX then None
    else Some(Request(Opcode(buffer), CStr(buffer, 2), CStr(buffer, end + 1)))
  }

  /** What is decoded, byte by byte: nothing from a short datagram, with an opcode other than 1 or 2, or
      without the NUL byte of a name of at most 255 bytes; otherwise the bytes up to that one, and those
      up to the next one. */
  lemma DecodeMeans(buffer: string, size: nat)
    requires |buffer| == MAX_SIZE
    ensures var opcode := buffer[0] as int * 256 + buffer[1] as int;
            Decode(buffer, size) == None <==> size < 10 || opcode !in {1, 2} || NUL !in buffer[2..258]
    ensures forall r | Decode(buffer, size) == Some(r) ::
              && r.opcode == buffer[0] as int * 256 + buffer[1] as int && NUL !in r.name && NUL !in r.mode
              && var end := 2 + |r.name|; var last := end + 1 + |r.mode|;
                 && end < 258 && r.name == buffer[2..end] && buffer[end] == NUL
                 && last <= |buffer| && r.mode == buffer[end + 1..last] && (last < |buffer| ==> buffer[last] == NUL)
  {
    var end := IndexFrom(buffer, NUL, 2);
    if end < 258 {
      assert buffer[2..258][end - 2] == NUL;
    } else {
      assert forall i | 2 <= i < 258 :: buffer[i] != NUL;
    }
  }

  predicate IsWellFormed(r: Request) {
    && IsOpcode(r.opcode) && 1 <= |r.name| <= NAME_MAX && NUL !in r.name
    && r.mode in {"octet", "netascii"}
  }

  /** A field that ends inside the datagram reads the same in any buffer the datagram is in. */
  lemma SameField(datagram: string, stale: string, from: nat)
    requires |stale| == MAX_SIZE && 2 <= from <= |datagram| && IndexFrom(datagram, NUL, from) < |datagram| <= MAX_SIZE
    ensures var buffer := Overlay(stale, datagram);
            && IndexFrom(buffer, NUL, from) == IndexFrom(datagram, NUL, from)
            && CStr(buffer, from) == CStr(datagram, from)
            && Opcode(buffer) == Opcode(datagram)
  {
    var buffer := Overlay(stale, datagram);
    assert forall i | 0 <= i < |datagram| :: buffer[i] == datagram[i];
    IndexIs(buffer, NUL, from, IndexFrom(datagram, NUL, from));
  }

  lemma EncodedFields(r: Request)
    requires r.opcode < 256 && NUL !in r.name && NUL !in r.mode
    ensures |Encode(r)| == 4 + |r.name| + |r.mode|
    ensures Opcode(Encode(r)) == r.opcode
    ensures var packet, end := Encode(r), 2 + |r.name|;
            && IndexFrom(packet, NUL, 2) == end && packet[2..end] == r.name
            && IndexFrom(packet, NUL, end + 1) == |packet| - 1 && CStr(packet, end + 1) == r.mode
  {
    var packet, end := Encode(r), 2 + |r.name|;
    var last := end + 1 + |r.mode|;
    assert packet[2..end] == r.name && packet[end + 1..last] == r.mode;
    assert forall i | 2 <= i < end :: packet[i] == r.name[i - 2];
    IndexIs(packet, NUL, 2, end);
    assert forall i | end + 1 <= i < last :: packet[i] == r.mode[i - (end + 1)];
    IndexIs(packet, NUL, end + 1, last);
  }

  /** Decoding inverts the format, whatever an earlier request left in the buffer. */
  lemma DecodeInvertsEncode(r: Request, stale: string)
    requires IsWellFormed(r) && |stale| == MAX_SIZE
    ensures MIN_SIZE <= |Encode(r)| <= MAX_SIZE
    ensures Decode(Overlay(stale, Encode(r)), |Encode(r)|) == Some(r)
  {
    EncodedFields(r);
    DecodePacket(r, Encode(r), stale);
  }

  lemma DecodePacket(r: Request, packet: string, stale: string)
    requires IsOpcode(r.opcode) && |stale| == MAX_SIZE && |r.name| <= NAME_MAX
    requires MIN_SIZE <= |packet| <= MAX_SIZE && Opcode(packet) == r.opcode
    requires var end := 2 + |r.name|;
             && IndexFrom(packet, NUL, 2) == end < |packet| && CStr(packet, 2) == r.name
             && IndexFrom(packet, NUL, end + 1) < |packet| && CStr(packet, end + 1) == r.mode
    ensures Decode(Overlay(stale, packet), |packet|) == Some(r)
  {
    SameField(packet, stale, 2);
    SameField(packet, stale, 3 + |r.name|);
  }

  /** The datagram itself ends its name and its mode, or fills the space they are looked for in. */
  predicate SelfContained(datagram: string) {
    |datagram| >= MIN_SIZE && IsOpcode(Opcode(datagram)) ==>
      var end := IndexFrom(datagram, NUL, 2);
      || end >= 2 + 1 + NAME_MAX
      || (end < |datagram| && (|datagram| >= MAX_SIZE || IndexFrom(datagram, NUL, end + 1) < |datagram|))
  }

  /** What is decoded depends on nothing but the datagram exactly for self-contained datagrams. */
  lemma StaleBytesMatterIff(datagram: string)
    ensures (forall a, b | |a| == MAX_SIZE && |b| == MAX_SIZE ::
               Decode(Overlay(a, datagram), |datagram|) == Decode(Overlay(b, datagram), |datagram|))
       <==> SelfContained(datagram)
  {
    if SelfContained(datagram) {
      forall a, b | |a| == MAX_SIZE && |b| == MAX_SIZE
        ensures Decode(Overlay(a, datagram), |datagram|) == Decode(Overlay(b, datagram), |datagram|)
      {
        DecodeSelfContained(datagram, a, b);
      }
    } else {
      var nuls, letters := seq(MAX_SIZE, _ => NUL), seq(MAX_SIZE, _ => 'x');
      StaleBytesShow(datagram, nuls, letters);
      assert Decode(Overlay(nuls, datagram), |datagram|) != Decode(Overlay(letters, datagram), |datagram|);
    }
  }

  lemma DecodeSelfContained(datagram: string, a: string, b: string)
    requires SelfContained(datagram) && |a| == MAX_SIZE && |b| == MAX_SIZE
    ensures Decode(Overlay(a, datagram), |datagram|) == Decode(Overlay(b, datagram), |datagram|)
  {
    if MIN_SIZE <= |datagram| < MAX_SIZE && IsOpcode(Opcode(datagram)) {
      var end := IndexFrom(datagram, NUL, 2);
      if end < 2 + 1 + NAME_MAX {
        SameField(datagram, a, 2);
        SameField(datagram, b, 2);
        SameField(datagram, a, end + 1);
        SameField(datagram, b, end + 1);
      } else {
        assert forall i | 0 <= i < |datagram| :: Overlay(a, datagram)[i] == datagram[i] == Overlay(b, datagram)[i];
      }
    }
  }

  /** A field that runs past the datagram ends there if the stale bytes are NUL, and not if none is. */
  lemma OpenField(datagram: string, stale: string, from: nat)
    requires |stale| == MAX_SIZE && 2 <= from <= |datagram| < MAX_SIZE && IndexFrom(datagram, NUL, from) == |datagram|
    ensures Opcode(Overlay(stale, datagram)) == Opcode(datagram)
    ensures (forall i | 0 <= i < MAX_SIZE :: stale[i] == NUL)
            ==> IndexFrom(Overlay(stale, datagram), NUL, from) == |datagram|
    ensures (forall i | 0 <= i < MAX_SIZE :: stale[i] != NUL)
            ==> IndexFrom(Overlay(stale, datagram), NUL, from) == MAX_SIZE
  {
    var buffer := Overlay(stale, datagram);
    assert forall i | 0 <= i < |datagram| :: buffer[i] == datagram[i];
    if forall i | 0 <= i < MAX_SIZE :: stale[i] == NUL {
      IndexIs(buffer, NUL, from, |datagram|);
    } else if forall i | 0 <= i < MAX_SIZE :: stale[i] != NUL {
      IndexIs(buffer, NUL, from, MAX_SIZE);
    }
  }

  predicate AreNuls(stale: string) {
    |stale| == MAX_SIZE && forall i | 0 <= i < MAX_SIZE :: stale[i] == NUL
  }

  predicate AreLetters(stale: string) {
    |stale| == MAX_SIZE && forall i | 0 <= i < MAX_SIZE :: stale[i] == 'x'
  }

  /** An open name is read up to the end of the datagram in one buffer, and is too long in another. */
  lemma OpenNameShows(datagram: string, nuls: string, letters: string)
    requires MIN_SIZE <= |datagram| < 2 + 1 + NAME_MAX && IsOpcode(Opcode(datagram)) && AreNuls(nuls)
    requires IndexFrom(datagram, NUL, 2) == |datagram| && AreLetters(letters)
    ensures Decode(Overlay(nuls, datagram), |datagram|).Some? && Decode(Overlay(letters, datagram), |datagram|) == None
  {
    hide CStr, Overlay, IsIndex;
    OpenField(datagram, nuls, 2);
    OpenField(datagram, letters, 2);
  }

  /** An open mode ends with the datagram in one buffer, and with the buffer in another. */
  lemma OpenModeShows(datagram: string, nuls: string, letters: string)
    requires MIN_SIZE <= |datagram| < MAX_SIZE && IsOpcode(Opcode(datagram)) && AreNuls(nuls) && AreLetters(letters)
    requires var end := IndexFrom(datagram, NUL, 2);
             && end < |datagram| && end < 2 + 1 + NAME_MAX && IndexFrom(datagram, NUL, end + 1) == |datagram|
    ensures var there, here := Decode(Overlay(nuls, datagram), |datagram|),
                               Decode(Overlay(letters, datagram), |datagram|);
            there.Some? && here.Some? && |there.value.mode| < |here.value.mode|
  {
    hide Overlay;
    var end := IndexFrom(datagram, NUL, 2);
    SameField(datagram, nuls, 2);
    SameField(datagram, letters, 2);
    OpenField(datagram, nuls, end + 1);
    OpenField(datagram, letters, end + 1);
  }

  lemma StaleBytesShow(datagram: string, nuls: string, letters: string)
    requires !SelfContained(datagram) && AreNuls(nuls) && AreLetters(letters)
    ensures Decode(Overlay(nuls, datagram), |datagram|) != Decode(Overlay(letters, datagram), |datagram|)
  {
    hide Decode, Overlay, IsIndex, AreNuls, AreLetters;
    if IndexFrom(datagram, NUL, 2) == |datagram| {
      OpenNameShows(datagram, nuls, letters);
    } else {
      OpenModeShows(datagram, nuls, letters);
    }
  }

  /** One round of main()'s loop: the datagram lands in the reused buffer and is taken apart there.
      The opcode is converted to host order in place. */
  method Receive(buffer: array<char>, datagram: string) returns (r: Option<Request>)
    requires buffer.Length == MAX_SIZE
    modifies buffer
    ensures |datagram| >= MIN_SIZE ==> r == Decode(Overlay(old(buffer[..]), datagram), |datagram|)
    ensures |datagram| < MIN_SIZE ==> r == None
    ensures var contents := Overlay(old(buffer[..]), datagram);
            buffer[..] == if |datagram| < MIN_SIZE then contents
                          else [contents[1], contents[0]] + contents[2..]
  {
    var size := if |datagram| < MAX_SIZE then |datagram| else MAX_SIZE;
    forall i | 0 <= i < size { buffer[i] := datagram[i]; }
    ghost var contents := Overlay(old(buffer[..]), datagram);
    if size < MIN_SIZE { return None; }
    assert forall i | 0 <= i < MAX_SIZE :: buffer[i] == contents[i];
    buffer[0], buffer[1] := buffer[1], buffer[0];
    r := Parse(buffer, contents);
  }

  /** The checks after the conversion to host order; contents is the buffer before it. */
  method Parse(buffer: array<char>, ghost contents: string) returns (r: Option<Request>)
    requires buffer.Length == MAX_SIZE == |contents|
    requires buffer[0] == contents[1] && buffer[1] == contents[0]
    requires forall i | 2 <= i < MAX_SIZE :: buffer[i] == contents[i]
    ensures forall size: nat | size >= MIN_SIZE :: r == Decode(contents, size)
  {
    var opcode: nat := buffer[1] as int * 256 + buffer[0] as int;
    if opcode != RRQ && opcode != WRQ { return None; }
    var end := Scan(buffer, 2, 2 + 1 + NAME_MAX, NUL);
    if end == 2 + 1 + NAME_MAX { return None; }
    IndexIs(contents, NUL, 2, end);
    var last := Scan(buffer, end + 1, MAX_SIZE, NUL);
    IndexIs(contents, NUL, end + 1, last);
    assert buffer[2..end] == contents[2..end] && buffer[end + 1..last] == contents[end + 1..last];
    r := Some(Request(opcode, buffer[2..end], buffer[end + 1..last]));
  }

  // ---------------------------------------------------------------- which names reach a handler

  datatype Decision = IllegalOperation | AccessViolation | Serve(name: string)

  const SLASH := '/'

  /** strrchr() for a slash. */
  method LastSlash(name: string) returns (position: Option<nat>)
    ensures position.None? ==> SLASH !in name
    ensures position.Some? ==> position.value < |name| && name[position.value] == SLASH
                               && SLASH !in name[position.value + 1..]
  {
    var i := |name|;
    while i > 0
      invariant 0 <= i <= |name| && SLASH !in name[i..]
    {
      i := i - 1;
      if name[i] == SLASH { return Some(i); }
    }
    position := None;
  }

  /** The mode and path checks: only mode "octet" is served, and only a name without slashes, apart
      from a leading one, which is dropped. */
  method Decide(r: Request) returns (d: Decision)
    ensures d.Serve? <==> r.mode == "octet" && (SLASH !in r.name || (r.name[0] == SLASH && SLASH !in r.name[1..]))
    ensures d.Serve? ==> SLASH !in d.name && (r.name == d.name || r.name == [SLASH] + d.name)
    ensures d == IllegalOperation <==> r.mode != "octet"
  {
    if r.mode != "octet" { return IllegalOperation; }
    var position := LastSlash(r.name);
    if position == Some(0) { return Serve(r.name[1..]); }
    if position.Some? { return AccessViolation; }
    d := Serve(r.name);
  }
}
