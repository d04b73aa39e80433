/** The 20-byte length-framed codec of the binary RPC protocol. */
module BinaryRpcCodec {
  import opened Common
  import opened Buffers
  import opened BigEndian

  const RPC_MAGIC: nat := 0x5444
  const RPC_VERSION: byte := 1
  const RPC_HEADER_SIZE: nat := 20
  const TWO_32: nat := 0x1_0000_0000

  type uint16 = n: nat | n < 0x1_0000
  type uint32 = n: nat | n < 0x1_0000_0000
  type uint64 = n: nat | n < 0x1_0000_0000_0000_0000

  datatype RpcMessageType = Request | Response | Heartbeat {
    function Code(): byte {
      match this case Request => 0 case Response => 1 case Heartbeat => 2
    }
  }

  datatype RpcHeader = RpcHeader(
    magic: uint16, version: byte, kind: byte, sequenceId: uint64, metaLen: uint32, bodyLen: uint32)
  {
    function PacketSize(): nat { RPC_HEADER_SIZE + metaLen + bodyLen }
  }

  /** What a prefix of the stream amounts to. */
  datatype Parse = Frame(header: RpcHeader, meta: Bytes, body: Bytes) | Empty | HalfPack | Corrupt

  datatype DecodeResult = DecodedFrame | DecodedEmpty | DecodedHalfPack | DecodeError

  function HeaderBytes(h: RpcHeader): (b: Bytes)
    ensures |b| == RPC_HEADER_SIZE
  {
    ToBytes(h.magic, 2) + [h.version, h.kind] + ToBytes(h.sequenceId, 8) + ToBytes(h.metaLen, 4) + ToBytes(h.bodyLen, 4)
  }

  function ParseHeader(b: Bytes): RpcHeader
    requires |b| == RPC_HEADER_SIZE
  {
    Widths();
    RpcHeader(FromBytes(b[0..2]), b[2], b[3], FromBytes(b[4..12]), FromBytes(b[12..16]), FromBytes(b[16..20]))
  }

  /** The header `encode` writes; the two lengths are cut to 32 bits. */
  function RequestHeader(kind: RpcMessageType, sequenceId: uint64, meta: Bytes, body: Bytes): RpcHeader {
    RpcHeader(RPC_MAGIC, RPC_VERSION, kind.Code(), sequenceId, |meta| % TWO_32, |body| % TWO_32)
  }

  function FrameBytes(kind: RpcMessageType, sequenceId: uint64, meta: Bytes, body: Bytes): (b: Bytes)
    ensures |b| == RPC_HEADER_SIZE + |meta| + |body|
  {
    HeaderBytes(RequestHeader(kind, sequenceId, meta, body)) + meta + body
  }

  /** The first frame of a stream, if it is all there. */
  function ParseFrame(b: Bytes): Parse {
    if |b| < RPC_HEADER_SIZE then Empty else
      var h := ParseHeader(b[..RPC_HEADER_SIZE]);
      if h.magic != RPC_MAGIC then Corrupt
      else if |b| < h.PacketSize() then HalfPack
      else Frame(h, b[RPC_HEADER_SIZE..RPC_HEADER_SIZE + h.metaLen], b[RPC_HEADER_SIZE + h.metaLen..h.PacketSize()])
  }

  /** The `width` bytes from `at` on hold `n`, most significant first. */
  predicate Holds(b: Bytes, at: nat, width: nat, n: nat)
    requires at + width <= |b|
  {
    forall i :: at <= i < at + width ==> b[i] as int == (n / Pow256(at + width - 1 - i)) % 256
  }

  lemma HoldsBytes(b: Bytes, at: nat, width: nat, n: nat)
    requires at + width <= |b| && b[at..at + width] == ToBytes(n, width)
    ensures Holds(b, at, width, n)
  {
    forall i | at <= i < at + width ensures b[i] as int == (n / Pow256(at + width - 1 - i)) % 256 {
      ByteAt(n, width, i - at);
      assert b[i] == b[at..at + width][i - at];
    }
  }

  /** Which byte of a frame holds what: big-endian fields at fixed places, then the two parts. */
  lemma FrameLayout(kind: RpcMessageType, sequenceId: uint64, meta: Bytes, body: Bytes)
    ensures var b := FrameBytes(kind, sequenceId, meta, body);
      && b[0] == 0x54 && b[1] == 0x44 && b[2] == 1
      && b[3] == (match kind case Request => 0 case Response => 1 case Heartbeat => 2)
      && Holds(b, 4, 8, sequenceId)
      && Holds(b, 12, 4, |meta| % 0x1_0000_0000)
      && Holds(b, 16, 4, |body| % 0x1_0000_0000)
      && b[20..20 + |meta|] == meta && b[20 + |meta|..] == body
  {
    var h := RequestHeader(kind, sequenceId, meta, body);
    HeaderLayout(h);
    Sections(HeaderBytes(h), meta, body, []);
    var b := FrameBytes(kind, sequenceId, meta, body);
    assert b + [] == b;
    assert forall i :: 0 <= i < 20 ==> b[i] == HeaderBytes(h)[i];
  }

  lemma HeaderLayout(h: RpcHeader)
    ensures var b := HeaderBytes(h);
      && b[0] as int == h.magic / 256 && b[1] as int == h.magic % 256 && b[2] == h.version && b[3] == h.kind
      && Holds(b, 4, 8, h.sequenceId)
      && Holds(b, 12, 4, h.metaLen)
      && Holds(b, 16, 4, h.bodyLen)
  {
    var b := HeaderBytes(h);
    Widths();
    ByteAt(h.magic, 2, 0);
    ByteAt(h.magic, 2, 1);
    assert b[0] == ToBytes(h.magic, 2)[0] && b[1] == ToBytes(h.magic, 2)[1];
    HoldsBytes(b, 4, 8, h.sequenceId);
    HoldsBytes(b, 12, 4, h.metaLen);
    HoldsBytes(b, 16, 4, h.bodyLen);
  }

  /** The two length fields, read off the bytes. */
  function LengthField(b: Bytes, at: nat): nat
    requires at + 4 <= |b|
  {
    b[at] as int * 0x100_0000 + b[at + 1] as int * 0x1_0000 + b[at + 2] as int * 0x100 + b[at + 3] as int
  }

  lemma FourBytes(b: Bytes)
    requires |b| == 4
    ensures FromBytes(b) == LengthField(b, 0)
  {
    assert b[..3][..2] == b[..2] && b[..2][..1] == b[..1] && b[..1][..0] == [];
    assert FromBytes(b[..1]) == b[0] as int;
    assert FromBytes(b[..2]) == b[0] as int * 256 + b[1] as int;
    assert FromBytes(b[..3]) == FromBytes(b[..2]) * 256 + b[2] as int;
  }

  lemma HeaderFields(b: Bytes)
    requires |b| >= RPC_HEADER_SIZE
    ensures var h := ParseHeader(b[..RPC_HEADER_SIZE]);
      && h.magic == b[0] as int * 256 + b[1] as int
      && h.metaLen == LengthField(b, 12) && h.bodyLen == LengthField(b, 16)
  {
    var head := b[..RPC_HEADER_SIZE];
    assert head[0..2][..1] == [b[0]] && [b[0]][..0] == [];
    assert FromBytes([b[0]]) == b[0] as int;
    FourBytes(head[12..16]);
    FourBytes(head[16..20]);
  }

  /** The four verdicts, in bytes: too short for a header, a wrong magic, too short for the packet, or all there. */
  lemma VerdictsInBytes(b: Bytes)
    ensures ParseFrame(b).Empty? <==> |b| < 20
    ensures ParseFrame(b).Corrupt? <==> |b| >= 20 && b[..2] != [0x54, 0x44]
    ensures ParseFrame(b).HalfPack? <==>
      |b| >= 20 && b[..2] == [0x54, 0x44] && |b| < 20 + LengthField(b, 12) + LengthField(b, 16)
    ensures ParseFrame(b).Frame? <==>
      |b| >= 20 && b[..2] == [0x54, 0x44] && |b| >= 20 + LengthField(b, 12) + LengthField(b, 16)
  {
    if |b| >= 20 {
      HeaderFields(b);
      MagicBytes(b[0] as int, b[1] as int);
      assert b[..2] == [b[0], b[1]];
    }
  }

  lemma MagicBytes(x: int, y: int)
    requires 0 <= x < 256 && 0 <= y < 256
    ensures x * 256 + y == 0x5444 <==> x == 0x54 && y == 0x44
  {
  }

  method Encode(buf: Buffer, kind: RpcMessageType, sequenceId: uint64, metaBytes: Bytes, bodyBytes: Bytes)
    requires buf.Valid()
    modifies buf, buf.data
    ensures buf.Valid() && (buf.data == old(buf.data) || fresh(buf.data))
    ensures buf.Contents() == old(buf.Contents()) + FrameBytes(kind, sequenceId, metaBytes, bodyBytes)
  {
    var header := RpcHeader(RPC_MAGIC, RPC_VERSION, kind.Code(), sequenceId, |metaBytes| % TWO_32, |bodyBytes| % TWO_32);
    buf.WriteToBuffer(HeaderBytes(header));
    AppendSections(buf.Contents(), [], [], []);
    if metaBytes != [] {
      buf.WriteToBuffer(metaBytes);
    }
    if bodyBytes != [] {
      buf.WriteToBuffer(bodyBytes);
    }
    AppendSections(old(buf.Contents()), HeaderBytes(header), metaBytes, bodyBytes);
  }

  method Decode(buf: Buffer) returns (result: DecodeResult, header: RpcHeader, meta: Bytes, body: Bytes)
    requires buf.Valid()
    modifies buf`readIndex, buf`writeIndex
    ensures buf.Valid()
    ensures match ParseFrame(old(buf.Contents()))
      case Empty => result == DecodedEmpty && buf.Contents() == old(buf.Contents())
      case HalfPack => result == DecodedHalfPack && buf.Contents() == old(buf.Contents())
      case Corrupt => result == DecodeError && buf.Contents() == old(buf.Contents())
      case Frame(h, m, b) =>
        && result == DecodedFrame && header == h && meta == m && body == b
        && buf.Contents() == old(buf.Contents())[h.PacketSize()..]
  {
    header, meta, body := RpcHeader(0, 0, 0, 0, 0, 0), [], [];
    ghost var stream := buf.Contents();
    if buf.ReadableBytes() < RPC_HEADER_SIZE {
      result := DecodedEmpty;
      return;
    }
    // peek: the read index moves only once the whole packet is known to be there
    var peeked := ParseHeader(buf.data[buf.readIndex..buf.readIndex + RPC_HEADER_SIZE]);
    assert buf.data[buf.readIndex..buf.readIndex + RPC_HEADER_SIZE] == stream[..RPC_HEADER_SIZE];
    if peeked.magic != RPC_MAGIC {
      result := DecodeError;
      return;
    }
    var totalPacketSize := RPC_HEADER_SIZE + peeked.metaLen + peeked.bodyLen;
    if buf.ReadableBytes() < totalPacketSize {
      result := DecodedHalfPack;
      return;
    }
    meta, body := TakePacket(buf, peeked.metaLen, peeked.bodyLen);
    result, header := DecodedFrame, peeked;
  }

  /** Consumes a packet that is all there. */
  method TakePacket(buf: Buffer, metaLen: nat, bodyLen: nat) returns (meta: Bytes, body: Bytes)
    requires buf.Valid() && RPC_HEADER_SIZE + metaLen + bodyLen <= buf.ReadableBytes()
    modifies buf`readIndex, buf`writeIndex
    ensures buf.Valid()
    ensures
      var stream := old(buf.Contents());
      && meta == stream[RPC_HEADER_SIZE..RPC_HEADER_SIZE + metaLen]
      && body == stream[RPC_HEADER_SIZE + metaLen..RPC_HEADER_SIZE + metaLen + bodyLen]
      && buf.Contents() == stream[RPC_HEADER_SIZE + metaLen + bodyLen..]
  {
    Cuts(buf.Contents(), RPC_HEADER_SIZE, metaLen, bodyLen);
    buf.AdvanceReadIndex(RPC_HEADER_SIZE);
    meta := TakePart(buf, metaLen);
    body := TakePart(buf, bodyLen);
  }

  lemma Cuts(s: Bytes, a: nat, b: nat, c: nat)
    requires a + b + c <= |s|
    ensures s[a..][..b] == s[a..a + b] && s[a..][b..][..c] == s[a + b..a + b + c] && s[a..][b..][c..] == s[a + b + c..]
  {
  }

  /** Copies and consumes the next `len` bytes. */
  method TakePart(buf: Buffer, len: nat) returns (part: Bytes)
    requires buf.Valid() && len <= buf.ReadableBytes()
    modifies buf`readIndex, buf`writeIndex
    ensures buf.Valid()
    ensures part == old(buf.Contents())[..len] && buf.Contents() == old(buf.Contents())[len..]
  {
    if len > 0 {
      part := buf.data[buf.readIndex..buf.readIndex + len];
      buf.AdvanceReadIndex(len);
    } else {
      part := [];
    }
  }

  lemma HeaderThereAndBack(h: RpcHeader)
    ensures ParseHeader(HeaderBytes(h)) == h
  {
    Widths();
    var b := HeaderBytes(h);
    assert b[0..2] == ToBytes(h.magic, 2);
    assert b[4..12] == ToBytes(h.sequenceId, 8);
    assert b[12..16] == ToBytes(h.metaLen, 4);
    assert b[16..20] == ToBytes(h.bodyLen, 4);
    ThereAndBack(h.magic, 2);
    ThereAndBack(h.sequenceId, 8);
    ThereAndBack(h.metaLen, 4);
    ThereAndBack(h.bodyLen, 4);
  }

  lemma HeaderBackAndThere(b: Bytes)
    requires |b| == RPC_HEADER_SIZE
    ensures HeaderBytes(ParseHeader(b)) == b
  {
    BackAndThere(b[0..2]);
    BackAndThere(b[4..12]);
    BackAndThere(b[12..16]);
    BackAndThere(b[16..20]);
    assert b == b[0..2] + [b[2], b[3]] + b[4..12] + b[12..16] + b[16..20];
  }

  /** Decoding an encoded message, whatever follows it, gives back exactly the message. */
  ghost predicate Recovers(kind: RpcMessageType, sequenceId: uint64, meta: Bytes, body: Bytes, suffix: Bytes) {
    var frame := FrameBytes(kind, sequenceId, meta, body);
    var p := ParseFrame(frame + suffix);
    && p.Frame? && p.header.kind == kind.Code() && p.header.version == RPC_VERSION
    && p.header.sequenceId == sequenceId && p.meta == meta && p.body == body
    && (frame + suffix)[p.header.PacketSize()..] == suffix
  }

  lemma Sections(a: Bytes, b: Bytes, c: Bytes, d: Bytes)
    ensures var s := a + b + c + d;
      && s[..|a|] == a && s[|a|..|a| + |b|] == b && s[|a| + |b|..|a| + |b| + |c|] == c && s[|a| + |b| + |c|..] == d
  {
  }

  lemma AppendSections(queue: Bytes, a: Bytes, b: Bytes, c: Bytes)
    ensures ((queue + a) + b) + c == queue + (a + b + c)
    ensures queue + [] == queue
  {
  }

  lemma ParseEncoded(kind: RpcMessageType, sequenceId: uint64, meta: Bytes, body: Bytes, suffix: Bytes)
    requires |meta| < TWO_32 && |body| < TWO_32
    ensures ParseFrame(FrameBytes(kind, sequenceId, meta, body) + suffix)
         == Frame(RequestHeader(kind, sequenceId, meta, body), meta, body)
    ensures RequestHeader(kind, sequenceId, meta, body).PacketSize() == |FrameBytes(kind, sequenceId, meta, body)|
  {
    var h := RequestHeader(kind, sequenceId, meta, body);
    HeaderThereAndBack(h);
    ParsePieces(HeaderBytes(h), meta, body, suffix);
  }

  lemma ParsePieces(header: Bytes, meta: Bytes, body: Bytes, suffix: Bytes)
    requires |header| == RPC_HEADER_SIZE && ParseHeader(header).magic == RPC_MAGIC
    requires ParseHeader(header).metaLen == |meta| && ParseHeader(header).bodyLen == |body|
    ensures ParseFrame(header + meta + body + suffix) == Frame(ParseHeader(header), meta, body)
  {
    Sections(header, meta, body, suffix);
  }

  /** The round trip holds, for every suffix, exactly when both parts fit their 32-bit length field. */
  lemma RoundTrip(kind: RpcMessageType, sequenceId: uint64, meta: Bytes, body: Bytes)
    ensures (forall suffix :: Recovers(kind, sequenceId, meta, body, suffix)) <==> |meta| < TWO_32 && |body| < TWO_32
  {
    if |meta| < TWO_32 && |body| < TWO_32 {
      forall suffix ensures Recovers(kind, sequenceId, meta, body, suffix) {
        ParseEncoded(kind, sequenceId, meta, body, suffix);
        var frame := FrameBytes(kind, sequenceId, meta, body);
        assert (frame + suffix)[|frame|..] == suffix;
      }
    } else {
      assert !Recovers(kind, sequenceId, meta, body, []);
    }
  }

  /** A frame cut short is never mistaken for a frame or for corruption. */
  lemma ProperPrefix(kind: RpcMessageType, sequenceId: uint64, meta: Bytes, body: Bytes, n: nat)
    requires |meta| < TWO_32 && |body| < TWO_32
    requires n < |FrameBytes(kind, sequenceId, meta, body)|
    ensures ParseFrame(FrameBytes(kind, sequenceId, meta, body)[..n]) == if n < RPC_HEADER_SIZE then Empty else HalfPack
  {
    var h := RequestHeader(kind, sequenceId, meta, body);
    HeaderThereAndBack(h);
    if n >= RPC_HEADER_SIZE {
      assert FrameBytes(kind, sequenceId, meta, body)[..n][..RPC_HEADER_SIZE] == HeaderBytes(h);
    }
  }

  /** A verdict other than "wait" does not depend on what arrives later, and a frame takes at least its header. */
  lemma PrefixStable(b: Bytes, more: Bytes)
    ensures ParseFrame(b).Frame? || ParseFrame(b).Corrupt? ==> ParseFrame(b + more) == ParseFrame(b)
    ensures ParseFrame(b).Frame? ==> RPC_HEADER_SIZE <= ParseFrame(b).header.PacketSize() <= |b|
  {
    if |b| >= RPC_HEADER_SIZE {
      assert (b + more)[..RPC_HEADER_SIZE] == b[..RPC_HEADER_SIZE];
      var h := ParseHeader(b[..RPC_HEADER_SIZE]);
      if h.magic == RPC_MAGIC && h.PacketSize() <= |b| {
        assert (b + more)[RPC_HEADER_SIZE..RPC_HEADER_SIZE + h.metaLen] == b[RPC_HEADER_SIZE..RPC_HEADER_SIZE + h.metaLen];
        assert (b + more)[RPC_HEADER_SIZE + h.metaLen..h.PacketSize()] == b[RPC_HEADER_SIZE + h.metaLen..h.PacketSize()];
      }
    }
  }

  /** Framing is unambiguous: a parsed frame is spelled by exactly one byte string. */
  lemma FrameSpelling(b: Bytes)
    requires ParseFrame(b).Frame?
    ensures var p := ParseFrame(b);
      && b[..p.header.PacketSize()] == HeaderBytes(p.header) + p.meta + p.body
      && |p.meta| == p.header.metaLen && |p.body| == p.header.bodyLen && p.header.magic == RPC_MAGIC
  {
    HeaderBackAndThere(b[..RPC_HEADER_SIZE]);
    var h := ParseFrame(b).header;
    assert b[..h.PacketSize()] == b[..RPC_HEADER_SIZE] + b[RPC_HEADER_SIZE..RPC_HEADER_SIZE + h.metaLen]
                                + b[RPC_HEADER_SIZE + h.metaLen..h.PacketSize()];
  }
}
