/** A byte stream as a sequence of frames, and what cutting it into chunks can change: nothing. */
module RpcFraming {
  import opened Common
  import opened BinaryRpcCodec

  datatype Packet = Packet(header: RpcHeader, meta: Bytes, body: Bytes)

  /** All complete requests of a stream, what is left over, and whether it broke. */
  datatype Outcome = Outcome(packets: seq<Packet>, residue: Bytes, corrupt: bool) {
    function After(r: Packet): Outcome { this.(packets := [r] + packets) }
    function AfterAll(rs: seq<Packet>): Outcome { this.(packets := rs + packets) }
  }

  lemma AfterNone(o: Outcome)
    ensures o.AfterAll([]) == o && o.packets + [] == o.packets
  {
  }

  lemma AfterOne(o: Outcome, done: seq<Packet>, r: Packet)
    ensures o.After(r).AfterAll(done) == o.AfterAll(done + [r])
  {
    assert done + ([r] + o.packets) == (done + [r]) + o.packets;
  }

  /** Reads the whole stream at once; a frame whose metadata does not parse is as bad as a wrong magic. */
  function Consume(metaOk: Bytes -> bool, stream: Bytes): (o: Outcome)
    decreases |stream|
  {
    match ParseFrame(stream)
    case Empty => Outcome([], stream, false)
    case HalfPack => Outcome([], stream, false)
    case Corrupt => Outcome([], stream, true)
    case Frame(h, m, b) =>
      PrefixStable(stream, []);
      if metaOk(m) then Consume(metaOk, stream[h.PacketSize()..]).After(Packet(h, m, b))
      else Outcome([], stream[h.PacketSize()..], true)
  }

  /** What one connection has seen so far. */
  datatype Session = Session(packets: seq<Packet>, residue: Bytes, corrupt: bool)

  const NEW_SESSION := Session([], [], false)

  /** One delivery; a broken connection is closed and gets no more of them. */
  function Feed(metaOk: Bytes -> bool, s: Session, chunk: Bytes): Session {
    if s.corrupt || chunk == [] then s else
      var o := Consume(metaOk, s.residue + chunk);
      Session(s.packets + o.packets, if o.corrupt then [] else o.residue, o.corrupt)
  }

  function FeedAll(metaOk: Bytes -> bool, chunks: seq<Bytes>): Session {
    if chunks == [] then NEW_SESSION else
      Feed(metaOk, FeedAll(metaOk, chunks[..|chunks| - 1]), chunks[|chunks| - 1])
  }

  /** Reading on after a stop is the same as never having stopped. */
  lemma {:induction false} ConsumeSplit(metaOk: Bytes -> bool, a: Bytes, b: Bytes)
    ensures var o := Consume(metaOk, a);
      if o.corrupt
      then Consume(metaOk, a + b).corrupt && Consume(metaOk, a + b).packets == o.packets
      else Consume(metaOk, a + b) == Consume(metaOk, o.residue + b).AfterAll(o.packets)
    decreases |a|
  {
    PrefixStable(a, b);
    match ParseFrame(a)
    case Frame(h, m, body) =>
      DropInside(a, b, h.PacketSize());
      if metaOk(m) {
        ConsumeSplit(metaOk, a[h.PacketSize()..], b);
        var r := Packet(h, m, body);
        var rest := Consume(metaOk, a[h.PacketSize()..]);
        if !rest.corrupt {
          var tail := Consume(metaOk, rest.residue + b);
          Assoc([r], rest.packets, tail.packets);
        }
      }
    case Corrupt =>
    case _ =>
      assert Consume(metaOk, a).AfterAll([]) == Consume(metaOk, a);
  }

  /**
   * However the stream is cut into deliveries, the requests dispatched, the residue kept and the
   * point of failure are those of the stream read at once.
   */
  lemma {:induction false} ChunkingIndependence(metaOk: Bytes -> bool, chunks: seq<Bytes>)
    ensures
      var o := Consume(metaOk, Concat(chunks));
      FeedAll(metaOk, chunks) == Session(o.packets, if o.corrupt then [] else o.residue, o.corrupt)
  {
    if chunks != [] {
      var front, last := chunks[..|chunks| - 1], chunks[|chunks| - 1];
      ChunkingIndependence(metaOk, front);
      ConsumeSplit(metaOk, Concat(front), last);
      if last == [] {
        assert Concat(front) + last == Concat(front);
      }
    }
  }

  lemma SameStreamSameSession(metaOk: Bytes -> bool, chunks: seq<Bytes>, chunks': seq<Bytes>)
    requires Concat(chunks) == Concat(chunks')
    ensures FeedAll(metaOk, chunks) == FeedAll(metaOk, chunks')
  {
    ChunkingIndependence(metaOk, chunks);
    ChunkingIndependence(metaOk, chunks');
  }

  /** The residue is always an incomplete frame: nothing dispatchable is held back. */
  lemma {:induction false} ResidueIsIncomplete(metaOk: Bytes -> bool, stream: Bytes)
    requires !Consume(metaOk, stream).corrupt
    ensures var p := ParseFrame(Consume(metaOk, stream).residue); p.Empty? || p.HalfPack?
    ensures exists k :: 0 <= k <= |stream| && Consume(metaOk, stream).residue == stream[k..]
    decreases |stream|
  {
    match ParseFrame(stream)
    case Frame(h, m, b) =>
      PrefixStable(stream, []);
      var rest := stream[h.PacketSize()..];
      ResidueIsIncomplete(metaOk, rest);
      var k :| 0 <= k <= |rest| && Consume(metaOk, rest).residue == rest[k..];
      assert Consume(metaOk, stream).residue == stream[h.PacketSize() + k..];
    case _ =>
      assert stream == stream[0..];
  }

  /** A stream of whole frames whose metadata all parses, and nothing else. */
  predicate GoodFrames(metaOk: Bytes -> bool, stream: Bytes)
    decreases |stream|
  {
    stream == [] ||
    match ParseFrame(stream)
    case Frame(h, m, _) =>
      PrefixStable(stream, []);
      metaOk(m) && GoodFrames(metaOk, stream[h.PacketSize()..])
    case _ => false
  }

  /** Where a stream cannot go on: a header with the wrong first two bytes, or a frame whose metadata does not parse. */
  predicate BadNext(metaOk: Bytes -> bool, rest: Bytes) {
    (|rest| >= 20 && rest[..2] != [0x54, 0x44]) || (ParseFrame(rest).Frame? && !metaOk(ParseFrame(rest).meta))
  }

  /** The stream goes wrong behind some whole good frames. */
  ghost predicate GoesWrong(metaOk: Bytes -> bool, stream: Bytes) {
    exists k {:trigger stream[..k]} :: 0 <= k <= |stream| && GoodFrames(metaOk, stream[..k]) && BadNext(metaOk, stream[k..])
  }

  lemma GoesWrongLater(metaOk: Bytes -> bool, stream: Bytes)
    requires ParseFrame(stream).Frame? && metaOk(ParseFrame(stream).meta)
    ensures var n := ParseFrame(stream).header.PacketSize();
      n <= |stream| && (GoesWrong(metaOk, stream) <==> GoesWrong(metaOk, stream[n..]))
  {
    PrefixStable(stream, []);
    var n := ParseFrame(stream).header.PacketSize();
    var rest := stream[n..];
    if GoesWrong(metaOk, rest) {
      var k :| 0 <= k <= |rest| && GoodFrames(metaOk, rest[..k]) && BadNext(metaOk, rest[k..]);
      WrongBehind(metaOk, stream, n, k);
    }
    if GoesWrong(metaOk, stream) {
      var k :| 0 <= k <= |stream| && GoodFrames(metaOk, stream[..k]) && BadNext(metaOk, stream[k..]);
      WrongFurther(metaOk, stream, n, k);
    }
  }

  lemma WrongBehind(metaOk: Bytes -> bool, stream: Bytes, n: nat, k: nat)
    requires ParseFrame(stream).Frame? && metaOk(ParseFrame(stream).meta)
    requires n == ParseFrame(stream).header.PacketSize() && n + k <= |stream|
    requires GoodFrames(metaOk, stream[n..][..k]) && BadNext(metaOk, stream[n..][k..])
    ensures GoesWrong(metaOk, stream)
  {
    PrefixStable(stream, []);
    OneGoodFrame(metaOk, stream, n + k);
    Windows(stream, n, k);
    assert GoodFrames(metaOk, stream[..n + k]) && BadNext(metaOk, stream[n + k..]);
  }

  lemma Windows(stream: Bytes, n: nat, k: nat)
    requires n + k <= |stream|
    ensures stream[..n + k][n..] == stream[n..][..k] && stream[n + k..] == stream[n..][k..]
  {
  }

  lemma WrongFurther(metaOk: Bytes -> bool, stream: Bytes, n: nat, k: nat)
    requires ParseFrame(stream).Frame? && metaOk(ParseFrame(stream).meta)
    requires n == ParseFrame(stream).header.PacketSize() <= |stream| && k <= |stream|
    requires GoodFrames(metaOk, stream[..k]) && BadNext(metaOk, stream[k..])
    ensures GoesWrong(metaOk, stream[n..])
  {
    if k == 0 {
      assert stream[0..] == stream;
      VerdictsInBytes(stream);
    } else {
      WholeFrameFirst(metaOk, stream, k);
      assert stream[..k][n..] == stream[n..][..k - n] && stream[k..] == stream[n..][k - n..];
    }
  }

  lemma OneGoodFrame(metaOk: Bytes -> bool, stream: Bytes, k: nat)
    requires ParseFrame(stream).Frame? && metaOk(ParseFrame(stream).meta)
    requires ParseFrame(stream).header.PacketSize() <= k <= |stream|
    ensures var n := ParseFrame(stream).header.PacketSize();
      GoodFrames(metaOk, stream[..k]) <==> GoodFrames(metaOk, stream[..k][n..])
  {
    FrameNeedsOnlyItself(stream, k);
  }

  /** A whole frame is parsed alike with or without what follows it. */
  lemma FrameNeedsOnlyItself(stream: Bytes, k: nat)
    requires ParseFrame(stream).Frame? && ParseFrame(stream).header.PacketSize() <= k <= |stream|
    ensures ParseFrame(stream[..k]) == ParseFrame(stream)
  {
    PrefixStable(stream, []);
    var h := ParseFrame(stream).header;
    assert stream[..k][..RPC_HEADER_SIZE] == stream[..RPC_HEADER_SIZE];
    assert stream[..k][RPC_HEADER_SIZE..RPC_HEADER_SIZE + h.metaLen] == stream[RPC_HEADER_SIZE..RPC_HEADER_SIZE + h.metaLen];
    assert stream[..k][RPC_HEADER_SIZE + h.metaLen..h.PacketSize()] == stream[RPC_HEADER_SIZE + h.metaLen..h.PacketSize()];
  }

  lemma WholeFrameFirst(metaOk: Bytes -> bool, stream: Bytes, k: nat)
    requires 0 < k <= |stream| && GoodFrames(metaOk, stream[..k]) && ParseFrame(stream).Frame?
    ensures var n := ParseFrame(stream).header.PacketSize();
      n <= k && GoodFrames(metaOk, stream[..k][n..])
  {
    PrefixStable(stream[..k], stream[k..]);
    assert stream[..k] + stream[k..] == stream;
  }

  /**
   * A stream breaks if and only if behind some whole good frames comes a header with the wrong
   * first two bytes, or a frame whose metadata does not parse.
   */
  lemma {:induction false} CorruptExactly(metaOk: Bytes -> bool, stream: Bytes)
    ensures Consume(metaOk, stream).corrupt <==> GoesWrong(metaOk, stream)
    decreases |stream|
  {
    VerdictsInBytes(stream);
    assert stream[..0] == [] && stream[0..] == stream;
    match ParseFrame(stream)
    case Frame(h, m, _) =>
      PrefixStable(stream, []);
      if metaOk(m) {
        GoesWrongLater(metaOk, stream);
        CorruptExactly(metaOk, stream[h.PacketSize()..]);
      }
    case Corrupt =>
    case _ =>
      NoFrameNoHarm(metaOk, stream);
  }

  lemma NoFrameNoHarm(metaOk: Bytes -> bool, stream: Bytes)
    requires ParseFrame(stream).Empty? || ParseFrame(stream).HalfPack?
    ensures !GoesWrong(metaOk, stream)
  {
    VerdictsInBytes(stream);
    forall k | 0 <= k <= |stream| && GoodFrames(metaOk, stream[..k]) ensures k == 0 {
      PrefixStable(stream[..k], stream[k..]);
      assert stream[..k] + stream[k..] == stream;
    }
    assert stream[0..] == stream;
  }

  /** A message somebody encoded. */
  datatype Message = Message(kind: RpcMessageType, sequenceId: uint64, meta: Bytes, body: Bytes) {
    predicate Fits() { |meta| < TWO_32 && |body| < TWO_32 }
    function Encoded(): Bytes { FrameBytes(kind, sequenceId, meta, body) }
    function AsPacket(): Packet { Packet(RequestHeader(kind, sequenceId, meta, body), meta, body) }
  }

  function EncodedAll(messages: seq<Message>): Bytes {
    if messages == [] then [] else messages[0].Encoded() + EncodedAll(messages[1..])
  }

  function Packets(messages: seq<Message>): (r: seq<Packet>)
    ensures |r| == |messages|
  {
    seq(|messages|, i requires 0 <= i < |messages| => messages[i].AsPacket())
  }

  /** End to end: a stream of encoded messages followed by part of one more is read back as just those messages. */
  lemma {:induction false} EncodedStreamDecodes(metaOk: Bytes -> bool, messages: seq<Message>, next: Message, n: nat)
    requires forall m :: m in messages ==> m.Fits() && metaOk(m.meta)
    requires next.Fits() && n < |next.Encoded()|
    ensures Consume(metaOk, EncodedAll(messages) + next.Encoded()[..n])
         == Outcome(Packets(messages), next.Encoded()[..n], false)
  {
    var part := next.Encoded()[..n];
    if messages == [] {
      ProperPrefix(next.kind, next.sequenceId, next.meta, next.body, n);
      assert EncodedAll(messages) + part == part;
      assert Packets(messages) == [];
    } else {
      var m := messages[0];
      var rest := EncodedAll(messages[1..]) + part;
      Assoc(m.Encoded(), EncodedAll(messages[1..]), part);
      ParseEncoded(m.kind, m.sequenceId, m.meta, m.body, rest);
      assert (m.Encoded() + rest)[|m.Encoded()|..] == rest;
      EncodedStreamDecodes(metaOk, messages[1..], next, n);
      assert Packets(messages) == [m.AsPacket()] + Packets(messages[1..]);
    }
  }
}
