/** The server's half-packet loop: cache, decode, dispatch, answer. */
module BinaryRpcServers {
  import opened Common
  import opened Buffers
  import opened BinaryRpcCodec
  import opened RpcFraming
  import opened ServedLog

  type Router = (Bytes, Bytes) -> Option<Bytes>  // metadata, body: the response, or an exception

  /** The response frame of a request, with the request's own sequence id; nothing if its handler threw. */
  function ReplyOf(router: Router): Packet -> Bytes {
    (p: Packet) =>
      match router(p.meta, p.body)
      case None => []
      case Some(raw) => FrameBytes(Response, p.header.sequenceId, [], raw)
  }

  datatype Step = More | Done | Broken

  class BinaryRpcServer {
    const parsesMeta: Bytes -> bool       // RpcMeta::ParseFromString
    const router: Router
    var connectionBuffers: map<ConnId, Bytes>
    var log: seq<Handled<Packet>>
    var forceClosed: set<ConnId>

    ghost predicate Valid()
      reads this
    {
      Answered(log, ReplyOf(router))
    }

    constructor (parsesMeta: Bytes -> bool, router: Router)
      ensures this.parsesMeta == parsesMeta && this.router == router && Valid()
      ensures forall c :: SessionOf(c) == NEW_SESSION
    {
      this.parsesMeta, this.router := parsesMeta, router;
      connectionBuffers, log, forceClosed := map[], [], {};
    }

    function CacheOf(conn: ConnId): Bytes
      reads this
    {
      if conn in connectionBuffers then connectionBuffers[conn] else []
    }

    ghost function SessionOf(conn: ConnId): Session
      reads this
    {
      Session(ItemsOf(log, conn), CacheOf(conn), conn in forceClosed)
    }

    /**
     * One read event: the session moves as the stream says, the new requests are answered in order,
     * and no other connection notices. A force-closed connection gets no further read events.
     */
    method OnMessage(conn: ConnId, data: Bytes)
      requires Valid() && conn !in forceClosed
      modifies this
      ensures Valid()
      ensures SessionOf(conn) == Feed(parsesMeta, old(SessionOf(conn)), data)
      ensures forall c :: c != conn ==> SessionOf(c) == old(SessionOf(c)) && SentOn(log, c) == old(SentOn(log, c))
    {
      if data == [] {
        return;
      }
      ghost var o := Consume(parsesMeta, CacheOf(conn) + data);
      AppendAndDecode(conn, data);
      forall c ensures
        && ItemsOf(log, c) == old(ItemsOf(log, c)) + (if c == conn then o.packets else [])
        && (c != conn ==> SentOn(log, c) == old(SentOn(log, c)))
      {
        HandledShows(old(log), conn, ReplyOf(router), o.packets, c);
      }
    }

    /** The cache takes the data, is decoded, and keeps the half packet at its end. */
    method AppendAndDecode(conn: ConnId, data: Bytes)
      requires Valid()
      modifies this
      ensures Valid()
      ensures
        var o := Consume(parsesMeta, old(CacheOf(conn)) + data);
        && log == old(log) + HandledAll(conn, ReplyOf(router), o.packets)
        && forceClosed == old(forceClosed) + (if o.corrupt then {conn} else {})
        && CacheOf(conn) == (if o.corrupt then [] else o.residue)
      ensures forall c :: c != conn ==> CacheOf(c) == old(CacheOf(c))
    {
      var cache := CacheOf(conn) + data;
      connectionBuffers := connectionBuffers[conn := cache];
      var hasCorruptFrame, rest := DecodeCache(conn, cache);
      if hasCorruptFrame {
        forceClosed := forceClosed + {conn};
        connectionBuffers := connectionBuffers - {conn};
      } else {
        connectionBuffers := connectionBuffers[conn := rest];
      }
    }

    /** Loads the cache into a temporary buffer and decodes that. */
    method DecodeCache(conn: ConnId, cache: Bytes) returns (hasCorruptFrame: bool, rest: Bytes)
      requires Valid()
      modifies this`log
      ensures Valid()
      ensures
        var o := Consume(parsesMeta, cache);
        && hasCorruptFrame == o.corrupt && (!o.corrupt ==> rest == o.residue)
        && log == old(log) + HandledAll(conn, ReplyOf(router), o.packets)
    {
      var buf := new Buffer();
      buf.WriteToBuffer(cache);
      assert buf.Contents() == cache;
      hasCorruptFrame := DecodeLoop(conn, buf);
      rest := buf.ReadAll();
    }

    /** Decodes and dispatches until the buffer holds no complete frame, or a corrupt one. */
    method DecodeLoop(conn: ConnId, buf: Buffer) returns (hasCorruptFrame: bool)
      requires Valid() && buf.Valid()
      modifies this`log, buf`readIndex, buf`writeIndex
      ensures Valid() && buf.Valid()
      ensures
        var o := Consume(parsesMeta, old(buf.Contents()));
        && hasCorruptFrame == o.corrupt && (!o.corrupt ==> buf.Contents() == o.residue)
        && log == old(log) + HandledAll(conn, ReplyOf(router), o.packets)
    {
      ghost var total := Consume(parsesMeta, buf.Contents());
      ghost var done: seq<Packet> := [];
      ghost var rest := total;
      AfterNone(total);
      var step := More;
      while step == More
        invariant Valid() && buf.Valid()
        invariant log == old(log) + HandledAll(conn, ReplyOf(router), done)
        invariant total == rest.AfterAll(done)
        invariant step == More ==> rest == Consume(parsesMeta, buf.Contents())
        invariant step != More ==> rest == Outcome([], rest.residue, step == Broken)
        invariant step == Done ==> rest.residue == buf.Contents()
        decreases step == More, buf.ReadableBytes()
      {
        ghost var p;
        step, p := DecodeOne(conn, buf);
        if step == More {
          rest := Consume(parsesMeta, buf.Contents());
          AfterOne(rest, done, p);
          HandledSnoc(old(log), conn, ReplyOf(router), done, p);
          done := done + [p];
        }
      }
      AfterNone(Outcome(done, [], false));
      hasCorruptFrame := step == Broken;
    }

    /** One turn of the decode loop: one packet dispatched, or a reason to stop. */
    method DecodeOne(conn: ConnId, buf: Buffer) returns (step: Step, ghost p: Packet)
      requires Valid() && buf.Valid()
      modifies this`log, buf`readIndex, buf`writeIndex
      ensures Valid() && buf.Valid()
      ensures step == More ==> |buf.Contents()| < |old(buf.Contents())|
      ensures step == More ==>
        Consume(parsesMeta, old(buf.Contents())) == Consume(parsesMeta, buf.Contents()).After(p)
      ensures step != More ==>
        Consume(parsesMeta, old(buf.Contents())) == Outcome([], Consume(parsesMeta, old(buf.Contents())).residue, step == Broken)
      ensures step == Done ==> Consume(parsesMeta, old(buf.Contents())).residue == buf.Contents()
      ensures log == old(log) + if step == More then [Handled(conn, p, ReplyOf(router)(p))] else []
    {
      PrefixStable(buf.Contents(), []);
      p := Packet(RpcHeader(0, 0, 0, 0, 0, 0), [], []);
      var result, header, metaRaw, bodyRaw := Decode(buf);
      if result == DecodedFrame {
        if !parsesMeta(metaRaw) {
          step := Broken;
          return;
        }
        Dispatch(conn, header, metaRaw, bodyRaw);
        step, p := More, Packet(header, metaRaw, bodyRaw);
      } else if result == DecodedHalfPack || result == DecodedEmpty {
        step := Done;
      } else {
        step := Broken;
      }
    }

    /** Hands one request to the router; the response closure echoes the request's sequence id. */
    method Dispatch(conn: ConnId, header: RpcHeader, meta: Bytes, body: Bytes)
      requires Valid()
      modifies this`log
      ensures Valid()
      ensures var p := Packet(header, meta, body); log == old(log) + [Handled(conn, p, ReplyOf(router)(p))]
    {
      var sent := [];
      var response := router(meta, body);
      if response.Some? {
        sent := EncodeResponse(header.sequenceId, response.value);
      }
      log := log + [Handled(conn, Packet(header, meta, body), sent)];
    }

    method EncodeResponse(sequenceId: uint64, raw: Bytes) returns (bytes: Bytes)
      ensures bytes == FrameBytes(Response, sequenceId, [], raw)
    {
      var responseBuf := new Buffer();
      Encode(responseBuf, Response, sequenceId, [], raw);
      bytes := responseBuf.ReadAll();
    }

    method OnClose(conn: ConnId)
      requires Valid()
      modifies this`connectionBuffers
      ensures Valid() && SessionOf(conn) == old(SessionOf(conn)).(residue := [])
      ensures forall c :: c != conn ==> SessionOf(c) == old(SessionOf(c))
    {
      connectionBuffers := connectionBuffers - {conn};
    }
  }

  /** The responses a list of packets produces, as messages. */
  function ReplyMessages(router: Router, rs: seq<Packet>): seq<Message> {
    if rs == [] then [] else
      match router(rs[0].meta, rs[0].body)
      case None => ReplyMessages(router, rs[1..])
      case Some(raw) => [Message(Response, rs[0].header.sequenceId, [], raw)] + ReplyMessages(router, rs[1..])
  }

  lemma {:induction false} RepliesAreMessages(router: Router, rs: seq<Packet>)
    ensures Answers(ReplyOf(router), rs) == EncodedAll(ReplyMessages(router, rs))
  {
    if rs != [] {
      AnswersFromFront(ReplyOf(router), rs);
      RepliesAreMessages(router, rs[1..]);
      var rest := ReplyMessages(router, rs[1..]);
      match router(rs[0].meta, rs[0].body)
      case None =>
      case Some(raw) =>
        var m := Message(Response, rs[0].header.sequenceId, [], raw);
        assert ([m] + rest)[1..] == rest;
    }
  }

  /** The requests whose handler answered. */
  function AnsweredOnes(router: Router, rs: seq<Packet>): seq<Packet> {
    if rs == [] then [] else (if router(rs[0].meta, rs[0].body).Some? then [rs[0]] else []) + AnsweredOnes(router, rs[1..])
  }

  /** One response per answered request, in order, each with the id of its own request and the handler's bytes. */
  lemma {:induction false} EachReplyEchoes(router: Router, rs: seq<Packet>)
    ensures var ms, answered := ReplyMessages(router, rs), AnsweredOnes(router, rs);
      && |ms| == |answered|
      && forall i :: 0 <= i < |ms| ==>
        && ms[i].kind == Response && ms[i].sequenceId == answered[i].header.sequenceId && ms[i].meta == []
        && router(answered[i].meta, answered[i].body) == Some(ms[i].body)
  {
    if rs != [] {
      EachReplyEchoes(router, rs[1..]);
    }
  }

  /**
   * A client that reads the server's answers in any chunks sees exactly one response per answered
   * request, in request order, each carrying the sequence id of its request.
   */
  lemma RepliesDecode(router: Router, rs: seq<Packet>, chunks: seq<Bytes>)
    requires forall r :: r in rs && router(r.meta, r.body).Some? ==> |router(r.meta, r.body).value| < TWO_32
    requires Concat(chunks) == Answers(ReplyOf(router), rs)
    ensures FeedAll(_ => true, chunks) == Session(Packets(ReplyMessages(router, rs)), [], false)
  {
    var all := (_: Bytes) => true;
    var messages := ReplyMessages(router, rs);
    RepliesAreMessages(router, rs);
    RepliesFit(router, rs);
    ChunkingIndependence(all, chunks);
    var next := Message(Response, 0, [], []);
    EncodedStreamDecodes(all, messages, next, 0);
    assert EncodedAll(messages) + next.Encoded()[..0] == EncodedAll(messages);
    assert FeedAll(all, chunks) == Session(Packets(messages), [], false);
  }

  lemma {:induction false} RepliesFit(router: Router, rs: seq<Packet>)
    requires forall r :: r in rs && router(r.meta, r.body).Some? ==> |router(r.meta, r.body).value| < TWO_32
    ensures forall m :: m in ReplyMessages(router, rs) ==> m.Fits()
  {
    if rs != [] {
      RepliesFit(router, rs[1..]);
    }
  }

  lemma FeedSnoc(metaOk: Bytes -> bool, chunks: seq<Bytes>, last: Bytes)
    ensures FeedAll(metaOk, chunks + [last]) == Feed(metaOk, FeedAll(metaOk, chunks), last)
  {
    assert (chunks + [last])[..|chunks|] == chunks;
  }

  /**
   * For every interleaving of deliveries to any number of connections, each connection sees its
   * own stream as if it were alone and had arrived at once, and gets its own answers in order.
   */
  method Serve(server: BinaryRpcServer, events: seq<(ConnId, Bytes)>)
    requires server.Valid() && forall c :: server.SessionOf(c) == NEW_SESSION
    modifies server
    ensures server.Valid()
    ensures forall c ::
      var o := Consume(server.parsesMeta, Concat(Only(events, c)));
      && server.SessionOf(c) == Session(o.packets, if o.corrupt then [] else o.residue, o.corrupt)
      && SentOn(server.log, c) == Answers(ReplyOf(server.router), o.packets)
    ensures forall c :: c in server.forceClosed <==> GoesWrong(server.parsesMeta, Concat(Only(events, c)))
  {
    for n := 0 to |events|
      invariant server.Valid()
      invariant forall c :: server.SessionOf(c) == FeedAll(server.parsesMeta, Only(events[..n], c))
    {
      var conn, data := events[n].0, events[n].1;
      assert events[..n + 1] == events[..n] + [events[n]];
      forall c ensures Only(events[..n + 1], c) ==
        if c == conn then Only(events[..n], c) + [data] else Only(events[..n], c)
      {
        OnlySnoc(events[..n], events[n], c);
      }
      FeedSnoc(server.parsesMeta, Only(events[..n], conn), data);
      if conn !in server.forceClosed {
        server.OnMessage(conn, data);
      }
    }
    assert events[..|events|] == events;
    forall c ensures
      var o := Consume(server.parsesMeta, Concat(Only(events, c)));
      && server.SessionOf(c) == Session(o.packets, if o.corrupt then [] else o.residue, o.corrupt)
      && SentOn(server.log, c) == Answers(ReplyOf(server.router), o.packets)
    {
      ChunkingIndependence(server.parsesMeta, Only(events, c));
      SentAreAnswers(server.log, ReplyOf(server.router), c);
    }
    forall c ensures c in server.forceClosed <==> GoesWrong(server.parsesMeta, Concat(Only(events, c))) {
      assert server.SessionOf(c).corrupt == (c in server.forceClosed);
      CorruptExactly(server.parsesMeta, Concat(Only(events, c)));
    }
  }
}
