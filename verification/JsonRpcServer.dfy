/** The JSON-RPC server's connection handling: one request a line, one line back unless it is a notification. */
module JsonRpcServers {
  import opened Common
  import opened LineFraming
  import opened ServedLog

  type LineRouter = Bytes -> Bytes  // the request line: its response, empty for a notification

  function AnswerOf(router: LineRouter): Bytes -> Bytes {
    line => if router(line) == [] then [] else router(line) + [NEWLINE]
  }

  /** The responses to some lines, notifications left out. */
  function Responses(router: LineRouter, lines: seq<Bytes>): seq<Bytes> {
    if lines == [] then [] else
      Responses(router, lines[..|lines| - 1]) + if router(lines[|lines| - 1]) == [] then [] else [router(lines[|lines| - 1])]
  }

  /** What is sent is the responses, each ended by a newline. */
  lemma {:induction false} AnswersAreLines(router: LineRouter, lines: seq<Bytes>)
    ensures Answers(AnswerOf(router), lines) == Joined(Responses(router, lines))
  {
    if lines != [] {
      var front, last := lines[..|lines| - 1], lines[|lines| - 1];
      AnswersAreLines(router, front);
      if router(last) == [] {
        assert Responses(router, front) + [] == Responses(router, front);
      } else {
        JoinedSnoc(Responses(router, front), router(last));
        Assoc(Joined(Responses(router, front)), router(last), [NEWLINE]);
      }
    }
  }

  /** A client that reads line by line gets back just the responses, as long as none has a newline in it. */
  lemma ClientReadsResponses(router: LineRouter, lines: seq<Bytes>, chunks: seq<Bytes>)
    requires Unbroken(Responses(router, lines)) && Concat(chunks) == Answers(AnswerOf(router), lines)
    ensures FeedLines(chunks) == LineSession(Responses(router, lines), [])
  {
    AnswersAreLines(router, lines);
    NoEmptyResponse(router, lines);
    LinesMeaning(Responses(router, lines));
    assert Joined(Responses(router, lines)) + [] == Joined(Responses(router, lines));
    AnyChunkingOfSegments(chunks, Responses(router, lines), []);
  }

  lemma {:induction false} NoEmptyResponse(router: LineRouter, lines: seq<Bytes>)
    ensures forall i :: 0 <= i < |Responses(router, lines)| ==> Responses(router, lines)[i] != []
  {
    if lines != [] { NoEmptyResponse(router, lines[..|lines| - 1]); }
  }

  lemma HandledNext(log: seq<Handled<Bytes>>, conn: ConnId, router: LineRouter, segments: seq<Bytes>, line: Bytes)
    ensures log + HandledAll(conn, AnswerOf(router), Lines(segments + [line]))
         == log + HandledAll(conn, AnswerOf(router), Lines(segments))
            + if line == [] then [] else [Handled(conn, line, AnswerOf(router)(line))]
  {
    LinesSnoc(segments, line);
    if line == [] {
      assert Lines(segments) + [] == Lines(segments);
    } else {
      HandledSnoc(log, conn, AnswerOf(router), Lines(segments), line);
    }
  }

  class JsonRpcServer {
    const router: LineRouter
    var connectionBuffers: map<ConnId, Bytes>
    var log: seq<Handled<Bytes>>

    constructor (router: LineRouter)
      ensures this.router == router
      ensures forall c :: SessionOf(c) == LineSession([], [])
      ensures Valid()
    {
      this.router := router;
      connectionBuffers, log := map[], [];
    }

    ghost predicate Valid()
      reads this
    {
      Answered(log, AnswerOf(router)) && forall c :: c in connectionBuffers ==> NEWLINE !in connectionBuffers[c]
    }

    function BufferOf(conn: ConnId): Bytes
      reads this
    {
      if conn in connectionBuffers then connectionBuffers[conn] else []
    }

    ghost function SessionOf(conn: ConnId): LineSession
      reads this
    {
      LineSession(ItemsOf(log, conn), BufferOf(conn))
    }

    /** One read event: the session moves as the stream says, and no other connection notices. */
    method OnMessage(conn: ConnId, data: Bytes)
      requires Valid()
      modifies this
      ensures Valid()
      ensures SessionOf(conn) == FeedLine(old(SessionOf(conn)), data)
      ensures forall c :: c != conn ==> SessionOf(c) == old(SessionOf(c)) && SentOn(log, c) == old(SentOn(log, c))
    {
      if data == [] {
        CutUnbroken([], BufferOf(conn));
        assert [] + BufferOf(conn) == BufferOf(conn) == BufferOf(conn) + data;
        return;
      }
      ghost var lines := Lines(CutOf(BufferOf(conn) + data).segments);
      var connBuf := BufferOf(conn) + data;
      CutIsExact(connBuf);
      var rest := DispatchLines(conn, connBuf);
      connectionBuffers := connectionBuffers[conn := rest];
      forall c ensures
        && ItemsOf(log, c) == old(ItemsOf(log, c)) + (if c == conn then lines else [])
        && (c != conn ==> SentOn(log, c) == old(SentOn(log, c)))
      {
        HandledShows(old(log), conn, AnswerOf(router), lines, c);
      }
    }

    /** Cuts line after line off the front of the connection's buffer until no newline is left. */
    method DispatchLines(conn: ConnId, connBuf: Bytes) returns (rest: Bytes)
      requires Answered(log, AnswerOf(router))
      modifies this`log
      ensures Answered(log, AnswerOf(router))
      ensures CutOf(connBuf).residue == rest && log == old(log) + HandledAll(conn, AnswerOf(router), Lines(CutOf(connBuf).segments))
    {
      rest := connBuf;
      ghost var consumed, segments := [], [];
      var more := true;
      while more
        invariant Answered(log, AnswerOf(router)) && Midway(connBuf, consumed, segments, rest)
        invariant log == old(log) + HandledAll(conn, AnswerOf(router), Lines(segments))
        invariant !more ==> NEWLINE !in rest
        decreases more, |rest|
      {
        ghost var before, line := rest, [];
        more, rest, line := DispatchLine(conn, rest);
        if more {
          AnotherLine(connBuf, consumed, before, segments, line, rest);
          HandledNext(old(log), conn, router, segments, line);
          consumed, segments := consumed + line + [NEWLINE], segments + [line];
        }
      }
      AllLines(connBuf, consumed, segments, rest);
    }

    /** One turn: the first line leaves the buffer and is dispatched unless it is empty. */
    method DispatchLine(conn: ConnId, connBuf: Bytes) returns (more: bool, rest: Bytes, ghost line: Bytes)
      requires Answered(log, AnswerOf(router))
      modifies this`log
      ensures Answered(log, AnswerOf(router))
      ensures if more then NEWLINE !in line && connBuf == line + [NEWLINE] + rest else NEWLINE !in connBuf && rest == connBuf
      ensures log == old(log) + if more && line != [] then [Handled(conn, line, AnswerOf(router)(line))] else []
    {
      var pos := Find(connBuf, NEWLINE);
      rest, line := connBuf, [];
      more := pos < |connBuf|;
      if more {
        var requestStr := connBuf[..pos];
        line := requestStr;
        rest := connBuf[pos + 1..];
        if requestStr != [] {
          var responseStr := router(requestStr);
          log := log + [Handled(conn, requestStr, if responseStr != [] then responseStr + [NEWLINE] else [])];
        }
      }
    }

    method OnClose(conn: ConnId)
      requires Valid()
      modifies this`connectionBuffers
      ensures Valid() && SessionOf(conn) == old(SessionOf(conn)).(residue := [])
      ensures forall c :: c != conn ==> SessionOf(c) == old(SessionOf(c))
    {
      connectionBuffers := connectionBuffers - {conn};
    }
  }

  /** `std::string::find`: the first position of `b`, or the length when it does not occur. */
  method Find(s: Bytes, b: byte) returns (pos: nat)
    ensures pos <= |s| && b !in s[..pos] && (pos < |s| ==> s[pos] == b)
  {
    pos := 0;
    while pos < |s| && s[pos] != b
      invariant pos <= |s| && b !in s[..pos]
    {
      pos := pos + 1;
    }
  }

  /** The stream so far is `segments`, each terminated, and `rest` is to come. */
  ghost predicate Midway(stream: Bytes, consumed: Bytes, segments: seq<Bytes>, rest: Bytes) {
    stream == consumed + rest && CutOf(consumed) == Cut(segments, [])
  }

  lemma AllLines(stream: Bytes, consumed: Bytes, segments: seq<Bytes>, rest: Bytes)
    requires Midway(stream, consumed, segments, rest) && NEWLINE !in rest
    ensures CutOf(stream) == Cut(segments, rest)
  {
    CutUnbroken(consumed, rest);
    assert [] + rest == rest;
  }

  /** One more line off the front of the stream, seen from the whole stream. */
  lemma AnotherLine(stream: Bytes, consumed: Bytes, before: Bytes, segments: seq<Bytes>, line: Bytes, after: Bytes)
    requires Midway(stream, consumed, segments, before) && before == line + [NEWLINE] + after && NEWLINE !in line
    ensures Midway(stream, consumed + line + [NEWLINE], segments + [line], after)
    ensures Lines(segments + [line]) == if line == [] then Lines(segments) else Lines(segments) + [line]
  {
    CutLine(consumed, line);
    LinesSnoc(segments, line);
    assert [] + line == line;
    Assoc(consumed, line + [NEWLINE], after);
    Assoc(consumed, line, [NEWLINE]);
  }

  lemma FeedLinesSnoc(chunks: seq<Bytes>, last: Bytes)
    ensures FeedLines(chunks + [last]) == FeedLine(FeedLines(chunks), last)
  {
    assert (chunks + [last])[..|chunks|] == chunks;
  }

  /**
   * For every interleaving of deliveries to any number of connections, each connection's dispatched
   * lines are the nonempty terminated segments of its own stream, answered in that order.
   */
  method Serve(server: JsonRpcServer, events: seq<(ConnId, Bytes)>)
    requires server.Valid() && forall c :: server.SessionOf(c) == LineSession([], [])
    modifies server
    ensures server.Valid()
    ensures forall c :: var cut := CutOf(Concat(Only(events, c)));
      && server.SessionOf(c) == LineSession(Lines(cut.segments), cut.residue)
      && SentOn(server.log, c) == Joined(Responses(server.router, Lines(cut.segments)))
  {
    for n := 0 to |events|
      invariant server.Valid()
      invariant forall c :: server.SessionOf(c) == FeedLines(Only(events[..n], c))
    {
      var conn, data := events[n].0, events[n].1;
      assert events[..n + 1] == events[..n] + [events[n]];
      forall c ensures Only(events[..n + 1], c) ==
        if c == conn then Only(events[..n], c) + [data] else Only(events[..n], c)
      {
        OnlySnoc(events[..n], events[n], c);
      }
      FeedLinesSnoc(Only(events[..n], conn), data);
      server.OnMessage(conn, data);
    }
    assert events[..|events|] == events;
    forall c ensures
      var cut := CutOf(Concat(Only(events, c)));
      && server.SessionOf(c) == LineSession(Lines(cut.segments), cut.residue)
      && SentOn(server.log, c) == Joined(Responses(server.router, Lines(cut.segments)))
    {
      AnswersAreLines(server.router, Lines(CutOf(Concat(Only(events, c))).segments));
      LineChunkingIndependence(Only(events, c));
      SentAreAnswers(server.log, AnswerOf(server.router), c);
    }
  }
}
