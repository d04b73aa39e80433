/** The HTTP server's read loop: parse, answer, go on with what is left, for every open connection. */
module HttpServers {
  import opened Common
  import opened HttpMessages
  import opened HttpAssembly
  import opened HttpRouters
  import opened HttpPipeline
  import opened HttpContexts

  function Tagged(conn: ConnId, xs: seq<Exchange>): (log: seq<(ConnId, Exchange)>)
    ensures |log| == |xs|
  {
    seq(|xs|, i requires 0 <= i < |xs| => (conn, xs[i]))
  }

  lemma TaggedAppend(log: seq<(ConnId, Exchange)>, conn: ConnId, a: seq<Exchange>, b: seq<Exchange>)
    ensures log + Tagged(conn, a + b) == log + Tagged(conn, a) + Tagged(conn, b)
  {
  }

  lemma {:induction false} TaggedShow(log: seq<(ConnId, Exchange)>, conn: ConnId, xs: seq<Exchange>, c: ConnId)
    ensures Only(log + Tagged(conn, xs), c) == if c == conn then Only(log, c) + xs else Only(log, c)
  {
    if xs == [] {
      assert log + Tagged(conn, xs) == log;
    } else {
      var front, last := xs[..|xs| - 1], xs[|xs| - 1];
      TaggedShow(log, conn, front, c);
      assert log + Tagged(conn, xs) == log + Tagged(conn, front) + [(conn, last)];
      OnlySnoc(log + Tagged(conn, front), (conn, last), c);
      assert xs == front + [last];
      if c == conn { Assoc(Only(log, c), front, [last]); }
    }
  }

  class HttpServer {
    const grammar: Grammar
    const router: HttpRouter
    var connectionStates: map<ConnId, HttpContext>
    var log: seq<(ConnId, Exchange)>    // every answer sent, in order

    ghost predicate Valid()
      reads this, router, connectionStates.Values
    {
      && router.Valid()
      && (forall c {:trigger c in connectionStates} :: c in connectionStates ==>
        connectionStates[c].grammar == grammar && connectionStates[c].Ready())
      && (forall c, d {:trigger connectionStates[c], connectionStates[d]} ::
        c in connectionStates && d in connectionStates && c != d ==> connectionStates[c] != connectionStates[d])
    }

    ghost function SessionOf(conn: ConnId): Session
      reads this, connectionStates.Values
    {
      if conn in connectionStates then Open(connectionStates[conn].parserState, connectionStates[conn].View()) else Closed
    }

    constructor (grammar: Grammar, router: HttpRouter)
      requires router.Valid()
      ensures Valid() && this.grammar == grammar && this.router == router && log == []
      ensures connectionStates == map[]
    {
      this.grammar, this.router := grammar, router;
      connectionStates, log := map[], [];
    }

    method OnConnect(conn: ConnId)
      requires Valid()
      modifies this
      ensures Valid() && SessionOf(conn) == NEW_CONNECTION && log == old(log)
      ensures fresh(connectionStates.Values - old(connectionStates.Values))
      ensures forall c :: c != conn ==> SessionOf(c) == old(SessionOf(c))
    {
      var state := new HttpContext(grammar);
      connectionStates := connectionStates[conn := state];
    }

    method OnClose(conn: ConnId)
      requires Valid()
      modifies this
      ensures Valid() && SessionOf(conn) == Closed && log == old(log)
      ensures connectionStates == old(connectionStates) - {conn}
      ensures forall c :: c != conn ==> SessionOf(c) == old(SessionOf(c))
    {
      connectionStates := connectionStates - {conn};
    }

    /**
     * One read event: the session goes through the bytes as the specification says, the answers are
     * sent in that order, and no other connection notices.
     */
    method OnMessage(conn: ConnId, payload: string)
      requires Valid()
      modifies this, if conn in connectionStates then {connectionStates[conn]} else {}
      ensures Valid() && connectionStates.Values <= old(connectionStates.Values)
      ensures
        var (s, xs) := FeedText(grammar, router.log, old(SessionOf(conn)), payload);
        SessionOf(conn) == s && log == old(log) + Tagged(conn, xs)
      ensures forall c :: c != conn ==> SessionOf(c) == old(SessionOf(c))
    {
      if payload == "" {
        return;
      }
      if conn !in connectionStates {
        ClosedIsSilent(grammar, router.log, payload);
        return;
      }
      var state := connectionStates[conn];
      ghost var goal := FeedText(grammar, router.log, SessionOf(conn), payload);
      ghost var done: seq<Exchange> := [];
      var consumed := 0;
      assert payload[0..] == payload;
      assert done + goal.1 == goal.1;
      while consumed < |payload| && conn in connectionStates
        invariant Valid() && consumed <= |payload|
        invariant conn in connectionStates ==> connectionStates[conn] == state
        invariant connectionStates.Values <= old(connectionStates.Values)
        invariant Ahead(goal, done, FeedText(grammar, router.log, SessionOf(conn), payload[consumed..]))
        invariant log == old(log) + Tagged(conn, done)
        invariant forall c :: c != conn ==> SessionOf(c) == old(SessionOf(c))
        decreases conn in connectionStates, |payload| - consumed
      {
        consumed, done := TurnAt(conn, state, payload, consumed, goal, done, old(log));
      }
      if conn !in connectionStates {
        ClosedIsSilent(grammar, router.log, payload[consumed..]);
      }
      assert done + [] == done;
    }

    /** One turn of the loop, seen from the whole payload. */
    method TurnAt(conn: ConnId, state: HttpContext, payload: string, consumed: nat,
                  ghost goal: (Session, seq<Exchange>), ghost done: seq<Exchange>, ghost before: seq<(ConnId, Exchange)>)
      returns (consumed': nat, ghost done': seq<Exchange>)
      requires Valid() && conn in connectionStates && connectionStates[conn] == state && consumed < |payload|
      requires Ahead(goal, done, FeedText(grammar, router.log, SessionOf(conn), payload[consumed..]))
      requires log == before + Tagged(conn, done)
      modifies this, state
      ensures Valid() && consumed <= consumed' <= |payload| && (conn in connectionStates ==> consumed < consumed')
      ensures connectionStates == old(connectionStates) || connectionStates == old(connectionStates) - {conn}
      ensures Ahead(goal, done', FeedText(grammar, router.log, SessionOf(conn), payload[consumed'..]))
      ensures log == before + Tagged(conn, done')
      ensures forall c :: c != conn ==> SessionOf(c) == old(SessionOf(c))
    {
      ghost var here := FeedText(grammar, router.log, SessionOf(conn), payload[consumed..]);
      var lastConsumed;
      ghost var xs;
      lastConsumed, xs := Turn(conn, state, payload[consumed..]);
      consumed', done' := consumed + lastConsumed, done + xs;
      assert payload[consumed..][lastConsumed..] == payload[consumed'..];
      TaggedAppend(before, conn, done, xs);
      FurtherAhead(goal, done, here, xs, FeedText(grammar, router.log, SessionOf(conn), payload[consumed'..]));
    }

    /** One `parse` call and the reaction to it; a session that is still open has made progress. */
    method Turn(conn: ConnId, state: HttpContext, data: string) returns (consumed: nat, ghost xs: seq<Exchange>)
      requires Valid() && conn in connectionStates && connectionStates[conn] == state && data != ""
      modifies this, state
      ensures Valid() && consumed <= |data| && (conn in connectionStates ==> consumed > 0)
      ensures connectionStates == old(connectionStates) || connectionStates == old(connectionStates) - {conn}
      ensures Ahead(FeedText(grammar, router.log, old(SessionOf(conn)), data), xs,
                    FeedText(grammar, router.log, SessionOf(conn), data[consumed..]))
      ensures log == old(log) + Tagged(conn, xs)
      ensures forall c :: c != conn ==> SessionOf(c) == old(SessionOf(c))
    {
      ghost var parsed := ParseText(grammar, state.parserState, state.View(), data);
      ParseIsFeed(grammar, router.log, state.parserState, state.View(), data);
      var result := state.Parse(data);
      consumed := state.consumedBytes;
      xs := React(conn, state, result);
      TurnIsFeed(grammar, router.log, parsed, data, consumed, SessionOf(conn), xs);
    }

    /** The three ways the loop goes on after a `parse` call. */
    method React(conn: ConnId, state: HttpContext, result: ParseResult) returns (ghost xs: seq<Exchange>)
      requires router.Valid() && Others(conn, state) && state.grammar == grammar
      requires conn in connectionStates && connectionStates[conn] == state && (result.ParseNeedMoreData? ==> state.Ready())
      modifies this, state
      ensures Valid() && log == old(log) + Tagged(conn, xs)
      ensures xs ==
        match result
        case ParseNeedMoreData => []
        case ParseRejected => [BAD_REQUEST]
        case ParseComplete => [Answer(router.log, old(state.request))]
      ensures connectionStates ==
        if xs != [] && xs[0].response.close then old(connectionStates) - {conn} else old(connectionStates)
      ensures conn in connectionStates ==> SessionOf(conn) == if xs == [] then old(SessionOf(conn)) else NEW_CONNECTION
      ensures forall c :: c != conn ==> SessionOf(c) == old(SessionOf(c))
    {
      match result {
        case ParseNeedMoreData =>
          xs := [];
          assert log + Tagged(conn, xs) == log;
        case ParseRejected =>
          xs := [BAD_REQUEST];
          state.Reset();
          Send(conn, BAD_REQUEST);
        case ParseComplete =>
          xs := [Answer(router.log, state.request)];
          ReplyCompleteRequest(conn, state);
      }
    }

    /** The contexts of the other connections are other objects, ready for more data. */
    ghost predicate Others(conn: ConnId, state: HttpContext)
      reads this, connectionStates.Values
    {
      && (forall c {:trigger c in connectionStates} :: c in connectionStates && c != conn ==>
        connectionStates[c] != state && connectionStates[c].grammar == grammar && connectionStates[c].Ready())
      && (forall c, d {:trigger connectionStates[c], connectionStates[d]} ::
        c in connectionStates && d in connectionStates && c != d ==> connectionStates[c] != connectionStates[d])
    }

    /** Routes the request, answers it, and makes the context ready for the next one. */
    method ReplyCompleteRequest(conn: ConnId, state: HttpContext)
      requires state.grammar == grammar && router.Valid() && conn in connectionStates && connectionStates[conn] == state
      requires Others(conn, state)
      modifies this, state
      ensures router.Valid() && state.parserState == PARSER_START && state.View() == FRESH_CONTEXT && state.Ready()
      ensures
        var x := Answer(router.log, old(state.request));
        && log == old(log) + Tagged(conn, [x])
        && connectionStates == if x.response.close then old(connectionStates) - {conn} else old(connectionStates)
    {
      var request := state.request;
      var _, response := router.Dispatch(request, BLANK_RESPONSE);
      Send(conn, Exchange(Some(request), response));
      state.Reset();
    }

    /** Fills in the length, sends the answer, and closes the connection if the answer says so. */
    method Send(conn: ConnId, x: Exchange)
      modifies this
      ensures
        var y := Exchange(x.request, WithLength(x.response));
        && log == old(log) + Tagged(conn, [y])
        && connectionStates == if y.response.close then old(connectionStates) - {conn} else old(connectionStates)
    {
      var resp := x.response;
      if "Content-Length" !in resp.headers {
        resp := resp.WithHeader("Content-Length", Decimal(resp.BodySize()));
      }
      log := log + [(conn, Exchange(x.request, resp))];
      if resp.close {
        connectionStates := connectionStates - {conn};
      }
    }
  }

  /** `whole` is `xs` followed by `rest`. */
  ghost predicate Ahead(whole: (Session, seq<Exchange>), xs: seq<Exchange>, rest: (Session, seq<Exchange>)) {
    whole == (rest.0, xs + rest.1)
  }

  lemma TurnIsFeed(
    g: Grammar, log: seq<HttpRouters.Registration>, parsed: Parsed, data: string, consumed: nat, s: Session, xs: seq<Exchange>)
    requires consumed <= |data|
    requires match parsed
      case Rejected => s == Closed && xs == [BAD_REQUEST]
      case NeedMore(q, d) => s == Open(q, d) && xs == [] && consumed == |data|
      case Completed(n, d) => n == consumed && xs == [Answer(log, d.request)] && s == After(xs[0])
    ensures Ahead(AfterParse(g, log, parsed, data), xs, FeedText(g, log, s, data[consumed..]))
  {
    assert xs + [] == xs;
    if parsed.Rejected? { ClosedIsSilent(g, log, data[consumed..]); }
  }

  lemma FurtherAhead(
    whole: (Session, seq<Exchange>), done: seq<Exchange>, here: (Session, seq<Exchange>), xs: seq<Exchange>,
    rest: (Session, seq<Exchange>))
    requires Ahead(whole, done, here) && Ahead(here, xs, rest)
    ensures Ahead(whole, done + xs, rest)
  {
    Assoc(done, xs, rest.1);
  }

  /** What a connection has been through since it was opened. */
  ghost predicate Followed(server: HttpServer, conn: ConnId, chunks: seq<string>)
    reads server, server.router, server.connectionStates.Values
  {
    (server.SessionOf(conn), Only(server.log, conn)) == FeedChunks(server.grammar, server.router.log, chunks)
  }

  /**
   * For every interleaving of deliveries to newly opened connections, each connection's answers are
   * those its own stream gets, read at once and alone.
   */
  method Serve(server: HttpServer, events: seq<(ConnId, string)>, conns: set<ConnId>)
    requires server.Valid() && server.log == []
    requires forall c :: c in conns ==> server.SessionOf(c) == NEW_CONNECTION
    modifies server, server.connectionStates.Values
    ensures server.Valid()
    ensures forall c :: c in conns ==>
      (server.SessionOf(c), Only(server.log, c)) ==
        FeedText(server.grammar, server.router.log, NEW_CONNECTION, Concat(Only(events, c)))
  {
    for n := 0 to |events|
      invariant server.Valid() && server.connectionStates.Values <= old(server.connectionStates.Values)
      invariant forall c :: c in conns ==> Followed(server, c, Only(events[..n], c))
    {
      assert events[..n + 1] == events[..n] + [events[n]];
      Deliver(server, events[n], conns, events[..n]);
    }
    assert events[..|events|] == events;
    forall c | c in conns
      ensures (server.SessionOf(c), Only(server.log, c)) ==
        FeedText(server.grammar, server.router.log, NEW_CONNECTION, Concat(Only(events, c)))
    {
      assert Followed(server, c, Only(events[..|events|], c));
      HttpChunkingIndependence(server.grammar, server.router.log, Only(events, c));
    }
  }

  method Deliver(server: HttpServer, event: (ConnId, string), ghost conns: set<ConnId>, ghost earlier: seq<(ConnId, string)>)
    requires server.Valid() && forall c :: c in conns ==> Followed(server, c, Only(earlier, c))
    modifies server, server.connectionStates.Values
    ensures server.Valid() && server.connectionStates.Values <= old(server.connectionStates.Values)
    ensures forall c :: c in conns ==> Followed(server, c, Only(earlier + [event], c))
  {
    ghost var (s, xs) := FeedText(server.grammar, server.router.log, server.SessionOf(event.0), event.1);
    server.OnMessage(event.0, event.1);
    forall c | c in conns ensures Followed(server, c, Only(earlier + [event], c)) {
      OnlySnoc(earlier, event, c);
      TaggedShow(old(server.log), event.0, xs, c);
      assert (Only(earlier, c) + [event.1])[..|Only(earlier, c)|] == Only(earlier, c);
    }
  }
}
