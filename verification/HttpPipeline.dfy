/**
 * A connection as a byte machine over an abstract incremental parser that pauses at the end of every
 * message: what any stream of pipelined requests is answered with, however it is cut.
 */
module HttpPipeline {
  import opened Common
  import opened HttpMessages
  import opened HttpAssembly
  import opened HttpRouters

  type ParserState = nat

  const PARSER_START: ParserState := 0

  /** What the parser makes of one byte; `ends` carries the version when the byte completes a message. */
  datatype Verdict = Reject | Accept(next: ParserState, events: seq<Event>, ends: Option<string>)

  type Grammar = (ParserState, char) -> Verdict

  /** One `parse` call: how far it gets, and with what. */
  datatype Parsed = Rejected | NeedMore(state: ParserState, context: Context) | Completed(consumed: nat, context: Context)

  function ParseText(g: Grammar, p: ParserState, c: Context, data: string): (r: Parsed)
    ensures r.Completed? ==> 1 <= r.consumed <= |data|
    decreases |data|
  {
    if data == "" then NeedMore(p, c) else
      match g(p, data[0])
      case Reject => Rejected
      case Accept(next, events, Some(version)) => Completed(1, Finished(ApplyAll(c, events), version))
      case Accept(next, events, None) =>
        match ParseText(g, next, ApplyAll(c, events), data[1..])
        case Completed(n, d) => Completed(n + 1, d)
        case other => other
  }

  datatype Session = Open(state: ParserState, context: Context) | Closed

  const NEW_CONNECTION := Open(PARSER_START, FRESH_CONTEXT)

  /** A request and its answer; a stream that does not parse is answered without one. */
  datatype Exchange = Exchange(request: Option<HttpRequest>, response: HttpResponse)

  function WithLength(r: HttpResponse): HttpResponse {
    if "Content-Length" in r.headers then r else r.WithHeader("Content-Length", Decimal(r.BodySize()))
  }

  /** A missing Content-Length is filled in with the size of the body, from memory or from a file; nothing else changes. */
  lemma LengthReadsBack(r: HttpResponse)
    ensures var w := WithLength(r);
      && "Content-Length" in w.headers
      && (if "Content-Length" in r.headers then w == r else
          && Number(w.headers["Content-Length"]) == (if r.HasFile() then r.file.value.size else |r.body|)
          && w == r.(headers := r.headers["Content-Length" := w.headers["Content-Length"]]))
  {
    ReadsBack(r.BodySize());
  }

  ghost function Respond(log: seq<Registration>, req: HttpRequest): HttpResponse {
    WithLength(Scan(log, req, BLANK_RESPONSE).1)
  }

  const BAD_REQUEST := Exchange(None, PlainText(400, "Bad Request", "Bad Request"))

  ghost function Answer(log: seq<Registration>, req: HttpRequest): Exchange { Exchange(Some(req), Respond(log, req)) }

  function After(x: Exchange): Session { if x.response.close then Closed else NEW_CONNECTION }

  /** The new state, and the exchange a byte completes, if any. */
  ghost function FeedByte(g: Grammar, log: seq<Registration>, s: Session, b: char): (Session, seq<Exchange>) {
    match s
    case Closed => (Closed, [])
    case Open(p, c) =>
      match g(p, b)
      case Reject => (Closed, [BAD_REQUEST])
      case Accept(next, events, None) => (Open(next, ApplyAll(c, events)), [])
      case Accept(next, events, Some(version)) =>
        var x := Answer(log, Finished(ApplyAll(c, events), version).request);
        (After(x), [x])
  }

  ghost function FeedText(g: Grammar, log: seq<Registration>, s: Session, text: string): (Session, seq<Exchange>)
    decreases |text|
  {
    if text == "" then (s, []) else
      var (t, first) := FeedByte(g, log, s, text[0]);
      var (u, rest) := FeedText(g, log, t, text[1..]);
      (u, first + rest)
  }

  /** Read events one after the other. */
  ghost function FeedChunks(g: Grammar, log: seq<Registration>, chunks: seq<string>): (Session, seq<Exchange>) {
    if chunks == [] then (NEW_CONNECTION, []) else
      var (s, earlier) := FeedChunks(g, log, chunks[..|chunks| - 1]);
      var (t, later) := FeedText(g, log, s, chunks[|chunks| - 1]);
      (t, earlier + later)
  }

  lemma {:induction false} FeedSplit(g: Grammar, log: seq<Registration>, s: Session, a: string, b: string)
    ensures
      var (t, first) := FeedText(g, log, s, a);
      var (u, rest) := FeedText(g, log, t, b);
      FeedText(g, log, s, a + b) == (u, first + rest)
    decreases |a|
  {
    if a == "" {
      assert a + b == b;
      assert [] + FeedText(g, log, s, b).1 == FeedText(g, log, s, b).1;
    } else {
      var (t, first) := FeedByte(g, log, s, a[0]);
      DropInside(a, b, 1);
      FeedSplit(g, log, t, a[1..], b);
      var (u, more) := FeedText(g, log, t, a[1..]);
      Assoc(first, more, FeedText(g, log, u, b).1);
    }
  }

  /** However the stream is cut: the same exchanges in the same order, ending at the same rejection or close. */
  lemma {:induction false} HttpChunkingIndependence(g: Grammar, log: seq<Registration>, chunks: seq<string>)
    ensures FeedChunks(g, log, chunks) == FeedText(g, log, NEW_CONNECTION, Concat(chunks))
  {
    if chunks != [] {
      HttpChunkingIndependence(g, log, chunks[..|chunks| - 1]);
      FeedSplit(g, log, NEW_CONNECTION, Concat(chunks[..|chunks| - 1]), chunks[|chunks| - 1]);
    }
  }

  /** After a close nothing more is read or answered. */
  lemma {:induction false} ClosedIsSilent(g: Grammar, log: seq<Registration>, text: string)
    ensures FeedText(g, log, Closed, text) == (Closed, [])
    decreases |text|
  {
    if text != "" {
      ClosedIsSilent(g, log, text[1..]);
      assert FeedByte(g, log, Closed, text[0]) == (Closed, []);
      assert FeedText(g, log, Closed, text).1 == [];
    }
  }

  /** The whole of `data`, given how far a first `parse` call gets in it. */
  ghost function AfterParse(g: Grammar, log: seq<Registration>, parsed: Parsed, data: string): (Session, seq<Exchange>) {
    match parsed
    case Rejected => (Closed, [BAD_REQUEST])
    case NeedMore(q, d) => (Open(q, d), [])
    case Completed(n, d) =>
      if n > |data| then (Closed, []) else
        var x := Answer(log, d.request);
        (FeedText(g, log, After(x), data[n..]).0, [x] + FeedText(g, log, After(x), data[n..]).1)
  }

  /** What one `parse` call and the server's reaction to it amount to. */
  lemma {:induction false} ParseIsFeed(g: Grammar, log: seq<Registration>, p: ParserState, c: Context, data: string)
    ensures FeedText(g, log, Open(p, c), data) == AfterParse(g, log, ParseText(g, p, c, data), data)
    decreases |data|
  {
    if data != "" {
      match g(p, data[0])
      case Reject =>
        ClosedIsSilent(g, log, data[1..]);
        assert [BAD_REQUEST] + [] == [BAD_REQUEST];
      case Accept(next, events, Some(version)) =>
      case Accept(next, events, None) =>
        ParseIsFeed(g, log, next, ApplyAll(c, events), data[1..]);
        var r := ParseText(g, next, ApplyAll(c, events), data[1..]);
        var rest := FeedText(g, log, Open(next, ApplyAll(c, events)), data[1..]).1;
        assert [] + rest == rest;
        if r.Completed? {
          assert data[1..][r.consumed..] == data[r.consumed + 1..];
        }
    }
  }

  /** All but the last exchange leave the connection open, and the session is closed just when the last does not. */
  ghost predicate EndsAtClose(after: (Session, seq<Exchange>)) {
    && (forall i :: 0 <= i < |after.1| - 1 ==> !after.1[i].response.close)
    && (after.0.Closed? <==> after.1 != [] && after.1[|after.1| - 1].response.close)
  }

  lemma OneByte(g: Grammar, log: seq<Registration>, p: ParserState, c: Context, b: char)
    ensures var after := FeedByte(g, log, Open(p, c), b); |after.1| <= 1 && EndsAtClose(after)
  {
  }

  lemma EndsJoin(first: (Session, seq<Exchange>), rest: (Session, seq<Exchange>))
    requires EndsAtClose(first) && (if first.0.Closed? then rest == (Closed, []) else EndsAtClose(rest))
    ensures EndsAtClose((rest.0, first.1 + rest.1))
  {
    if rest.1 == [] { assert first.1 + rest.1 == first.1; }
  }

  /** The exchanges of one reading of an open connection end with the first that closes it, and only that closes it. */
  lemma {:induction false} CloseIsLast(g: Grammar, log: seq<Registration>, p: ParserState, c: Context, text: string)
    ensures EndsAtClose(FeedText(g, log, Open(p, c), text))
    decreases |text|
  {
    if text != "" {
      var first := FeedByte(g, log, Open(p, c), text[0]);
      OneByte(g, log, p, c, text[0]);
      match first.0
      case Closed => ClosedIsSilent(g, log, text[1..]);
      case Open(q, d) => CloseIsLast(g, log, q, d, text[1..]);
      EndsJoin(first, FeedText(g, log, first.0, text[1..]));
    }
  }

  /** The answer to a stream that does not parse. */
  lemma BadRequestIsPlain()
    ensures BAD_REQUEST.request.None? && IsPlain(BAD_REQUEST.response, 400, "Bad Request")
  {
    PlainTextIsPlain(400, "Bad Request");
  }

  /** The parser goes through `text` without ending a message. */
  function Quiet(g: Grammar, p: ParserState, text: string): Option<(ParserState, seq<Event>)> {
    if text == "" then Some((p, [])) else
      match Quiet(g, p, text[..|text| - 1])
      case None => None
      case Some(before) =>
        match g(before.0, text[|text| - 1])
        case Accept(next, events, None) => Some((next, before.1 + events))
        case _ => None
  }

  /** `text` spells exactly one message for the parser, which reports it as `events`. */
  predicate IsMessage(g: Grammar, text: string, events: seq<Event>, version: string) {
    text != "" &&
    match Quiet(g, PARSER_START, text[..|text| - 1])
    case None => false
    case Some(before) =>
      match g(before.0, text[|text| - 1])
      case Accept(_, more, Some(v)) => v == version && events == before.1 + more
      case _ => false
  }

  lemma {:induction false} QuietFeeds(g: Grammar, log: seq<Registration>, p: ParserState, c: Context, text: string)
    requires Quiet(g, p, text).Some?
    ensures var (q, events) := Quiet(g, p, text).value;
      FeedText(g, log, Open(p, c), text) == (Open(q, ApplyAll(c, events)), [])
  {
    if text != "" {
      var front, last := text[..|text| - 1], text[|text| - 1];
      var (q, events) := Quiet(g, p, front).value;
      QuietFeeds(g, log, p, c, front);
      assert text == front + [last];
      FeedSplit(g, log, Open(p, c), front, [last]);
      LastByte(g, log, Open(q, ApplyAll(c, events)), last);
      ApplyAllAppend(c, events, g(q, last).events);
    }
  }

  lemma LastByte(g: Grammar, log: seq<Registration>, s: Session, b: char)
    ensures FeedText(g, log, s, [b]) == FeedByte(g, log, s, b)
  {
    var (t, first) := FeedByte(g, log, s, b);
    assert [b][1..] == "";
    assert first + [] == first;
  }

  lemma MessageFeeds(g: Grammar, log: seq<Registration>, text: string, events: seq<Event>, version: string)
    requires IsMessage(g, text, events, version)
    ensures
      var x := Answer(log, Finished(ApplyAll(FRESH_CONTEXT, events), version).request);
      FeedText(g, log, NEW_CONNECTION, text) == (After(x), [x])
  {
    var front, last := text[..|text| - 1], text[|text| - 1];
    var (q, before) := Quiet(g, PARSER_START, front).value;
    QuietFeeds(g, log, PARSER_START, FRESH_CONTEXT, front);
    assert text == front + [last];
    FeedSplit(g, log, NEW_CONNECTION, front, [last]);
    LastByte(g, log, Open(q, ApplyAll(FRESH_CONTEXT, before)), last);
    ApplyAllAppend(FRESH_CONTEXT, before, g(q, last).events);
    var x := Answer(log, Finished(ApplyAll(FRESH_CONTEXT, events), version).request);
    assert [] + [x] == [x];
  }

  /** A message, its spelling, and the pieces in which the parser reports it. */
  datatype Spelled = Spelled(message: Message, text: string, target: seq<string>, parts: seq<Pieces>)

  ghost predicate WellSpelled(g: Grammar, w: Spelled) {
    && w.target != [] && Concat(w.target) == w.message.target && AllSpell(w.parts, w.message.items)
    && IsMessage(g, w.text, MessageEvents(w.message.method_, w.target, w.parts), w.message.version)
  }

  function Texts(ws: seq<Spelled>): seq<string> {
    seq(|ws|, i requires 0 <= i < |ws| => ws[i].text)
  }

  /** Each request answered once, in order, up to and including the first answer that closes. */
  ghost function Answers(log: seq<Registration>, ws: seq<Spelled>): (Session, seq<Exchange>) {
    if ws == [] then (NEW_CONNECTION, []) else
      var (s, earlier) := Answers(log, ws[..|ws| - 1]);
      var x := Answer(log, RequestOf(ws[|ws| - 1].message));
      if s.Closed? then (Closed, earlier) else (After(x), earlier + [x])
  }

  /**
   * Pipelining: a stream of whole messages, delivered in any chunks, is answered by the router's
   * answers to those very requests.
   */
  lemma PipelinedRequests(g: Grammar, log: seq<Registration>, ws: seq<Spelled>, chunks: seq<string>)
    requires (forall w :: w in ws ==> WellSpelled(g, w)) && Concat(chunks) == Concat(Texts(ws))
    ensures FeedChunks(g, log, chunks) == Answers(log, ws)
  {
    HttpChunkingIndependence(g, log, chunks);
    WholeStream(g, log, ws);
  }

  /**
   * A stream of whole messages followed by bytes the parser accepts and then one it rejects, and
   * anything after: in any chunks, the messages are answered, then comes one 400, and no more.
   */
  lemma MessagesThenGarbage(
    g: Grammar, log: seq<Registration>, ws: seq<Spelled>, good: string, bad: char, rest: string, chunks: seq<string>)
    requires forall w :: w in ws ==> WellSpelled(g, w)
    requires Quiet(g, PARSER_START, good).Some? && g(Quiet(g, PARSER_START, good).value.0, bad).Reject?
    requires Concat(chunks) == Concat(Texts(ws)) + (good + [bad] + rest)
    ensures FeedChunks(g, log, chunks) ==
      (Closed, Answers(log, ws).1 + if Answers(log, ws).0.Closed? then [] else [BAD_REQUEST])
  {
    HttpChunkingIndependence(g, log, chunks);
    WholeStream(g, log, ws);
    FeedSplit(g, log, NEW_CONNECTION, Concat(Texts(ws)), good + [bad] + rest);
    if Answers(log, ws).0.Closed? {
      ClosedIsSilent(g, log, good + [bad] + rest);
    } else {
      GarbageGets400(g, log, good, bad, rest);
    }
  }

  lemma GarbageGets400(g: Grammar, log: seq<Registration>, good: string, bad: char, rest: string)
    requires Quiet(g, PARSER_START, good).Some? && g(Quiet(g, PARSER_START, good).value.0, bad).Reject?
    ensures FeedText(g, log, NEW_CONNECTION, good + [bad] + rest) == (Closed, [BAD_REQUEST])
  {
    var (q, events) := Quiet(g, PARSER_START, good).value;
    QuietFeeds(g, log, PARSER_START, FRESH_CONTEXT, good);
    FeedSplit(g, log, NEW_CONNECTION, good, [bad]);
    LastByte(g, log, Open(q, ApplyAll(FRESH_CONTEXT, events)), bad);
    assert [] + [BAD_REQUEST] == [BAD_REQUEST] && [BAD_REQUEST] + [] == [BAD_REQUEST];
    FeedSplit(g, log, NEW_CONNECTION, good + [bad], rest);
    ClosedIsSilent(g, log, rest);
  }

  /** Behind whole messages, an unfinished one gets no answer yet. */
  lemma MessagesThenPart(g: Grammar, log: seq<Registration>, ws: seq<Spelled>, part: string, chunks: seq<string>)
    requires (forall w :: w in ws ==> WellSpelled(g, w)) && Quiet(g, PARSER_START, part).Some?
    requires Concat(chunks) == Concat(Texts(ws)) + part
    ensures FeedChunks(g, log, chunks).1 == Answers(log, ws).1
  {
    HttpChunkingIndependence(g, log, chunks);
    WholeStream(g, log, ws);
    FeedSplit(g, log, NEW_CONNECTION, Concat(Texts(ws)), part);
    if Answers(log, ws).0.Closed? {
      ClosedIsSilent(g, log, part);
    } else {
      QuietFeeds(g, log, PARSER_START, FRESH_CONTEXT, part);
    }
    assert Answers(log, ws).1 + [] == Answers(log, ws).1;
  }

  lemma {:induction false} WholeStream(g: Grammar, log: seq<Registration>, ws: seq<Spelled>)
    requires forall w :: w in ws ==> WellSpelled(g, w)
    ensures FeedText(g, log, NEW_CONNECTION, Concat(Texts(ws))) == Answers(log, ws)
    ensures Answers(log, ws).0.Closed? || Answers(log, ws).0 == NEW_CONNECTION
  {
    if ws != [] {
      var front, last := ws[..|ws| - 1], ws[|ws| - 1];
      assert last in ws;
      WholeStream(g, log, front);
      assert Texts(ws) == Texts(front) + [last.text];
      ConcatSnoc(Texts(front), last.text);
      FeedSplit(g, log, NEW_CONNECTION, Concat(Texts(front)), last.text);
      var (s, earlier) := Answers(log, front);
      if s.Closed? {
        ClosedIsSilent(g, log, last.text);
        assert earlier + [] == earlier;
      } else {
        SpelledFeeds(g, log, last);
      }
    }
  }

  lemma SpelledFeeds(g: Grammar, log: seq<Registration>, w: Spelled)
    requires WellSpelled(g, w)
    ensures var x := Answer(log, RequestOf(w.message)); FeedText(g, log, NEW_CONNECTION, w.text) == (After(x), [x])
  {
    MessageFeeds(g, log, w.text, MessageEvents(w.message.method_, w.target, w.parts), w.message.version);
    AnyFragmentation(FRESH_CONTEXT, w.message, w.target, w.parts);
  }
}
