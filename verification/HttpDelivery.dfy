/** What becomes of the HTTP server's answers on the send path of their connection. */
module HttpDelivery {
  import opened Common
  import opened Sockets
  import opened HttpMessages
  import HttpPipeline
  import HttpRouters
  import SF = SendFlow
  import opened SendRuns

  /** A response as it is written out: status line, headers and, without a file, the body. */
  type Packager = HttpResponse -> Bytes

  /** The call the server makes on the connection for one answer. */
  function SendOf(package: Packager, r: HttpResponse, o: IoOutcome): Op {
    if r.HasFile() then DoSendFileWithHeader(package(r), r.file.value.file, r.file.value.size, r.file.value.offset, o)
    else DoSend(package(r), o)
  }

  /** The bytes a call on the connection is meant to put on the wire, as far as its file has them. */
  function Intended(op: Op): Bytes {
    match op
    case DoSend(msg, _) => msg
    case DoSendFileWithHeader(header, file, size, offset, _) =>
      header + if file.Regular? then SF.Clip(file.content, offset, size) else []
    case _ => []
  }

  function AllIntended(ops: seq<Op>): Bytes {
    if ops == [] then [] else AllIntended(ops[..|ops| - 1]) + Intended(ops[|ops| - 1])
  }

  /** The bytes of one answer. */
  function BytesOf(package: Packager, r: HttpResponse): Bytes { Intended(SendOf(package, r, WouldBlock)) }

  /** The written response, followed by the announced range of its file as far as the file has it. */
  lemma AnswerBytes(package: Packager, r: HttpResponse)
    ensures !r.HasFile() ==> BytesOf(package, r) == package(r)
    ensures r.HasFile() && r.file.value.file.Regular? ==>
      var (content, from, size) := (r.file.value.file.content, r.file.value.offset, r.file.value.size);
      BytesOf(package, r) == package(r) + content[Min(from, |content|)..Min(from + size, |content|)]
  {
  }

  function AllBytes(package: Packager, rs: seq<HttpResponse>): Bytes {
    if rs == [] then [] else AllBytes(package, rs[..|rs| - 1]) + BytesOf(package, rs[|rs| - 1])
  }

  /** `ops` are the calls for these answers, in order, with writable events anywhere between. */
  predicate Carries(package: Packager, ops: seq<Op>, rs: seq<HttpResponse>) {
    if ops == [] then rs == [] else
      var front, last := ops[..|ops| - 1], ops[|ops| - 1];
      if last.DoWrite? then Carries(package, front, rs)
      else
        && rs != [] && (last.DoSend? || last.DoSendFileWithHeader?)
        && last == SendOf(package, rs[|rs| - 1], last.outcome) && Carries(package, front, rs[..|rs| - 1])
  }

  lemma {:induction false} CarriesAllBytes(package: Packager, ops: seq<Op>, rs: seq<HttpResponse>)
    requires Carries(package, ops, rs)
    ensures AllIntended(ops) == AllBytes(package, rs)
    decreases |ops|
  {
    if ops != [] {
      var front, last := ops[..|ops| - 1], ops[|ops| - 1];
      if last.DoWrite? {
        CarriesAllBytes(package, front, rs);
      } else {
        CarriesAllBytes(package, front, rs[..|rs| - 1]);
      }
    }
  }

  /** Sends of something, and writable events. */
  predicate OnlySends(ops: seq<Op>) {
    forall op :: op in ops ==>
      op.DoWrite? || (op.DoSend? && op.msg != []) || (op.DoSendFileWithHeader? && op.header != [])
  }

  lemma {:induction false} CarriesOnlySends(package: Packager, ops: seq<Op>, rs: seq<HttpResponse>)
    requires Carries(package, ops, rs) && forall r :: r in rs ==> package(r) != []
    ensures OnlySends(ops)
    decreases |ops|
  {
    if ops != [] {
      var front, last := ops[..|ops| - 1], ops[|ops| - 1];
      if last.DoWrite? {
        CarriesOnlySends(package, front, rs);
      } else {
        assert rs[|rs| - 1] in rs;
        CarriesOnlySends(package, front, rs[..|rs| - 1]);
      }
      forall op | op in ops ensures op in front || op == last {}
    }
  }

  /** The connection takes this send in full. */
  predicate Taken(f: SF.Flow, op: Op) { Payload(f, op) == Intended(op) }

  /** Every send of the run is taken in full. */
  ghost predicate AllTaken(f: SF.Flow, ops: seq<Op>) {
    forall i {:trigger Taken(Run(f, ops[..i]), ops[i])} :: 0 <= i < |ops| ==> Taken(Run(f, ops[..i]), ops[i])
  }

  lemma AllTakenSnoc(f: SF.Flow, front: seq<Op>, last: Op)
    ensures AllTaken(f, front + [last]) <==> AllTaken(f, front) && Taken(Run(f, front), last)
  {
    var ops := front + [last];
    assert ops[..|front|] == front && ops[|front|] == last;
    forall i | 0 <= i < |front| ensures ops[..i] == front[..i] && ops[i] == front[i] {}
    if AllTaken(f, ops) {
      forall i | 0 <= i < |front| ensures Taken(Run(f, front[..i]), front[i]) {
        assert Taken(Run(f, ops[..i]), ops[i]);
      }
    }
    if AllTaken(f, front) && Taken(Run(f, front), last) {
      forall i | 0 <= i < |ops| ensures Taken(Run(f, ops[..i]), ops[i]) {
        if i < |front| { assert Taken(Run(f, front[..i]), front[i]); }
      }
    }
  }

  lemma PayloadIsPart(f: SF.Flow, op: Op)
    requires OnlySends([op])
    ensures |Payload(f, op)| <= |Intended(op)|
    ensures |Payload(f, op)| == |Intended(op)| <==> Taken(f, op)
  {
    assert op in [op];
  }

  /** At most the intended bytes are accepted; all of them exactly when every send is taken. */
  lemma {:induction false} AcceptedIsPart(f: SF.Flow, ops: seq<Op>)
    requires OnlySends(ops)
    ensures |Accepted(f, ops)| <= |AllIntended(ops)|
    ensures |Accepted(f, ops)| == |AllIntended(ops)| <==> AllTaken(f, ops)
    ensures AllTaken(f, ops) ==> Accepted(f, ops) == AllIntended(ops)
  {
    if ops != [] {
      var front, last := ops[..|ops| - 1], ops[|ops| - 1];
      assert last in ops && (forall op :: op in front ==> op in ops);
      AcceptedIsPart(f, front);
      assert ops == front + [last];
      OneMoreAccepted(f, front, last);
    }
  }

  lemma OneMoreAccepted(f: SF.Flow, front: seq<Op>, last: Op)
    requires OnlySends([last]) && |Accepted(f, front)| <= |AllIntended(front)|
    requires |Accepted(f, front)| == |AllIntended(front)| <==> AllTaken(f, front)
    requires AllTaken(f, front) ==> Accepted(f, front) == AllIntended(front)
    ensures |Accepted(f, front + [last])| <= |AllIntended(front + [last])|
    ensures |Accepted(f, front + [last])| == |AllIntended(front + [last])| <==> AllTaken(f, front + [last])
    ensures AllTaken(f, front + [last]) ==> Accepted(f, front + [last]) == AllIntended(front + [last])
  {
    assert (front + [last])[..|front|] == front;
    PayloadIsPart(Run(f, front), last);
    AllTakenSnoc(f, front, last);
  }

  /** What is owed is what was intended exactly when every send was taken and nothing abandoned. */
  lemma OwedIsIntended(f: SF.Flow, ops: seq<Op>)
    requires OnlySends(ops)
    ensures Owed(Run(f, ops)) == Owed(f) + AllIntended(ops) <==> AllTaken(f, ops) && Abandoned(f, ops) == 0
  {
    AcceptedIsPart(f, ops);
    BytesAddUp(f, ops);
    Conservation(f, ops);
  }

  /** No send of the run meets a file still pending. */
  ghost predicate NoneWhilePending(f: SF.Flow, ops: seq<Op>) {
    forall i {:trigger ops[i]} :: 0 <= i < |ops| && !ops[i].DoWrite? ==> Run(f, ops[..i]).file.None?
  }

  /** The kernel never fails a call, and every file is a regular one. */
  predicate Willing(ops: seq<Op>) {
    forall op :: op in ops ==>
      match op
      case DoSend(_, o) => o != Fail
      case DoSendFileWithHeader(_, file, _, _, o) => file.Regular? && o != Fail
      case DoWrite(o, fo) => o != Fail && fo != Fail
      case _ => true
  }

  lemma WillingStep(f: SF.Flow, op: Op)
    requires f.open && OnlySends([op]) && Willing([op])
    ensures Apply(f, op).open <==> op.DoWrite? || f.file.None?
    ensures Taken(f, op) <==> op.DoWrite? || f.file.None?
  {
    assert op in [op];
  }

  lemma {:induction false} WillingIsTaken(f: SF.Flow, ops: seq<Op>)
    requires f.open && OnlySends(ops) && Willing(ops)
    ensures AllTaken(f, ops) <==> NoneWhilePending(f, ops)
    ensures AllTaken(f, ops) ==> Run(f, ops).open
  {
    if ops != [] {
      var front, last := ops[..|ops| - 1], ops[|ops| - 1];
      assert last in ops && ops == front + [last];
      assert forall op :: op in front ==> op in ops;
      WillingIsTaken(f, front);
      AllTakenSnoc(f, front, last);
      PendingSnoc(f, front, last);
      if AllTaken(f, front) { WillingStep(Run(f, front), last); }
    }
  }

  lemma PendingSnoc(f: SF.Flow, front: seq<Op>, last: Op)
    ensures NoneWhilePending(f, front + [last]) <==>
      NoneWhilePending(f, front) && (last.DoWrite? || Run(f, front).file.None?)
  {
    var ops := front + [last];
    assert ops[..|front|] == front && ops[|front|] == last;
    forall i | 0 <= i < |front| ensures ops[..i] == front[..i] && ops[i] == front[i] {}
    if NoneWhilePending(f, ops) {
      forall i | 0 <= i < |front| && !front[i].DoWrite? ensures Run(f, front[..i]).file.None? {
        assert ops[i] == front[i];
      }
    }
    if NoneWhilePending(f, front) && (last.DoWrite? || Run(f, front).file.None?) {
      forall i | 0 <= i < |ops| && !ops[i].DoWrite? ensures Run(f, ops[..i]).file.None? {
        if i < |front| { assert ops[i] == front[i]; }
      }
    }
  }

  /**
   * Pipelined answers on the wire: with a kernel that fails no call, the connection owes exactly the
   * concatenated answers if and only if no answer was sent while a file was still pending (and no
   * file lost bytes it had). Two file answers in a row break the connection instead.
   */
  lemma AnswersOnTheWire(package: Packager, f: SF.Flow, ops: seq<Op>, rs: seq<HttpResponse>)
    requires f.open && Carries(package, ops, rs) && Willing(ops) && forall r :: r in rs ==> package(r) != []
    ensures Owed(Run(f, ops)) == Owed(f) + AllBytes(package, rs) <==> NoneWhilePending(f, ops) && Abandoned(f, ops) == 0
  {
    CarriesAllBytes(package, ops, rs);
    CarriesOnlySends(package, ops, rs);
    OwedIsIntended(f, ops);
    WillingIsTaken(f, ops);
  }

  /** An answer behind a file answer always breaks the connection if no writable event comes between. */
  lemma AnswerBehindFileBreaks(package: Packager, f: SF.Flow, first: HttpResponse, second: HttpResponse, o: IoOutcome, o': IoOutcome)
    requires AcceptsFile(f, SendOf(package, first, o))
    ensures var g := Run(f, [SendOf(package, first, o), SendOf(package, second, o')]);
      !g.open && SF.ErrorOccurred in g.fired
  {
    var a, b := SendOf(package, first, o), SendOf(package, second, o');
    RunOfTwo(f, a, b);
    assert Apply(f, a).open && Apply(f, a).file.Some?;
    BehindPendingFile(Apply(f, a), b);
  }

  lemma BehindPendingFile(f: SF.Flow, op: Op)
    requires f.open && f.file.Some? && (op.DoSend? || op.DoSendFileWithHeader?)
    ensures !Apply(f, op).open && SF.ErrorOccurred in Apply(f, op).fired
  {
    assert (f.fired + [SF.ErrorOccurred])[|f.fired|] == SF.ErrorOccurred;
    assert (f.fired + [SF.ErrorOccurred] + [SF.Closed])[|f.fired|] == SF.ErrorOccurred;
  }

  /**
   * An answer that closes: the connection is closed right behind it, so the peer gets all answers
   * if and only if nothing was unsent at that moment, whatever happens later.
   */
  lemma ClosingAnswerCutsOff(f: SF.Flow, ops: seq<Op>, all: Bytes, later: seq<Op>)
    requires Owed(Run(f, ops)) == all
    ensures Run(Run(f, ops).Close(), later).wire == all <==> Run(f, ops).Unsent() == []
  {
    var g := Run(f, ops);
    WireGrows(g.Close(), later);
    if g.Unsent() == [] {
      assert g.wire + [] == g.wire;
    } else {
      assert |Owed(g)| > |g.wire|;
    }
  }

  function AnswersOf(xs: seq<HttpPipeline.Exchange>): seq<HttpResponse> {
    seq(|xs|, i requires 0 <= i < |xs| => xs[i].response)
  }

  /**
   * From requests to bytes: a stream of whole messages in any chunks, answered over a fresh
   * connection, leaves it owing the bytes of the router's answers to just those requests, in order,
   * under the same condition.
   */
  lemma PipelinedOnTheWire(
    g: HttpPipeline.Grammar, log: seq<HttpRouters.Registration>, ws: seq<HttpPipeline.Spelled>, chunks: seq<string>,
    package: Packager, ops: seq<Op>)
    requires (forall w :: w in ws ==> HttpPipeline.WellSpelled(g, w)) && Concat(chunks) == Concat(HttpPipeline.Texts(ws))
    requires Carries(package, ops, AnswersOf(HttpPipeline.FeedChunks(g, log, chunks).1)) && Willing(ops)
    requires forall r :: package(r) != []
    ensures
      var answers := AnswersOf(HttpPipeline.Answers(log, ws).1);
      Owed(Run(FreshFlow(), ops)) == AllBytes(package, answers) <==>
        NoneWhilePending(FreshFlow(), ops) && Abandoned(FreshFlow(), ops) == 0
  {
    HttpPipeline.PipelinedRequests(g, log, ws, chunks);
    var answers := AnswersOf(HttpPipeline.Answers(log, ws).1);
    AnswersOnTheWire(package, FreshFlow(), ops, answers);
    assert Owed(FreshFlow()) + AllBytes(package, answers) == AllBytes(package, answers);
  }
}
