/** The request parsing context: callbacks that assemble a request, and the `parse` call that drives them. */
module HttpContexts {
  import opened Common
  import opened HttpMessages
  import opened HttpAssembly
  import opened HttpPipeline

  datatype ParseResult = ParseRejected | ParseNeedMoreData | ParseComplete

  class HttpContext {
    const grammar: Grammar
    var parserState: ParserState
    var failed: bool                // the parser has met an error and stays there until it is reset
    var request: HttpRequest
    var messageComplete: bool
    var currentUrl: string
    var currentHeaderField: string
    var currentHeaderValue: string
    var lastWasValue: bool
    var consumedBytes: nat

    function View(): Context
      reads this
    {
      Context(request, messageComplete, currentUrl, currentHeaderField, currentHeaderValue, lastWasValue)
    }

    predicate ParserUntouched(state: ParserState, error: bool, consumed: nat)
      reads this
    {
      parserState == state && failed == error && consumedBytes == consumed
    }

    /** Neither paused at the end of a message nor stuck in an error. */
    predicate Ready()
      reads this
    {
      !messageComplete && !failed
    }

    constructor (grammar: Grammar)
      ensures this.grammar == grammar && parserState == PARSER_START && View() == FRESH_CONTEXT && Ready()
    {
      this.grammar := grammar;
      parserState, failed, consumedBytes := PARSER_START, false, 0;
      request, messageComplete := BLANK_REQUEST, false;
      currentUrl, currentHeaderField, currentHeaderValue, lastWasValue := "", "", "", false;
    }

    method Reset()
      modifies this
      ensures parserState == PARSER_START && View() == FRESH_CONTEXT && Ready()
    {
      ResetMessageState();
      parserState, failed := PARSER_START, false;
    }

    method ResetMessageState()
      modifies this
      ensures ParserUntouched(old(parserState), old(failed), old(consumedBytes))
      ensures View() == FRESH_CONTEXT
    {
      request, messageComplete := BLANK_REQUEST, false;
      currentUrl, currentHeaderField, currentHeaderValue, lastWasValue := "", "", "", false;
    }

    method FlushPendingHeader()
      modifies this
      ensures ParserUntouched(old(parserState), old(failed), old(consumedBytes))
      ensures View() == old(View()).Flushed()
    {
      if !lastWasValue {
        return;
      }
      if currentHeaderField != "" {
        request := request.(headers := request.headers[currentHeaderField := currentHeaderValue]);
      }
      currentHeaderField, currentHeaderValue, lastWasValue := "", "", false;
    }

    method OnUrl(text: string, method_: string)
      modifies this
      ensures ParserUntouched(old(parserState), old(failed), old(consumedBytes))
      ensures View() == Apply(old(View()), Url(text, method_))
    {
      currentUrl := currentUrl + text;
      request := request.(method_ := method_);
    }

    method OnHeaderField(text: string)
      modifies this
      ensures ParserUntouched(old(parserState), old(failed), old(consumedBytes))
      ensures View() == Apply(old(View()), HeaderField(text))
    {
      FlushPendingHeader();
      currentHeaderField := currentHeaderField + text;
    }

    method OnHeaderValue(text: string)
      modifies this
      ensures ParserUntouched(old(parserState), old(failed), old(consumedBytes))
      ensures View() == Apply(old(View()), HeaderValue(text))
    {
      currentHeaderValue := currentHeaderValue + text;
      lastWasValue := true;
    }

    method OnBody(text: string)
      modifies this
      ensures ParserUntouched(old(parserState), old(failed), old(consumedBytes))
      ensures View() == Apply(old(View()), Body(text))
    {
      request := request.(body := request.body + text);
    }

    method OnMessageComplete(version: string)
      modifies this
      ensures ParserUntouched(old(parserState), old(failed), old(consumedBytes))
      ensures View() == Finished(old(View()), version)
    {
      FlushPendingHeader();
      var querySeparator := FindQuestionMark(currentUrl);
      if querySeparator == |currentUrl| {
        request := request.(url := currentUrl, path := currentUrl, query := "", version := version);
      } else {
        request := request.(url := currentUrl, path := currentUrl[..querySeparator], query := currentUrl[querySeparator + 1..],
                            version := version);
      }
      messageComplete := true;
    }

    /** The parser invoking one of the callbacks. */
    method Deliver(e: Event)
      modifies this
      ensures ParserUntouched(old(parserState), old(failed), old(consumedBytes))
      ensures View() == Apply(old(View()), e)
    {
      match e {
        case MessageBegin => ResetMessageState();
        case Url(text, m) => OnUrl(text, m);
        case HeaderField(text) => OnHeaderField(text);
        case HeaderValue(text) => OnHeaderValue(text);
        case Body(text) => OnBody(text);
      }
    }

    /** The parser's current span grows by a piece, or is delivered first if it cannot or will not. */
    method Absorb(span: Option<Event>, e: Event) returns (span': Option<Event>)
      modifies this
      ensures ParserUntouched(old(parserState), old(failed), old(consumedBytes))
      ensures WithSpan(View(), span') == Apply(old(WithSpan(View(), span)), e)
    {
      var breakHere: bool := *;
      if span.Some? && Merge(span.value, e).Some? && !breakHere {
        MergeIsSame(View(), span.value, e);
        return Merge(span.value, e);
      }
      DeliverSpan(span);
      span' := Some(e);
    }

    method DeliverSpan(span: Option<Event>)
      modifies this
      ensures ParserUntouched(old(parserState), old(failed), old(consumedBytes))
      ensures View() == old(WithSpan(View(), span))
    {
      if span.Some? {
        Deliver(span.value);
      }
    }

    method AbsorbAll(span: Option<Event>, events: seq<Event>) returns (span': Option<Event>)
      modifies this
      ensures ParserUntouched(old(parserState), old(failed), old(consumedBytes))
      ensures WithSpan(View(), span') == ApplyAll(old(WithSpan(View(), span)), events)
    {
      span' := span;
      for n := 0 to |events|
        invariant ParserUntouched(old(parserState), old(failed), old(consumedBytes))
        invariant WithSpan(View(), span') == ApplyAll(old(WithSpan(View(), span)), events[..n])
      {
        ApplyAllSnoc(old(WithSpan(View(), span)), events[..n], events[n]);
        assert events[..n] + [events[n]] == events[..n + 1];
        span' := Absorb(span', events[n]);
      }
      assert events[..|events|] == events;
    }

    /**
     * Runs the parser over the data until it ends a message, rejects, or runs out, delivering the
     * pieces of an item in fragments of any size. A context that was not reset after an error or a
     * message end reports the same again and does not look at the data; in the second case the
     * number of bytes consumed is measured from a stale position and means nothing.
     */
    method Parse(data: string) returns (result: ParseResult)
      modifies this
      ensures old(failed) ==> result.ParseRejected? && consumedBytes == 0 && View() == old(View())
      ensures !old(failed) && old(messageComplete) ==> result.ParseComplete? && View() == old(View())
      ensures old(Ready()) ==>
        match ParseText(grammar, old(parserState), old(View()), data)
        case Rejected => result.ParseRejected? && consumedBytes == 0 && failed
        case NeedMore(p, c) =>
          result.ParseNeedMoreData? && consumedBytes == |data| && parserState == p && View() == c && Ready()
        case Completed(n, c) =>
          result.ParseComplete? && consumedBytes == n && View() == c && messageComplete
    {
      consumedBytes := 0;
      if failed {
        return ParseRejected;
      }
      if messageComplete {
        consumedBytes := *;
        return ParseComplete;
      }
      result := Execute(data);
    }

    method Execute(data: string) returns (result: ParseResult)
      requires Ready() && consumedBytes == 0
      modifies this
      ensures match ParseText(grammar, old(parserState), old(View()), data)
        case Rejected => result.ParseRejected? && consumedBytes == 0 && failed
        case NeedMore(p, c) =>
          result.ParseNeedMoreData? && consumedBytes == |data| && parserState == p && View() == c && Ready()
        case Completed(n, c) =>
          result.ParseComplete? && consumedBytes == n && View() == c && messageComplete
    {
      var span: Option<Event> := None;
      var at := 0;
      ghost var goal := ParseText(grammar, parserState, View(), data);
      while at < |data|
        invariant at <= |data| && consumedBytes == 0 && !failed
        invariant !WithSpan(View(), span).complete
        invariant goal == Onward(ParseText(grammar, parserState, WithSpan(View(), span), data[at..]), at)
      {
        var verdict := grammar(parserState, data[at]);
        if verdict.Reject? {
          failed := true;
          return ParseRejected;
        }
        ghost var before := WithSpan(View(), span);
        NotYetComplete(before, verdict.events);
        span := AbsorbAll(span, verdict.events);
        parserState := verdict.next;
        at := at + 1;
        if verdict.ends.Some? {
          DeliverSpan(span);
          OnMessageComplete(verdict.ends.value);
          consumedBytes := at;
          return ParseComplete;
        }
        assert data[at - 1..][1..] == data[at..];
      }
      DeliverSpan(span);
      consumedBytes := |data|;
      result := if messageComplete then ParseComplete else ParseNeedMoreData;
    }
  }

  /** The context once the span the parser holds back is delivered. */
  function WithSpan(c: Context, span: Option<Event>): Context {
    if span.Some? then Apply(c, span.value) else c
  }

  function Onward(r: Parsed, n: nat): Parsed {
    if r.Completed? then Completed(r.consumed + n, r.context) else r
  }

  lemma {:induction false} NotYetComplete(c: Context, events: seq<Event>)
    requires !c.complete
    ensures !ApplyAll(c, events).complete
  {
    if events != [] {
      NotYetComplete(c, events[..|events| - 1]);
    }
  }

  method FindQuestionMark(target: string) returns (pos: nat)
    ensures pos <= |target| && target[..pos] == PathOf(target)
    ensures if pos < |target| then target[pos] == '?' && target[pos + 1..] == QueryOf(target) else QueryOf(target) == ""
  {
    pos := 0;
    while pos < |target| && target[pos] != '?'
      invariant pos <= |target| && PathOf(target) == target[..pos] + PathOf(target[pos..])
      invariant QueryOf(target) == QueryOf(target[pos..])
    {
      assert target[pos..][1..] == target[pos + 1..];
      pos := pos + 1;
    }
  }
}
