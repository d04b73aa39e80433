/** The router: a table and an index over it, against the plain list of registrations. */
module HttpRouters {
  import opened Common
  import opened HttpMessages
  import opened AllowHeader

  type Handler = (HttpRequest, HttpResponse) -> HttpResponse

  datatype DispatchResult = Matched | NotFound | MethodNotAllowed

  /** What an application can register, in the order it does. */
  datatype Registration =
    | Exact(method_: string, path: string, handler: Handler)
    | Prefix(prefix: string, handler: Handler)
    | WhenNotFound(handler: Handler)
    | WhenNotAllowed(handler: Handler)

  datatype PrefixRoute = PrefixRoute(prefix: string, handler: Handler)

  predicate Serves(r: Registration, method_: string, path: string) {
    r.Exact? && r.method_ == method_ && r.path == path
  }

  predicate Covers(r: Registration, path: string) { r.Prefix? && StartsWith(path, r.prefix) }

  predicate StartsWith(path: string, prefix: string) { |path| >= |prefix| && path[..|prefix|] == prefix }

  /** The handler of the latest registration for this method and path. */
  function LastExact(log: seq<Registration>, method_: string, path: string): Option<Handler> {
    if log == [] then None else
      var last := log[|log| - 1];
      if Serves(last, method_, path) then Some(last.handler) else LastExact(log[..|log| - 1], method_, path)
  }

  /** The methods registered for a path. */
  function Methods(log: seq<Registration>, path: string): set<string> {
    if log == [] then {} else
      var last := log[|log| - 1];
      Methods(log[..|log| - 1], path) + if last.Exact? && last.path == path then {last.method_} else {}
  }

  /** The handler of the earliest prefix registration that covers the path. */
  function FirstPrefix(log: seq<Registration>, path: string): Option<Handler> {
    if log == [] then None else
      var earlier, last := FirstPrefix(log[..|log| - 1], path), log[|log| - 1];
      if earlier.None? && Covers(last, path) then Some(last.handler) else earlier
  }

  function LastNotFound(log: seq<Registration>): Option<Handler> {
    if log == [] then None else
      var last := log[|log| - 1];
      if last.WhenNotFound? then Some(last.handler) else LastNotFound(log[..|log| - 1])
  }

  function LastNotAllowed(log: seq<Registration>): Option<Handler> {
    if log == [] then None else
      var last := log[|log| - 1];
      if last.WhenNotAllowed? then Some(last.handler) else LastNotAllowed(log[..|log| - 1])
  }

  /** The answer to a path that exists under other methods only. */
  ghost function NotAllowedAnswer(log: seq<Registration>, req: HttpRequest, resp: HttpResponse): HttpResponse {
    match LastNotAllowed(log)
    case Some(h) => h(req, resp)
    case None =>
      var plain := PlainText(405, "Method Not Allowed", "Method Not Allowed");
      var allow := Joined(Ascending(Methods(log, req.path)));
      if allow == "" then plain else plain.WithHeader("Allow", allow)
  }

  /** Dispatch by scanning the registrations: exact, then not allowed, then prefix, then not found. */
  ghost function Scan(log: seq<Registration>, req: HttpRequest, resp: HttpResponse): (DispatchResult, HttpResponse) {
    match LastExact(log, req.method_, req.path)
    case Some(h) => (Matched, h(req, resp))
    case None =>
      if Methods(log, req.path) != {} then (MethodNotAllowed, NotAllowedAnswer(log, req, resp)) else
        match FirstPrefix(log, req.path)
        case Some(h) => (Matched, h(req, resp))
        case None =>
          match LastNotFound(log)
          case Some(h) => (NotFound, h(req, resp))
          case None => (NotFound, PlainText(404, "Not Found", "Not Found"))
  }

  /** The exact handler is that of a registration for this method and path which no later one replaces. */
  lemma {:induction false} LastExactMeaning(log: seq<Registration>, method_: string, path: string)
    ensures match LastExact(log, method_, path)
      case None => forall i :: 0 <= i < |log| ==> !Serves(log[i], method_, path)
      case Some(h) => exists i :: 0 <= i < |log| && Serves(log[i], method_, path) && h == log[i].handler
                                  && forall j :: i < j < |log| ==> !Serves(log[j], method_, path)
  {
    if log != [] {
      var front, last := log[..|log| - 1], log[|log| - 1];
      if Serves(last, method_, path) {
        assert log[|log| - 1] == last;
      } else {
        LastExactMeaning(front, method_, path);
        if LastExact(front, method_, path).Some? {
          var i :| 0 <= i < |front| && Serves(front[i], method_, path) && LastExact(front, method_, path).value == front[i].handler
                   && forall j :: i < j < |front| ==> !Serves(front[j], method_, path);
          assert log[i] == front[i];
          forall j | i < j < |log| ensures !Serves(log[j], method_, path) {
            if j < |front| { assert log[j] == front[j]; }
          }
        } else {
          forall i | 0 <= i < |log| ensures !Serves(log[i], method_, path) {
            if i < |front| { assert log[i] == front[i]; }
          }
        }
      }
    }
  }

  /** The prefix handler is that of a covering registration with no covering one before it. */
  lemma {:induction false} FirstPrefixMeaning(log: seq<Registration>, path: string)
    ensures match FirstPrefix(log, path)
      case None => forall i :: 0 <= i < |log| ==> !Covers(log[i], path)
      case Some(h) => exists i :: 0 <= i < |log| && Covers(log[i], path) && h == log[i].handler
                                  && forall j :: 0 <= j < i ==> !Covers(log[j], path)
  {
    if log != [] {
      var front, last := log[..|log| - 1], log[|log| - 1];
      FirstPrefixMeaning(front, path);
      if FirstPrefix(front, path).Some? {
        var i :| 0 <= i < |front| && Covers(front[i], path) && FirstPrefix(front, path).value == front[i].handler
                 && forall j :: 0 <= j < i ==> !Covers(front[j], path);
        assert log[i] == front[i];
        forall j | 0 <= j < i ensures !Covers(log[j], path) { assert log[j] == front[j]; }
      } else {
        forall j | 0 <= j < |front| ensures !Covers(log[j], path) { assert log[j] == front[j]; }
      }
    }
  }

  /** A method is allowed on a path exactly when it was registered there, that is, when it has an exact handler. */
  lemma {:induction false} MethodsAreExact(log: seq<Registration>, method_: string, path: string)
    ensures method_ in Methods(log, path) <==> LastExact(log, method_, path).Some?
  {
    if log != [] {
      MethodsAreExact(log[..|log| - 1], method_, path);
    }
  }

  /** The default 405 answer names every method the path does have, once, in order, and never the one asked for. */
  lemma AllowIsComplete(log: seq<Registration>, req: HttpRequest, resp: HttpResponse)
    requires Scan(log, req, resp).0.MethodNotAllowed? && LastNotAllowed(log).None?
    ensures var methods := Methods(log, req.path); var names := Ascending(methods); var answer := Scan(log, req, resp).1;
      && answer.status == 405 && methods != {} && req.method_ !in methods
      && StrictlyAscending(names) && Names(names) == methods
      && (forall m :: m in methods <==> LastExact(log, m, req.path).Some?)
      && (methods != {""} ==> "Allow" in answer.headers && answer.headers["Allow"] == Joined(names))
  {
    var methods := Methods(log, req.path);
    AscendingIsSorted(methods);
    JoinedIsEmpty(methods);
    MethodsAreExact(log, req.method_, req.path);
    forall m ensures m in methods <==> LastExact(log, m, req.path).Some? { MethodsAreExact(log, m, req.path); }
  }

  /** A prefix covers just the paths that continue it. */
  lemma StartsWithMeaning(path: string, prefix: string)
    ensures StartsWith(path, prefix) <==> exists rest :: path == prefix + rest
  {
    if StartsWith(path, prefix) {
      assert path == prefix + path[|prefix|..];
    }
  }

  /** Some registration is for this very method and path. */
  predicate HasExact(log: seq<Registration>, method_: string, path: string) {
    exists i :: 0 <= i < |log| && log[i].Exact? && log[i].path == path && log[i].method_ == method_
  }

  /** Some registration is for this very path, whatever the method. */
  predicate HasPath(log: seq<Registration>, path: string) {
    exists i :: 0 <= i < |log| && log[i].Exact? && log[i].path == path
  }

  predicate HasPrefix(log: seq<Registration>, path: string) {
    exists i :: 0 <= i < |log| && log[i].Prefix? && StartsWith(path, log[i].prefix)
  }

  lemma HasExactIsServed(log: seq<Registration>, method_: string, path: string)
    ensures LastExact(log, method_, path).Some? <==> HasExact(log, method_, path)
  {
    LastExactMeaning(log, method_, path);
  }

  lemma HasPrefixIsCovered(log: seq<Registration>, path: string)
    ensures FirstPrefix(log, path).Some? <==> HasPrefix(log, path)
  {
    FirstPrefixMeaning(log, path);
    if HasPrefix(log, path) {
      var i :| 0 <= i < |log| && log[i].Prefix? && StartsWith(path, log[i].prefix);
      assert Covers(log[i], path);
    }
  }

  lemma HasPathIsKnown(log: seq<Registration>, path: string)
    ensures Methods(log, path) != {} <==> HasPath(log, path)
  {
    if Methods(log, path) != {} {
      var m :| m in Methods(log, path);
      MethodsAreExact(log, m, path);
      HasExactIsServed(log, m, path);
    }
    if HasPath(log, path) {
      var i :| 0 <= i < |log| && log[i].Exact? && log[i].path == path;
      assert HasExact(log, log[i].method_, path);
      HasExactIsServed(log, log[i].method_, path);
      MethodsAreExact(log, log[i].method_, path);
    }
  }

  /**
   * Which of the outcomes a request gets, said of the registrations alone. A path that has exact
   * routes under other methods is "not allowed", whatever prefixes are registered.
   */
  lemma OutcomeExactly(log: seq<Registration>, req: HttpRequest, resp: HttpResponse)
    ensures Scan(log, req, resp).0.MethodNotAllowed? <==>
      HasPath(log, req.path) && !HasExact(log, req.method_, req.path)
    ensures Scan(log, req, resp).0.Matched? <==>
      HasExact(log, req.method_, req.path) || (!HasPath(log, req.path) && HasPrefix(log, req.path))
    ensures Scan(log, req, resp).0.NotFound? <==> !HasPath(log, req.path) && !HasPrefix(log, req.path)
  {
    HasExactIsServed(log, req.method_, req.path);
    HasPathIsKnown(log, req.path);
    HasPrefixIsCovered(log, req.path);
  }

  /** `h` belongs to the latest registration for this method and path. */
  ghost predicate LatestExact(log: seq<Registration>, method_: string, path: string, h: Handler) {
    exists i :: 0 <= i < |log| && log[i] == Exact(method_, path, h)
                && forall j :: i < j < |log| ==> !(log[j].Exact? && log[j].method_ == method_ && log[j].path == path)
  }

  /** `h` belongs to the earliest prefix registration the path continues. */
  ghost predicate EarliestPrefix(log: seq<Registration>, path: string, h: Handler) {
    exists i :: 0 <= i < |log| && log[i].Prefix? && StartsWith(path, log[i].prefix) && log[i].handler == h
                && forall j :: 0 <= j < i ==> !(log[j].Prefix? && StartsWith(path, log[j].prefix))
  }

  ghost predicate LatestNotFound(log: seq<Registration>, h: Handler) {
    exists i :: 0 <= i < |log| && log[i] == WhenNotFound(h) && forall j :: i < j < |log| ==> !log[j].WhenNotFound?
  }

  ghost predicate LatestNotAllowed(log: seq<Registration>, h: Handler) {
    exists i :: 0 <= i < |log| && log[i] == WhenNotAllowed(h) && forall j :: i < j < |log| ==> !log[j].WhenNotAllowed?
  }

  lemma {:induction false} LastNotFoundMeaning(log: seq<Registration>)
    ensures match LastNotFound(log)
      case None => forall i :: 0 <= i < |log| ==> !log[i].WhenNotFound?
      case Some(h) => LatestNotFound(log, h)
  {
    if log != [] && !log[|log| - 1].WhenNotFound? {
      var front := log[..|log| - 1];
      LastNotFoundMeaning(front);
      if LastNotFound(front).Some? {
        var h := LastNotFound(front).value;
        var i :| 0 <= i < |front| && front[i] == WhenNotFound(h) && forall j :: i < j < |front| ==> !front[j].WhenNotFound?;
        assert log[i] == WhenNotFound(h);
        forall j | i < j < |log| ensures !log[j].WhenNotFound? {
          if j < |front| { assert log[j] == front[j]; }
        }
      } else {
        forall i | 0 <= i < |front| ensures !log[i].WhenNotFound? { assert log[i] == front[i]; }
      }
    }
  }

  lemma {:induction false} LastNotAllowedMeaning(log: seq<Registration>)
    ensures match LastNotAllowed(log)
      case None => forall i :: 0 <= i < |log| ==> !log[i].WhenNotAllowed?
      case Some(h) => LatestNotAllowed(log, h)
  {
    if log != [] && !log[|log| - 1].WhenNotAllowed? {
      var front := log[..|log| - 1];
      LastNotAllowedMeaning(front);
      if LastNotAllowed(front).Some? {
        var h := LastNotAllowed(front).value;
        var i :| 0 <= i < |front| && front[i] == WhenNotAllowed(h) && forall j :: i < j < |front| ==> !front[j].WhenNotAllowed?;
        assert log[i] == WhenNotAllowed(h);
        forall j | i < j < |log| ensures !log[j].WhenNotAllowed? {
          if j < |front| { assert log[j] == front[j]; }
        }
      } else {
        forall i | 0 <= i < |front| ensures !log[i].WhenNotAllowed? { assert log[i] == front[i]; }
      }
    }
  }

  /** The ready-made answers, in full. */
  ghost predicate IsPlain(r: HttpResponse, status: nat, text: string) {
    && r.status == status && r.message == text && r.body == text && r.file.None? && r.close
    && "Content-Type" in r.headers && r.headers["Content-Type"] == "text/plain"
    && "Content-Length" in r.headers && Number(r.headers["Content-Length"]) == |text|
  }

  lemma PlainTextIsPlain(status: nat, text: string)
    ensures IsPlain(PlainText(status, text, text), status, text)
  {
    ReadsBack(|text|);
  }

  /** Whose answer a request gets, said of the registrations alone. */
  lemma AnswerExactly(log: seq<Registration>, req: HttpRequest, resp: HttpResponse)
    ensures var (outcome, answer) := Scan(log, req, resp);
      && (outcome.Matched? && HasExact(log, req.method_, req.path) ==>
        exists h :: LatestExact(log, req.method_, req.path, h) && answer == h(req, resp))
      && (outcome.Matched? && !HasExact(log, req.method_, req.path) ==>
        exists h :: EarliestPrefix(log, req.path, h) && answer == h(req, resp))
      && (outcome.MethodNotAllowed? ==>
        if exists i :: 0 <= i < |log| && log[i].WhenNotAllowed?
        then exists h :: LatestNotAllowed(log, h) && answer == h(req, resp)
        else IsPlain(answer, 405, "Method Not Allowed"))
      && (outcome.NotFound? ==>
        if exists i :: 0 <= i < |log| && log[i].WhenNotFound?
        then exists h :: LatestNotFound(log, h) && answer == h(req, resp)
        else IsPlain(answer, 404, "Not Found"))
  {
    OutcomeExactly(log, req, resp);
    HasExactIsServed(log, req.method_, req.path);
    ExactAnswers(log, req.method_, req.path);
    PrefixAnswers(log, req.path);
    LastNotAllowedMeaning(log);
    LastNotFoundMeaning(log);
    PlainTextIsPlain(404, "Not Found");
    PlainTextIsPlain(405, "Method Not Allowed");
  }

  lemma ExactAnswers(log: seq<Registration>, method_: string, path: string)
    ensures LastExact(log, method_, path).Some? ==> LatestExact(log, method_, path, LastExact(log, method_, path).value)
  {
    LastExactMeaning(log, method_, path);
    if LastExact(log, method_, path).Some? {
      var h := LastExact(log, method_, path).value;
      var i :| 0 <= i < |log| && Serves(log[i], method_, path) && h == log[i].handler
               && forall j :: i < j < |log| ==> !Serves(log[j], method_, path);
      forall j | i < j < |log| ensures !(log[j].Exact? && log[j].method_ == method_ && log[j].path == path) {
        assert !Serves(log[j], method_, path);
      }
      assert log[i] == Exact(method_, path, h);
    }
  }

  lemma PrefixAnswers(log: seq<Registration>, path: string)
    ensures FirstPrefix(log, path).Some? ==> EarliestPrefix(log, path, FirstPrefix(log, path).value)
  {
    FirstPrefixMeaning(log, path);
    if FirstPrefix(log, path).Some? {
      var h := FirstPrefix(log, path).value;
      var i :| 0 <= i < |log| && Covers(log[i], path) && h == log[i].handler
               && forall j :: 0 <= j < i ==> !Covers(log[j], path);
      forall j | 0 <= j < i ensures !(log[j].Prefix? && StartsWith(path, log[j].prefix)) {
        assert !Covers(log[j], path);
      }
      assert log[i].Prefix? && StartsWith(path, log[i].prefix) && log[i].handler == h;
    }
  }

  class HttpRouter {
    var exactRoutes: map<(string, string), Handler>
    var allowedMethodsByPath: map<string, set<string>>
    var prefixRoutes: seq<PrefixRoute>
    var notFoundHandler: Option<Handler>
    var methodNotAllowedHandler: Option<Handler>
    ghost var log: seq<Registration>

    /** The tables are what the registrations make them. */
    ghost predicate Valid()
      reads this
    {
      && ExactOf(exactRoutes, log) && AllowedOf(allowedMethodsByPath, log)
      && PrefixesOf(prefixRoutes, log)
      && notFoundHandler == LastNotFound(log) && methodNotAllowedHandler == LastNotAllowed(log)
    }

    constructor ()
      ensures Valid() && log == []
    {
      exactRoutes, allowedMethodsByPath, prefixRoutes := map[], map[], [];
      notFoundHandler, methodNotAllowedHandler, log := None, None, [];
    }

    method AddRoute(method_: string, path: string, handler: Handler)
      requires Valid()
      modifies this
      ensures Valid() && log == old(log) + [Exact(method_, path, handler)]
    {
      exactRoutes := exactRoutes[(method_, path) := handler];
      var methods := if path in allowedMethodsByPath then allowedMethodsByPath[path] else {};
      allowedMethodsByPath := allowedMethodsByPath[path := methods + {method_}];
      LogSnoc(log, Exact(method_, path, handler));
      log := log + [Exact(method_, path, handler)];
    }

    method AddPrefixRoute(prefix: string, handler: Handler)
      requires Valid()
      modifies this
      ensures Valid() && log == old(log) + [Prefix(prefix, handler)]
    {
      ghost var before := prefixRoutes;
      prefixRoutes := prefixRoutes + [PrefixRoute(prefix, handler)];
      assert prefixRoutes[..|before|] == before;
      LogSnoc(log, Prefix(prefix, handler));
      log := log + [Prefix(prefix, handler)];
      forall path ensures FirstOf(prefixRoutes, path) == FirstPrefix(log, path) {
        assert FirstOf(before, path) == FirstPrefix(old(log), path);
      }
    }

    method SetNotFoundHandler(handler: Handler)
      requires Valid()
      modifies this
      ensures Valid() && log == old(log) + [WhenNotFound(handler)]
    {
      notFoundHandler := Some(handler);
      LogSnoc(log, WhenNotFound(handler));
      log := log + [WhenNotFound(handler)];
    }

    method SetMethodNotAllowedHandler(handler: Handler)
      requires Valid()
      modifies this
      ensures Valid() && log == old(log) + [WhenNotAllowed(handler)]
    {
      methodNotAllowedHandler := Some(handler);
      LogSnoc(log, WhenNotAllowed(handler));
      log := log + [WhenNotAllowed(handler)];
    }

    /** The tables answer every request as the scan of the registrations does. */
    method Dispatch(req: HttpRequest, resp: HttpResponse) returns (result: DispatchResult, resp': HttpResponse)
      requires Valid()
      ensures (result, resp') == Scan(log, req, resp)
    {
      if (req.method_, req.path) in exactRoutes {
        return Matched, exactRoutes[(req.method_, req.path)](req, resp);
      }
      if req.path in allowedMethodsByPath {
        resp' := WriteMethodNotAllowed(req, allowedMethodsByPath[req.path], resp);
        return MethodNotAllowed, resp';
      }
      var prefixHandler := FindPrefixHandler(req.path);
      if prefixHandler.Some? {
        return Matched, prefixHandler.value(req, resp);
      }
      resp' := if notFoundHandler.Some? then notFoundHandler.value(req, resp) else PlainText(404, "Not Found", "Not Found");
      result := NotFound;
    }

    method WriteMethodNotAllowed(req: HttpRequest, allowedMethods: set<string>, resp: HttpResponse) returns (resp': HttpResponse)
      requires Valid() && allowedMethods == Methods(log, req.path)
      ensures resp' == NotAllowedAnswer(log, req, resp)
    {
      if methodNotAllowedHandler.Some? {
        return methodNotAllowedHandler.value(req, resp);
      }
      resp' := PlainText(405, "Method Not Allowed", "Method Not Allowed");
      var allowHeader := FormatAllowHeader(allowedMethods);
      if allowHeader != "" {
        resp' := resp'.WithHeader("Allow", allowHeader);
      }
    }

    /** Scans the prefixes in registration order. */
    method FindPrefixHandler(path: string) returns (handler: Option<Handler>)
      requires Valid()
      ensures handler == FirstPrefix(log, path)
    {
      for i := 0 to |prefixRoutes|
        invariant FirstOf(prefixRoutes[..i], path).None?
      {
        assert prefixRoutes[..i + 1][..i] == prefixRoutes[..i];
        if StartsWith(path, prefixRoutes[i].prefix) {
          FirstOfStays(prefixRoutes, path, i + 1);
          return Some(prefixRoutes[i].handler);
        }
      }
      assert prefixRoutes[..|prefixRoutes|] == prefixRoutes;
      return None;
    }
  }

  ghost predicate ExactOf(table: map<(string, string), Handler>, log: seq<Registration>) {
    forall m: string, p: string ::
      LastExact(log, m, p) == if (m, p) in table then Some(table[(m, p)]) else None
  }

  ghost predicate AllowedOf(index: map<string, set<string>>, log: seq<Registration>) {
    forall p: string :: Methods(log, p) == (if p in index then index[p] else {}) && (p in index ==> index[p] != {})
  }

  ghost predicate PrefixesOf(prefixes: seq<PrefixRoute>, log: seq<Registration>) {
    forall path :: FirstOf(prefixes, path) == FirstPrefix(log, path)
  }

  function FirstOf(prefixes: seq<PrefixRoute>, path: string): Option<Handler> {
    if prefixes == [] then None else
      var earlier, last := FirstOf(prefixes[..|prefixes| - 1], path), prefixes[|prefixes| - 1];
      if earlier.None? && StartsWith(path, last.prefix) then Some(last.handler) else earlier
  }

  lemma {:induction false} FirstOfStays(prefixes: seq<PrefixRoute>, path: string, i: nat)
    requires i <= |prefixes| && FirstOf(prefixes[..i], path).Some?
    ensures FirstOf(prefixes, path) == FirstOf(prefixes[..i], path)
  {
    if i == |prefixes| {
      assert prefixes[..i] == prefixes;
    } else {
      assert prefixes[..|prefixes| - 1][..i] == prefixes[..i];
      FirstOfStays(prefixes[..|prefixes| - 1], path, i);
    }
  }

  lemma LogSnoc(log: seq<Registration>, r: Registration)
    ensures (log + [r])[..|log|] == log
  {
  }

  /** After any registrations the index is exactly the projection of the table: a path's methods are those with a handler. */
  lemma IndexIsProjection(router: HttpRouter)
    requires router.Valid()
    ensures forall p :: p in router.allowedMethodsByPath <==> exists m :: (m, p) in router.exactRoutes
    ensures forall p, m :: p in router.allowedMethodsByPath ==>
      (m in router.allowedMethodsByPath[p] <==> (m, p) in router.exactRoutes)
  {
    forall p, m ensures m in Methods(router.log, p) <==> (m, p) in router.exactRoutes {
      MethodsAreExact(router.log, m, p);
    }
    forall p ensures p in router.allowedMethodsByPath <==> exists m :: (m, p) in router.exactRoutes {
      if p in router.allowedMethodsByPath {
        var m :| m in router.allowedMethodsByPath[p];
        assert (m, p) in router.exactRoutes;
      }
      if m :| (m, p) in router.exactRoutes {
        assert m in Methods(router.log, p);
      }
    }
  }
}
