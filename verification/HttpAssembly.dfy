/** What the parser's callbacks build, and the request they should have built, however the pieces fall. */
module HttpAssembly {
  import opened Common
  import opened HttpMessages

  /** The parser's callbacks; data arrives in pieces of any size. */
  datatype Event =
    | MessageBegin
    | Url(text: string, method_: string)
    | HeaderField(text: string)
    | HeaderValue(text: string)
    | Body(text: string)

  datatype Context = Context(
    request: HttpRequest, complete: bool, url: string, field: string, value: string, lastWasValue: bool)
  {
    /** Commits a header whose value has been seen. */
    function Flushed(): Context {
      if !lastWasValue then this else
        this.(request := if field == "" then request else request.(headers := request.headers[field := value]),
              field := "", value := "", lastWasValue := false)
    }

    function WithBody(text: string): Context { this.(request := request.(body := request.body + text)) }
  }

  const FRESH_CONTEXT := Context(BLANK_REQUEST, false, "", "", "", false)

  function Apply(c: Context, e: Event): Context {
    match e
    case MessageBegin => FRESH_CONTEXT
    case Url(text, m) => c.(url := c.url + text, request := c.request.(method_ := m))
    case HeaderField(text) => c.Flushed().(field := c.Flushed().field + text)
    case HeaderValue(text) => c.(value := c.value + text, lastWasValue := true)
    case Body(text) => c.WithBody(text)
  }

  function ApplyAll(c: Context, events: seq<Event>): Context {
    if events == [] then c else Apply(ApplyAll(c, events[..|events| - 1]), events[|events| - 1])
  }

  /** `on_message_complete`: the request line is split at the first question mark. */
  function Finished(c: Context, version: string): Context {
    var d := c.Flushed();
    d.(complete := true, request := d.request.(
         url := d.url, path := PathOf(d.url), query := QueryOf(d.url), version := version))
  }

  function PathOf(target: string): string {
    if target == "" || target[0] == '?' then "" else [target[0]] + PathOf(target[1..])
  }

  function QueryOf(target: string): string {
    if target == "" then "" else if target[0] == '?' then target[1..] else QueryOf(target[1..])
  }

  /** The path ends where the query begins, and nothing but the separator is lost. */
  lemma {:induction false} TargetSplits(target: string)
    ensures '?' !in PathOf(target)
    ensures target == PathOf(target) + if '?' in target then "?" + QueryOf(target) else ""
    ensures '?' !in target ==> QueryOf(target) == ""
  {
    if target != "" {
      var first, rest := [target[0]], target[1..];
      assert target == first + rest;
      if target[0] != '?' {
        TargetSplits(rest);
        assert '?' in target <==> '?' in rest;
        Assoc(first, PathOf(rest), if '?' in rest then "?" + QueryOf(rest) else "");
      }
    }
  }

  lemma {:induction false} ApplyAllAppend(c: Context, a: seq<Event>, b: seq<Event>)
    ensures ApplyAll(c, a + b) == ApplyAll(ApplyAll(c, a), b)
  {
    if b == [] {
      assert a + b == a;
    } else {
      assert (a + b)[..|a + b| - 1] == a + b[..|b| - 1];
      ApplyAllAppend(c, a, b[..|b| - 1]);
    }
  }

  lemma ApplyAllSnoc(c: Context, events: seq<Event>, e: Event)
    ensures ApplyAll(c, events + [e]) == Apply(ApplyAll(c, events), e)
  {
    assert (events + [e])[..|events|] == events;
  }

  /** Two pieces of the same item delivered as one. */
  function Merge(a: Event, b: Event): Option<Event> {
    match (a, b)
    case (Url(s, m), Url(t, n)) => if m == n then Some(Url(s + t, m)) else None
    case (HeaderField(s), HeaderField(t)) => Some(HeaderField(s + t))
    case (HeaderValue(s), HeaderValue(t)) => Some(HeaderValue(s + t))
    case (Body(s), Body(t)) => Some(Body(s + t))
    case _ => None
  }

  /** The callbacks append, so merging or splitting adjacent pieces makes no difference. */
  lemma MergeIsSame(c: Context, a: Event, b: Event)
    requires Merge(a, b).Some?
    ensures Apply(Apply(c, a), b) == Apply(c, Merge(a, b).value)
  {
    match a
    case Url(s, _) => Assoc(c.url, s, b.text);
    case HeaderField(s) => Assoc(c.Flushed().field, s, b.text);
    case HeaderValue(s) => Assoc(c.value, s, b.text);
    case Body(s) => Assoc(c.request.body, s, b.text);
  }

  /** A request as it was meant. Trailers count as headers, so headers and body may alternate. */
  datatype Item = Header(name: string, value: string) | Chunk(text: string)

  datatype Message = Message(method_: string, target: string, items: seq<Item>, version: string)

  /** Of equal names the last wins. */
  function HeadersOf(items: seq<Item>): map<string, string> {
    if items == [] then map[] else
      var earlier, last := HeadersOf(items[..|items| - 1]), items[|items| - 1];
      if last.Header? && last.name != "" then earlier[last.name := last.value] else earlier
  }

  function BodyOf(items: seq<Item>): string {
    if items == [] then "" else
      BodyOf(items[..|items| - 1]) + if items[|items| - 1].Chunk? then items[|items| - 1].text else ""
  }

  /** The request a message stands for. */
  function RequestOf(m: Message): HttpRequest {
    HttpRequest(m.method_, m.target, PathOf(m.target), QueryOf(m.target), m.version, HeadersOf(m.items), BodyOf(m.items))
  }

  /** The texts of the body chunks. */
  function ChunksOf(items: seq<Item>): seq<string> {
    if items == [] then [] else
      ChunksOf(items[..|items| - 1]) + if items[|items| - 1].Chunk? then [items[|items| - 1].text] else []
  }

  lemma {:induction false} BodyMeaning(items: seq<Item>)
    ensures BodyOf(items) == Concat(ChunksOf(items))
  {
    if items != [] {
      var front, last := items[..|items| - 1], items[|items| - 1];
      BodyMeaning(front);
      if last.Chunk? {
        ConcatSnoc(ChunksOf(front), last.text);
      } else {
        assert ChunksOf(front) + [] == ChunksOf(front) && BodyOf(front) + "" == BodyOf(front);
      }
    }
  }

  /** The value of a name is that of its last header; nameless headers are dropped. */
  ghost predicate LastHeader(items: seq<Item>, name: string, value: string) {
    exists i :: 0 <= i < |items| && items[i] == Header(name, value)
                && forall j :: i < j < |items| ==> !(items[j].Header? && items[j].name == name)
  }

  lemma {:induction false} HeadersMeaning(items: seq<Item>, name: string)
    ensures name in HeadersOf(items) <==> name != "" && exists i :: 0 <= i < |items| && items[i].Header? && items[i].name == name
    ensures name in HeadersOf(items) ==> LastHeader(items, name, HeadersOf(items)[name])
  {
    if items != [] {
      var front, last := items[..|items| - 1], items[|items| - 1];
      HeadersMeaning(front, name);
      assert items == front + [last];
      if last.Header? && last.name == name {
        assert items[|items| - 1] == last;
      } else {
        assert name in HeadersOf(items) <==> name in HeadersOf(front);
        forall i | 0 <= i < |front| ensures items[i] == front[i] {}
        if name in HeadersOf(front) {
          var v := HeadersOf(front)[name];
          var i :| 0 <= i < |front| && front[i] == Header(name, v)
                   && forall j :: i < j < |front| ==> !(front[j].Header? && front[j].name == name);
          assert items[i] == Header(name, v);
        }
        if k :| 0 <= k < |items| && items[k].Header? && items[k].name == name {
          assert front[k] == items[k];
        }
      }
    }
  }

  /** What the fields of the request are to the message. */
  lemma RequestMeaning(m: Message)
    ensures var r := RequestOf(m);
      && r.method_ == m.method_ && r.version == m.version && r.url == m.target
      && '?' !in r.path && r.url == r.path + (if '?' in r.url then "?" + r.query else "") && ('?' !in r.url ==> r.query == "")
      && r.body == Concat(ChunksOf(m.items))
      && forall name :: name in r.headers ==> name != "" && LastHeader(m.items, name, r.headers[name])
    ensures forall i :: 0 <= i < |m.items| && m.items[i].Header? && m.items[i].name != "" ==> m.items[i].name in RequestOf(m).headers
  {
    TargetSplits(m.target);
    BodyMeaning(m.items);
    forall name ensures name in HeadersOf(m.items) ==> name != "" && LastHeader(m.items, name, HeadersOf(m.items)[name]) {
      HeadersMeaning(m.items, name);
    }
    forall i | 0 <= i < |m.items| && m.items[i].Header? && m.items[i].name != "" ensures m.items[i].name in HeadersOf(m.items) {
      HeadersMeaning(m.items, m.items[i].name);
    }
  }

  /** One way of cutting an item into pieces. */
  datatype Pieces = HeaderPieces(name: seq<string>, value: seq<string>) | BodyPieces(text: seq<string>)

  /** Every header has at least one piece of name and one, possibly empty, of value. */
  predicate Spells(p: Pieces, item: Item) {
    match p
    case HeaderPieces(name, value) =>
      name != [] && value != [] && item == Header(Concat(name), Concat(value))
    case BodyPieces(text) => item == Chunk(Concat(text))
  }

  function EventsOf(p: Pieces): seq<Event> {
    match p
    case HeaderPieces(name, value) => Fields(name) + Values(value)
    case BodyPieces(text) => Bodies(text)
  }

  function Urls(pieces: seq<string>, method_: string): (es: seq<Event>)
    ensures |es| == |pieces|
  {
    seq(|pieces|, i requires 0 <= i < |pieces| => Url(pieces[i], method_))
  }

  function Fields(pieces: seq<string>): (es: seq<Event>)
    ensures |es| == |pieces|
  {
    seq(|pieces|, i requires 0 <= i < |pieces| => HeaderField(pieces[i]))
  }

  function Values(pieces: seq<string>): (es: seq<Event>)
    ensures |es| == |pieces|
  {
    seq(|pieces|, i requires 0 <= i < |pieces| => HeaderValue(pieces[i]))
  }

  function Bodies(pieces: seq<string>): (es: seq<Event>)
    ensures |es| == |pieces|
  {
    seq(|pieces|, i requires 0 <= i < |pieces| => Body(pieces[i]))
  }

  function ItemEvents(parts: seq<Pieces>): seq<Event> {
    if parts == [] then [] else ItemEvents(parts[..|parts| - 1]) + EventsOf(parts[|parts| - 1])
  }

  function MessageEvents(method_: string, target: seq<string>, parts: seq<Pieces>): seq<Event> {
    [MessageBegin] + Urls(target, method_) + ItemEvents(parts)
  }

  lemma {:induction false} UrlPieces(c: Context, pieces: seq<string>, method_: string)
    requires pieces != []
    ensures ApplyAll(c, Urls(pieces, method_)) == c.(url := c.url + Concat(pieces), request := c.request.(method_ := method_))
  {
    var front, last := pieces[..|pieces| - 1], pieces[|pieces| - 1];
    assert Urls(pieces, method_) == Urls(front, method_) + [Url(last, method_)];
    ApplyAllSnoc(c, Urls(front, method_), Url(last, method_));
    Assoc(c.url, Concat(front), last);
    if front == [] {
      assert c.url + [] == c.url;
      assert Urls(front, method_) == [];
    } else {
      UrlPieces(c, front, method_);
    }
  }

  lemma {:induction false} FieldPieces(c: Context, pieces: seq<string>)
    requires pieces != []
    ensures ApplyAll(c, Fields(pieces)) == c.Flushed().(field := c.Flushed().field + Concat(pieces))
  {
    var front, last := pieces[..|pieces| - 1], pieces[|pieces| - 1];
    assert Fields(pieces) == Fields(front) + [HeaderField(last)];
    ApplyAllSnoc(c, Fields(front), HeaderField(last));
    Assoc(c.Flushed().field, Concat(front), last);
    if front == [] {
      assert c.Flushed().field + [] == c.Flushed().field;
      assert Fields(front) == [];
    } else {
      FieldPieces(c, front);
    }
  }

  lemma {:induction false} ValuePieces(c: Context, pieces: seq<string>)
    requires pieces != []
    ensures ApplyAll(c, Values(pieces)) == c.(value := c.value + Concat(pieces), lastWasValue := true)
  {
    var front, last := pieces[..|pieces| - 1], pieces[|pieces| - 1];
    assert Values(pieces) == Values(front) + [HeaderValue(last)];
    ApplyAllSnoc(c, Values(front), HeaderValue(last));
    Assoc(c.value, Concat(front), last);
    if front == [] {
      assert c.value + [] == c.value;
      assert Values(front) == [];
    } else {
      ValuePieces(c, front);
    }
  }

  lemma {:induction false} BodyPiecesAppend(c: Context, pieces: seq<string>)
    ensures ApplyAll(c, Bodies(pieces)) == c.WithBody(Concat(pieces))
  {
    if pieces == [] {
      assert c.request.body + [] == c.request.body;
    } else {
      var front, last := pieces[..|pieces| - 1], pieces[|pieces| - 1];
      assert Bodies(pieces) == Bodies(front) + [Body(last)];
      ApplyAllSnoc(c, Bodies(front), Body(last));
      Assoc(c.request.body, Concat(front), last);
      BodyPiecesAppend(c, front);
    }
  }

  /** Nothing but a header whose value has begun is ever pending. */
  predicate Settled(c: Context) { !c.lastWasValue ==> c.field == "" && c.value == "" }

  lemma PiecesApply(c: Context, p: Pieces, item: Item)
    requires Settled(c) && Spells(p, item)
    ensures var d, f := ApplyAll(c, EventsOf(p)), c.Flushed();
      Settled(d) && d.Flushed() ==
        if item.Chunk? then f.WithBody(item.text)
        else if item.name == "" then f
        else f.(request := f.request.(headers := f.request.headers[item.name := item.value]))
  {
    match p
    case HeaderPieces(name, value) =>
      ApplyAllAppend(c, Fields(name), Values(value));
      FieldPieces(c, name);
      ValuePieces(ApplyAll(c, Fields(name)), value);
      assert "" + Concat(name) == Concat(name) && "" + Concat(value) == Concat(value);
    case BodyPieces(text) =>
      BodyPiecesAppend(c, text);
  }

  /** The items, however cut. */
  ghost predicate AllSpell(parts: seq<Pieces>, items: seq<Item>) {
    |parts| == |items| && forall i :: 0 <= i < |parts| ==> Spells(parts[i], items[i])
  }

  lemma {:induction false} ItemsApply(c: Context, parts: seq<Pieces>, items: seq<Item>)
    requires c == FRESH_CONTEXT.(url := c.url, request := BLANK_REQUEST.(method_ := c.request.method_))
    requires AllSpell(parts, items)
    ensures var d := ApplyAll(c, ItemEvents(parts));
      && Settled(d)
      && d.Flushed() == c.(request := c.request.(headers := HeadersOf(items), body := BodyOf(items)))
  {
    if parts != [] {
      var front, last := parts[..|parts| - 1], parts[|parts| - 1];
      ItemsApply(c, front, items[..|items| - 1]);
      ApplyAllAppend(c, ItemEvents(front), EventsOf(last));
      PiecesApply(ApplyAll(c, ItemEvents(front)), last, items[|items| - 1]);
    }
  }

  /**
   * However the target, the header names and values and the body are cut into pieces, and whatever
   * was parsed before, the callbacks build the request the message stands for.
   */
  lemma AnyFragmentation(c: Context, m: Message, target: seq<string>, parts: seq<Pieces>)
    requires target != [] && Concat(target) == m.target && AllSpell(parts, m.items)
    ensures Finished(ApplyAll(c, MessageEvents(m.method_, target, parts)), m.version).request == RequestOf(m)
  {
    var begin, urls, rest := [MessageBegin], Urls(target, m.method_), ItemEvents(parts);
    ApplyAllSnoc(c, [], MessageBegin);
    assert [] + begin == begin;
    ApplyAllAppend(c, begin + urls, rest);
    ApplyAllAppend(c, begin, urls);
    UrlPieces(FRESH_CONTEXT, target, m.method_);
    assert "" + m.target == m.target;
    ItemsApply(ApplyAll(FRESH_CONTEXT, urls), parts, m.items);
  }
}
