/** The log of a server that answers each item at once, and what one connection sees of it. */
module ServedLog {
  import opened Common

  /** One item of a connection handed to the application, and what was sent back for it. */
  datatype Handled<T> = Handled(conn: ConnId, item: T, sent: Bytes)

  /** Items of one connection handled in order. */
  function HandledAll<T>(conn: ConnId, answer: T -> Bytes, items: seq<T>): (log: seq<Handled<T>>)
    ensures |log| == |items|
  {
    seq(|items|, i requires 0 <= i < |items| => Handled(conn, items[i], answer(items[i])))
  }

  /** The items of one connection that reached the application. */
  function ItemsOf<T>(log: seq<Handled<T>>, conn: ConnId): seq<T> {
    if log == [] then [] else
      var last := log[|log| - 1];
      ItemsOf(log[..|log| - 1], conn) + if last.conn == conn then [last.item] else []
  }

  /** The bytes sent on one connection. */
  function SentOn<T>(log: seq<Handled<T>>, conn: ConnId): Bytes {
    if log == [] then [] else
      var last := log[|log| - 1];
      SentOn(log[..|log| - 1], conn) + if last.conn == conn then last.sent else []
  }

  function Answers<T>(answer: T -> Bytes, items: seq<T>): Bytes {
    if items == [] then [] else Answers(answer, items[..|items| - 1]) + answer(items[|items| - 1])
  }

  lemma AnswersSnoc<T>(answer: T -> Bytes, items: seq<T>, item: T)
    ensures Answers(answer, items + [item]) == Answers(answer, items) + answer(item)
  {
    assert (items + [item])[..|items|] == items;
  }

  lemma {:induction false} AnswersFromFront<T>(answer: T -> Bytes, items: seq<T>)
    requires items != []
    ensures Answers(answer, items) == answer(items[0]) + Answers(answer, items[1..])
  {
    if |items| == 1 {
      assert answer(items[0]) + [] == [] + answer(items[0]);
    } else {
      var front, last := items[..|items| - 1], items[|items| - 1];
      AnswersFromFront(answer, front);
      assert items[1..] == front[1..] + [last];
      AnswersSnoc(answer, front[1..], last);
      Assoc(answer(items[0]), Answers(answer, front[1..]), answer(last));
    }
  }

  lemma LogSnoc<T>(log: seq<Handled<T>>, h: Handled<T>, c: ConnId)
    ensures ItemsOf(log + [h], c) == ItemsOf(log, c) + if h.conn == c then [h.item] else []
    ensures SentOn(log + [h], c) == SentOn(log, c) + if h.conn == c then h.sent else []
  {
    assert (log + [h])[..|log|] == log;
  }

  lemma HandledSnoc<T>(log: seq<Handled<T>>, conn: ConnId, answer: T -> Bytes, items: seq<T>, item: T)
    ensures log + HandledAll(conn, answer, items + [item])
         == log + HandledAll(conn, answer, items) + [Handled(conn, item, answer(item))]
  {
  }

  /** Items handled for `conn` show on `conn` and on no other connection. */
  lemma {:induction false} HandledShows<T>(log: seq<Handled<T>>, conn: ConnId, answer: T -> Bytes, items: seq<T>, c: ConnId)
    ensures var log' := log + HandledAll(conn, answer, items);
      && ItemsOf(log', c) == ItemsOf(log, c) + (if c == conn then items else [])
      && (c != conn ==> SentOn(log', c) == SentOn(log, c))
  {
    if items == [] {
      assert log + HandledAll(conn, answer, items) == log;
    } else {
      var front, last := items[..|items| - 1], items[|items| - 1];
      var before := log + HandledAll(conn, answer, front);
      HandledShows(log, conn, answer, front, c);
      assert items == front + [last];
      HandledSnoc(log, conn, answer, front, last);
      LogSnoc(before, Handled(conn, last, answer(last)), c);
      if c == conn { Assoc(ItemsOf(log, c), front, [last]); }
    }
  }

  /** Every item was answered by `answer`. */
  ghost predicate Answered<T>(log: seq<Handled<T>>, answer: T -> Bytes) {
    forall h :: h in log ==> h.sent == answer(h.item)
  }

  /** Each connection's bytes are the answers to its items, in order. */
  lemma {:induction false} SentAreAnswers<T>(log: seq<Handled<T>>, answer: T -> Bytes, c: ConnId)
    requires Answered(log, answer)
    ensures SentOn(log, c) == Answers(answer, ItemsOf(log, c))
  {
    if log != [] {
      var front, last := log[..|log| - 1], log[|log| - 1];
      SentAreAnswers(front, answer, c);
      assert last in log;
      if last.conn == c {
        AnswersSnoc(answer, ItemsOf(front, c), last.item);
        assert last.sent == answer(last.item);
      } else {
        assert ItemsOf(log, c) == ItemsOf(front, c) && SentOn(log, c) == SentOn(front, c);
      }
    }
  }
}
