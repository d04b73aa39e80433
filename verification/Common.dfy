/** Shared vocabulary: bytes, optional values and the concatenation of byte strings. */
module Common {

  newtype byte = x: int | 0 <= x < 256

  type Bytes = seq<byte>

  datatype Option<+T> = None | Some(value: T)

  function Min(a: nat, b: nat): nat { if a <= b then a else b }

  function Max(a: int, b: int): int { if a <= b then b else a }

  /** The pieces one after the other. */
  function Concat<T>(pieces: seq<seq<T>>): seq<T> {
    if pieces == [] then [] else Concat(pieces[..|pieces| - 1]) + pieces[|pieces| - 1]
  }

  lemma ConcatSnoc<T>(pieces: seq<seq<T>>, last: seq<T>)
    ensures Concat(pieces + [last]) == Concat(pieces) + last
  {
    assert (pieces + [last])[..|pieces|] == pieces;
  }

  lemma {:induction false} ConcatAppend<T>(a: seq<seq<T>>, b: seq<seq<T>>)
    ensures Concat(a + b) == Concat(a) + Concat(b)
  {
    if b == [] {
      assert a + b == a;
    } else {
      var front, last := b[..|b| - 1], b[|b| - 1];
      ConcatAppend(a, front);
      assert a + b == (a + front) + [last];
      ConcatSnoc(a + front, last);
    }
  }

  type ConnId = nat

  /** The items of one connection, among those of all connections. */
  function Only<T>(events: seq<(ConnId, T)>, conn: ConnId): seq<T> {
    if events == [] then [] else
      var last := events[|events| - 1];
      Only(events[..|events| - 1], conn) + if last.0 == conn then [last.1] else []
  }

  lemma OnlySnoc<T>(events: seq<(ConnId, T)>, e: (ConnId, T), conn: ConnId)
    ensures Only(events + [e], conn) == if e.0 == conn then Only(events, conn) + [e.1] else Only(events, conn)
  {
    assert (events + [e])[..|events|] == events;
  }

  lemma Assoc<T>(a: seq<T>, b: seq<T>, c: seq<T>)
    ensures (a + b) + c == a + (b + c)
  {
  }

  lemma EmptyFront<T>(a: seq<T>)
    ensures [] + a == a
  {
  }

  lemma TakeFront<T>(a: seq<T>, b: seq<T>)
    ensures (a + b)[..|a|] == a && (a + b)[..|a + b|] == a + b
  {
  }

  lemma DropInside<T>(a: seq<T>, b: seq<T>, k: nat)
    requires k <= |a|
    ensures (a + b)[k..] == a[k..] + b
  {
  }

  /** When elements move from the front of `b` to the back of `a`, the move is a prefix of `b`. */
  lemma MoveSplits(a: Bytes, b: Bytes, a': Bytes, b': Bytes)
    requires a + b == a' + b' && |a| <= |a'|
    ensures |a'| - |a| <= |b| && a' == a + b[..|a'| - |a|] && b' == b[|a'| - |a|..]
  {
    var k := |a'| - |a|;
    assert |a + b| == |a' + b'|;
    assert a' == (a' + b')[..|a'|] == (a + b)[..|a'|] == a + b[..k];
    assert b' == (a' + b')[|a'|..] == (a + b)[|a'|..] == b[k..];
  }
}
