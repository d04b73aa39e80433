/** Newline framing: what a byte stream means as lines, independently of how it arrives. */
module LineFraming {
  import opened Common

  const NEWLINE: byte := 10

  /** The newline-terminated segments of a stream, and the unterminated rest. */
  datatype Cut = Cut(segments: seq<Bytes>, residue: Bytes)

  function CutOf(stream: Bytes): Cut {
    if stream == [] then Cut([], []) else
      var c, last := CutOf(stream[..|stream| - 1]), stream[|stream| - 1];
      if last == NEWLINE then Cut(c.segments + [c.residue], []) else Cut(c.segments, c.residue + [last])
  }

  function Joined(segments: seq<Bytes>): Bytes {
    if segments == [] then [] else Joined(segments[..|segments| - 1]) + segments[|segments| - 1] + [NEWLINE]
  }

  predicate Unbroken(segments: seq<Bytes>) {
    forall i :: 0 <= i < |segments| ==> NEWLINE !in segments[i]
  }

  lemma JoinedSnoc(segments: seq<Bytes>, last: Bytes)
    ensures Joined(segments + [last]) == Joined(segments) + last + [NEWLINE]
  {
    assert (segments + [last])[..|segments|] == segments;
  }

  /** A cut loses nothing, and no newline is left inside a segment or in the residue. */
  lemma {:induction false} CutIsExact(stream: Bytes)
    ensures var c := CutOf(stream); stream == Joined(c.segments) + c.residue && Unbroken(c.segments) && NEWLINE !in c.residue
    ensures NEWLINE as char == '\n'
  {
    if stream != [] {
      var front, last := stream[..|stream| - 1], stream[|stream| - 1];
      CutIsExact(front);
      var c := CutOf(front);
      assert stream == front + [last];
      if last == NEWLINE {
        JoinedSnoc(c.segments, c.residue);
        assert stream == Joined(c.segments + [c.residue]) + [];
      } else {
        Assoc(Joined(c.segments), c.residue, [last]);
      }
    }
  }

  lemma {:induction false} CutUnbroken(stream: Bytes, rest: Bytes)
    requires NEWLINE !in rest
    ensures CutOf(stream + rest) == Cut(CutOf(stream).segments, CutOf(stream).residue + rest)
  {
    if rest == [] {
      assert stream + rest == stream;
    } else {
      var front, last := rest[..|rest| - 1], rest[|rest| - 1];
      assert (stream + rest)[..|stream + rest| - 1] == stream + front;
      CutUnbroken(stream, front);
      assert CutOf(stream).residue + rest == (CutOf(stream).residue + front) + [last];
    }
  }

  lemma CutLine(stream: Bytes, line: Bytes)
    requires NEWLINE !in line
    ensures CutOf(stream + line + [NEWLINE]) == Cut(CutOf(stream).segments + [CutOf(stream).residue + line], [])
  {
    CutUnbroken(stream, line);
    assert (stream + line + [NEWLINE])[..|stream + line|] == stream + line;
  }

  lemma {:induction false} CutJoined(segments: seq<Bytes>)
    requires Unbroken(segments)
    ensures CutOf(Joined(segments)) == Cut(segments, [])
  {
    if segments != [] {
      var front, last := segments[..|segments| - 1], segments[|segments| - 1];
      CutJoined(front);
      CutLine(Joined(front), last);
      assert [] + last == last && front + [last] == segments;
    }
  }

  /** There is no other way to cut the stream. */
  lemma CutIsUnique(segments: seq<Bytes>, residue: Bytes)
    requires Unbroken(segments) && NEWLINE !in residue
    ensures CutOf(Joined(segments) + residue) == Cut(segments, residue)
  {
    CutJoined(segments);
    CutUnbroken(Joined(segments), residue);
    assert [] + residue == residue;
  }

  /** Cutting on from the kept residue is the same as cutting everything at once. */
  lemma {:induction false} CutSplit(a: Bytes, b: Bytes)
    ensures var c, d := CutOf(a), CutOf(CutOf(a).residue + b); CutOf(a + b) == Cut(c.segments + d.segments, d.residue)
  {
    var c := CutOf(a);
    if b == [] {
      assert a + b == a && c.residue + b == c.residue;
      CutIsExact(a);
      CutUnbroken([], c.residue);
      assert [] + c.residue == c.residue;
    } else {
      var front, last := b[..|b| - 1], b[|b| - 1];
      CutSplit(a, front);
      assert (a + b)[..|a + b| - 1] == a + front;
      assert (c.residue + b)[..|c.residue + b| - 1] == c.residue + front;
      var d := CutOf(c.residue + front);
      Assoc(c.segments, d.segments, [d.residue]);
    }
  }

  /** The segments worth dispatching. */
  function Lines(segments: seq<Bytes>): seq<Bytes> {
    if segments == [] then [] else
      var last := segments[|segments| - 1];
      Lines(segments[..|segments| - 1]) + if last == [] then [] else [last]
  }

  lemma LinesSnoc(segments: seq<Bytes>, last: Bytes)
    ensures Lines(segments + [last]) == Lines(segments) + if last == [] then [] else [last]
  {
    assert (segments + [last])[..|segments|] == segments;
  }

  lemma {:induction false} LinesAppend(a: seq<Bytes>, b: seq<Bytes>)
    ensures Lines(a + b) == Lines(a) + Lines(b)
  {
    if b == [] {
      assert a + b == a;
    } else {
      var front, last := b[..|b| - 1], b[|b| - 1];
      LinesAppend(a, front);
      assert a + b == (a + front) + [last] && b == front + [last];
      LinesSnoc(a + front, last);
      LinesSnoc(front, last);
    }
  }

  /** Empty segments are left out and nothing else is. */
  lemma {:induction false} LinesMeaning(segments: seq<Bytes>)
    ensures (forall i :: 0 <= i < |segments| ==> segments[i] != []) ==> Lines(segments) == segments
    ensures forall line :: line in Lines(segments) ==> line != [] && line in segments
  {
    if segments != [] {
      var front, last := segments[..|segments| - 1], segments[|segments| - 1];
      LinesMeaning(front);
      assert segments == front + [last];
    }
  }

  lemma EmptySegmentsVanish(a: seq<Bytes>, b: seq<Bytes>)
    ensures Lines(a + [[]] + b) == Lines(a + b)
  {
    LinesAppend(a + [[]], b);
    LinesAppend(a, b);
    LinesSnoc(a, []);
    assert Lines(a) + [] == Lines(a);
  }

  /** What one connection has seen: the lines dispatched and the bytes kept. */
  datatype LineSession = LineSession(lines: seq<Bytes>, residue: Bytes)

  function FeedLine(s: LineSession, chunk: Bytes): LineSession {
    var c := CutOf(s.residue + chunk);
    LineSession(s.lines + Lines(c.segments), c.residue)
  }

  function FeedLines(chunks: seq<Bytes>): LineSession {
    if chunks == [] then LineSession([], []) else FeedLine(FeedLines(chunks[..|chunks| - 1]), chunks[|chunks| - 1])
  }

  lemma {:induction false} LineChunkingIndependence(chunks: seq<Bytes>)
    ensures var c := CutOf(Concat(chunks)); FeedLines(chunks) == LineSession(Lines(c.segments), c.residue)
  {
    if chunks != [] {
      var front, last := chunks[..|chunks| - 1], chunks[|chunks| - 1];
      LineChunkingIndependence(front);
      CutSplit(Concat(front), last);
      LinesAppend(CutOf(Concat(front)).segments, CutOf(CutOf(Concat(front)).residue + last).segments);
    }
  }

  /**
   * For any chunking: whenever the stream is written as newline-free segments, each ended by a
   * newline, and a newline-free rest, the nonempty segments are the lines and the rest is kept.
   */
  lemma AnyChunkingOfSegments(chunks: seq<Bytes>, segments: seq<Bytes>, rest: Bytes)
    requires Unbroken(segments) && NEWLINE !in rest && Concat(chunks) == Joined(segments) + rest
    ensures FeedLines(chunks) == LineSession(Lines(segments), rest)
  {
    LineChunkingIndependence(chunks);
    CutIsUnique(segments, rest);
  }
}
