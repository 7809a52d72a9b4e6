/**
 A worker's output: bytes arrive in reads of any size and leave as lines.
 */
module LineReader {
  import opened Lists
  import opened Octets

  const NEWLINE: byte := 10

  /** A stream cut at its newlines: the terminated pieces and the unterminated rest. */
  datatype Cut = Cut(pieces: seq<Bytes>, rest: Bytes)

  function CutAt(s: Bytes): Cut {
    if s == [] then Cut([], [])
    else
      var c := CutAt(s[..|s| - 1]);
      var b := s[|s| - 1];
      if b == NEWLINE then Cut(c.pieces + [c.rest], []) else Cut(c.pieces, c.rest + [b])
  }

  function NonEmpty(pieces: seq<Bytes>): seq<Bytes> {
    if pieces == [] then []
    else NonEmpty(pieces[..|pieces| - 1]) + if pieces[|pieces| - 1] == [] then [] else [pieces[|pieces| - 1]]
  }

  /** The lines of a stream: its non-empty pieces in order, the unterminated one included. */
  function Lines(s: Bytes): seq<Bytes> {
    NonEmpty(CutAt(s).pieces + [CutAt(s).rest])
  }

  function Rejoin(pieces: seq<Bytes>): Bytes {
    if pieces == [] then [] else Rejoin(pieces[..|pieces| - 1]) + pieces[|pieces| - 1] + [NEWLINE]
  }

  /** Ending every piece with a newline and appending the rest gives the stream; no piece contains a newline. */
  lemma {:induction false} CutLosesNothing(s: Bytes)
    ensures Rejoin(CutAt(s).pieces) + CutAt(s).rest == s
    ensures forall p :: p in CutAt(s).pieces ==> NEWLINE !in p
    ensures NEWLINE !in CutAt(s).rest
  {
    if s != [] {
      var c, b := CutAt(s[..|s| - 1]), s[|s| - 1];
      CutLosesNothing(s[..|s| - 1]);
      assert s == s[..|s| - 1] + [b];
      if b == NEWLINE {
        assert (c.pieces + [c.rest])[..|c.pieces|] == c.pieces;
      }
    }
  }

  lemma NonEmptySnoc(pieces: seq<Bytes>, piece: Bytes)
    ensures NonEmpty(pieces + [piece]) == NonEmpty(pieces) + if piece == [] then [] else [piece]
  {
    assert (pieces + [piece])[..|pieces|] == pieces;
  }

  lemma {:induction false} NonEmptyAppend(a: seq<Bytes>, b: seq<Bytes>)
    ensures NonEmpty(a + b) == NonEmpty(a) + NonEmpty(b)
    decreases |b|
  {
    if b == [] {
      assert a + b == a;
    } else {
      var front, last := b[..|b| - 1], b[|b| - 1];
      assert b == front + [last];
      Associative(a, front, [last]);
      NonEmptySnoc(a + front, last);
      NonEmptySnoc(front, last);
      NonEmptyAppend(a, front);
    }
  }

  lemma CutSnoc(s: Bytes, b: byte)
    ensures CutAt(s + [b])
         == if b == NEWLINE then Cut(CutAt(s).pieces + [CutAt(s).rest], []) else Cut(CutAt(s).pieces, CutAt(s).rest + [b])
  {
    assert (s + [b])[..|s|] == s;
  }

  lemma {:induction false} CutLine(s: Bytes)
    requires NEWLINE !in s
    ensures CutAt(s) == Cut([], s)
  {
    if s != [] {
      assert s[|s| - 1] in s && s == s[..|s| - 1] + [s[|s| - 1]];
      CutLine(s[..|s| - 1]);
    }
  }

  /** More bytes continue from the unterminated rest. */
  lemma {:induction false} CutContinues(a: Bytes, b: Bytes)
    ensures var c, d := CutAt(a), CutAt(CutAt(a).rest + b);
            CutAt(a + b) == Cut(c.pieces + d.pieces, d.rest)
    decreases |b|
  {
    var c := CutAt(a);
    if b == [] {
      assert a + b == a && c.rest + b == c.rest;
      CutLosesNothing(a);
      CutLine(c.rest);
      assert c.pieces + [] == c.pieces;
    } else {
      var front, x := b[..|b| - 1], b[|b| - 1];
      assert b == front + [x];
      Associative(a, front, [x]);
      Associative(c.rest, front, [x]);
      CutContinues(a, front);
      CutSnoc(a + front, x);
      CutSnoc(c.rest + front, x);
      var d := CutAt(c.rest + front);
      Associative(c.pieces, d.pieces, [d.rest]);
    }
  }

  /** processChunk: emits the terminated lines and hands back what is left over. */
  method ProcessChunk(data: Bytes) returns (lines: seq<Bytes>, rest: Bytes)
    ensures lines == NonEmpty(CutAt(data).pieces) && rest == CutAt(data).rest
  {
    lines := [];
    var start := 0;
    for i := 0 to |data|
      invariant start <= i
      invariant lines == NonEmpty(CutAt(data[..i]).pieces)
      invariant data[start..i] == CutAt(data[..i]).rest
    {
      assert data[..i + 1] == data[..i] + [data[i]];
      CutSnoc(data[..i], data[i]);
      if data[i] == NEWLINE {
        var line := data[start..i];
        NonEmptySnoc(CutAt(data[..i]).pieces, line);
        if line != [] {
          lines := lines + [line];
        }
        start := i + 1;
      } else {
        assert data[start..i + 1] == data[start..i] + [data[i]];
      }
    }
    assert data[..|data|] == data && data[start..|data|] == data[start..];
    rest := data[start..];
  }

  /** One read: its bytes, and whether it ended the stream. */
  datatype Chunk = Chunk(data: Bytes, failed: bool)

  /** The bytes of the reads up to and including the first that failed. */
  function Consumed(input: seq<Chunk>): Bytes {
    if input == [] then []
    else if input[0].failed then input[0].data
    else input[0].data + Consumed(input[1..])
  }

  /**
   pipeLog: whatever the sizes of the reads, the lines written are those of
   the whole stream. It ends with the first failed read or, after the reads
   given, with the cancellation of its context; both flush what is left.
   */
  method PipeLog(input: seq<Chunk>) returns (written: seq<Bytes>)
    ensures written == Lines(Consumed(input))
  {
    written := [];
    var partial: Bytes := [];
    ghost var arrived: Bytes := [];
    assert input[0..] == input && [] + Consumed(input) == Consumed(input);
    var i := 0;
    var failed := false;
    while i < |input| && !failed
      invariant i <= |input|
      invariant Consumed(input) == arrived + if failed then [] else Consumed(input[i..])
      invariant written == NonEmpty(CutAt(arrived).pieces) && partial == CutAt(arrived).rest
      decreases |input| - i, !failed
    {
      var r := input[i];
      ChunkStep(arrived, r.data);
      ConsumedStep(input, i, arrived);
      if |r.data| > 0 {
        var lines, rest := ProcessChunk(partial + r.data);
        written := written + lines;
        partial := rest;
      }
      arrived := arrived + r.data;
      failed := r.failed;
      i := i + 1;
    }
    assert Consumed(input) == arrived;
    NonEmptySnoc(CutAt(arrived).pieces, CutAt(arrived).rest);
    if |partial| > 0 {
      written := written + [partial];
    }
  }

  lemma ConsumedStep(input: seq<Chunk>, i: nat, arrived: Bytes)
    requires i < |input|
    ensures arrived + Consumed(input[i..])
         == (arrived + input[i].data) + if input[i].failed then [] else Consumed(input[i + 1..])
  {
    assert input[i..][1..] == input[i + 1..];
    if !input[i].failed {
      Associative(arrived, input[i].data, Consumed(input[i + 1..]));
    }
  }

  lemma ChunkStep(before: Bytes, data: Bytes)
    ensures var c, d := CutAt(before), CutAt(CutAt(before).rest + data);
            && NonEmpty(CutAt(before + data).pieces) == NonEmpty(c.pieces) + NonEmpty(d.pieces)
            && CutAt(before + data).rest == d.rest
            && (data == [] ==> NonEmpty(d.pieces) == [] && d.rest == c.rest)
  {
    var c := CutAt(before);
    CutContinues(before, data);
    NonEmptyAppend(c.pieces, CutAt(c.rest + data).pieces);
    if data == [] {
      assert c.rest + data == c.rest;
      CutLosesNothing(before);
      CutLine(c.rest);
    }
  }

  // ---- Line by line ----

  /** The lines of a stream, taken off its front: each ends at a byte 10, and empty ones are dropped. */
  lemma LineByLine(line: Bytes, rest: Bytes)
    requires 10 !in line
    ensures Lines([]) == []
    ensures Lines(line) == if line == [] then [] else [line]
    ensures Lines(line + [10] + rest) == (if line == [] then [] else [line]) + Lines(rest)
  {
    var first := line + [10];
    CutLine(line);
    CutSnoc(line, 10);
    assert CutAt(first) == Cut([] + [line], []);
    CutContinues(first, rest);
    assert [] + rest == rest;
    var c := CutAt(rest);
    hide CutAt;
    assert [line] + c.pieces + [c.rest] == [line] + (c.pieces + [c.rest]);
    NonEmptyAppend([line], c.pieces + [c.rest]);
    NonEmptySnoc([], line);
    NonEmptySnoc([], []);
    var none: seq<Bytes> := [];
    assert none + [line] == [line] && none + [[]] == [[]];
  }

  /** The reads up to the first that fails, whose bytes still count. */
  lemma ConsumedInFull(first: Chunk, rest: seq<Chunk>)
    ensures Consumed([first] + rest) == if first.failed then first.data else first.data + Consumed(rest)
  {
    assert ([first] + rest)[1..] == rest;
  }
}
