/**
 Large payloads travel as a start message, chunks, and an end message.
 The assembler keeps every open stream, and a chunk, which carries no stream
 id, is added to each of them. Headers are records: their JSON is not modelled.
 */
module Streams {
  import opened Wrappers
  import opened Framing
  import opened Lists
  import opened Octets

  datatype StreamMessage =
    | Start(id: string, totalSize: int)
    | MalformedStart
    | Chunk(data: Bytes)
    | End(id: string)
    | MalformedEnd
    | Other

  datatype FeedError = ParseStart | EmptyStreamId | ParseEnd | UnknownStream(id: string)
  datatype FeedResult = Nothing | Assembled(payload: Bytes) | Failed(error: FeedError) | Panicked

  const DEFAULT_CHUNK_SIZE := 0x10_0000

  // ---- Splitting ----

  function ChunkSize(configured: int): (size: nat)
    ensures size > 0
  {
    if configured <= 0 then DEFAULT_CHUNK_SIZE else configured
  }

  /** The pieces of a payload: full ones, and a last one with what is left. */
  function Pieces(payload: Bytes, size: nat): seq<Bytes>
    requires size > 0
    decreases |payload|
  {
    if payload == [] then []
    else if |payload| <= size then [payload]
    else [payload[..size]] + Pieces(payload[size..], size)
  }

  function ChunksOf(pieces: seq<Bytes>): seq<StreamMessage> {
    seq(|pieces|, i requires 0 <= i < |pieces| => Chunk(pieces[i]))
  }

  method Split(id: string, payload: Bytes, configured: int) returns (msgs: seq<StreamMessage>)
    ensures msgs == [Start(id, |payload|)] + ChunksOf(Pieces(payload, ChunkSize(configured))) + [End(id)]
  {
    var size := ChunkSize(configured);
    var start := [Start(id, |payload|)];
    msgs := start;
    var offset := 0;
    ghost var done: seq<Bytes> := [];
    assert payload[0..] == payload;
    assert [] + Pieces(payload, size) == Pieces(payload, size);
    assert start + ChunksOf([]) == start;
    hide Pieces;
    hide ChunksOf;
    while offset < |payload|
      invariant 0 <= offset
      invariant offset < |payload| ==> done + Pieces(payload[offset..], size) == Pieces(payload, size)
      invariant offset >= |payload| ==> done == Pieces(payload, size)
      invariant msgs == start + ChunksOf(done)
      decreases |payload| - offset
    {
      var end := offset + size;
      if end > |payload| {
        end := |payload|;
      }
      var piece := payload[offset..end];
      PieceAt(payload, offset, size, done);
      ChunksOfSnoc(start, done, piece);
      msgs := msgs + [Chunk(piece)];
      done := done + [piece];
      offset := offset + size;
    }
    msgs := msgs + [End(id)];
  }

  /** The piece at an offset, and what comes after it. */
  lemma PieceAt(payload: Bytes, offset: nat, size: nat, done: seq<Bytes>)
    requires size > 0 && offset < |payload|
    ensures offset + size < |payload| ==>
              done + Pieces(payload[offset..], size)
              == (done + [payload[offset..offset + size]]) + Pieces(payload[offset + size..], size)
    ensures offset + size >= |payload| ==>
              done + Pieces(payload[offset..], size) == done + [payload[offset..|payload|]]
  {
    var rest := payload[offset..];
    PiecesStep(rest, size, done);
    if offset + size < |payload| {
      assert rest[size..] == payload[offset + size..] && rest[..size] == payload[offset..offset + size];
    } else {
      assert rest[..|rest|] == payload[offset..|payload|];
    }
    hide Pieces;
  }

  /** The next piece of what is left of a payload. */
  lemma PiecesStep(rest: Bytes, size: nat, done: seq<Bytes>)
    requires size > 0 && rest != []
    ensures |rest| > size ==> done + Pieces(rest, size) == (done + [rest[..size]]) + Pieces(rest[size..], size)
    ensures |rest| <= size ==> done + Pieces(rest, size) == done + [rest[..|rest|]]
  {
    assert rest[..|rest|] == rest;
  }

  /** One more full piece. */
  lemma CountStep(payload: Bytes, size: nat, pieces: nat)
    requires size > 0 && |payload| > size
    requires |payload| - size <= pieces * size < |payload|
    ensures |payload| <= (pieces + 1) * size < |payload| + size
  {
    assert (pieces + 1) * size == pieces * size + size;
  }

  /** The pieces make up the payload; none is empty, all but the last are full, and there are as few as possible. */
  lemma {:induction false} PiecesPartitionPayload(payload: Bytes, size: nat)
    requires size > 0
    ensures Concat(Pieces(payload, size)) == payload
    ensures |payload| <= |Pieces(payload, size)| * size < |payload| + size
    ensures forall i :: 0 <= i < |Pieces(payload, size)| ==> 0 < |Pieces(payload, size)[i]| <= size
    ensures forall i :: 0 <= i < |Pieces(payload, size)| - 1 ==> |Pieces(payload, size)[i]| == size
    decreases |payload|
  {
    if payload != [] {
      if |payload| <= size {
        assert Concat([payload]) == payload + Concat([]);
      } else {
        var rest, first := payload[size..], payload[..size];
        PiecesPartitionPayload(rest, size);
        CountStep(payload, size, |Pieces(rest, size)|);
        assert Pieces(payload, size) == [first] + Pieces(rest, size);
        hide Pieces;
        var pieces := [first] + Pieces(rest, size);
        assert pieces[0] == first && pieces[1..] == Pieces(rest, size);
        assert payload == first + rest;
      }
    }
  }

  // ---- Assembling ----

  datatype Stream = Stream(totalSize: int, received: nat, chunks: seq<Bytes>)
  type Open = map<string, Stream>

  function WithChunk(s: Stream, data: Bytes): Stream {
    Stream(s.totalSize, s.received + |data|, s.chunks + [data])
  }

  function AfterFeed(open: Open, m: StreamMessage): Open {
    match m
    case Start(id, totalSize) => if id == "" then open else open[id := Stream(totalSize, 0, [])]
    case Chunk(data) => map id | id in open :: WithChunk(open[id], data)
    case End(id) => open - {id}
    case _ => open
  }

  /** A buffer of the announced size can be made: it is not negative, and not beyond what can be allocated. */
  predicate CanMake(size: int, limit: nat) {
    0 <= size <= limit
  }

  /** The end of a stream panics, after the stream is forgotten, when no buffer of its announced size can be made. */
  function Ended(s: Stream, limit: nat): FeedResult {
    if CanMake(s.totalSize, limit) then Assembled(Concat(s.chunks)) else Panicked
  }

  function FeedOutcome(open: Open, m: StreamMessage, limit: nat): FeedResult {
    match m
    case MalformedStart => Failed(ParseStart)
    case Start(id, _) => if id == "" then Failed(EmptyStreamId) else Nothing
    case MalformedEnd => Failed(ParseEnd)
    case End(id) => if id in open then Ended(open[id], limit) else Failed(UnknownStream(id))
    case _ => Nothing
  }

  function AfterHistory(h: seq<StreamMessage>): Open {
    if h == [] then map[] else AfterFeed(AfterHistory(h[..|h| - 1]), h[|h| - 1])
  }

  // ---- One message in full ----

  lemma ChunkSizeInFull(configured: int)
    ensures ChunkSize(configured) == if configured <= 0 then 1048576 else configured
  {
  }

  /** What the messages other than ends are answered, and what they do. */
  lemma FeedInFull(open: Open, m: StreamMessage, limit: nat, id: string, size: int, data: Bytes)
    ensures FeedOutcome(open, MalformedStart, limit) == Failed(ParseStart) && AfterFeed(open, MalformedStart) == open
    ensures FeedOutcome(open, MalformedEnd, limit) == Failed(ParseEnd) && AfterFeed(open, MalformedEnd) == open
    ensures FeedOutcome(open, Start("", size), limit) == Failed(EmptyStreamId) && AfterFeed(open, Start("", size)) == open
    ensures id != "" ==> FeedOutcome(open, Start(id, size), limit) == Nothing
                         && AfterFeed(open, Start(id, size)) == open[id := Stream(size, 0, [])]
    ensures FeedOutcome(open, Chunk(data), limit) == Nothing && AfterFeed(open, Chunk(data)).Keys == open.Keys
    ensures FeedOutcome(open, Other, limit) == Nothing && AfterFeed(open, Other) == open
  {
  }

  // ---- What an end message returns, said of the history alone ----

  /** The position of the start that opened the stream, if it is still open after h. */
  function OpenedAt(h: seq<StreamMessage>, id: string): (at: Option<nat>)
    ensures at.Some? ==> at.value < |h| && h[at.value].Start? && h[at.value].id == id
  {
    if h == [] then None
    else
      var last := |h| - 1;
      if id != "" && h[last].Start? && h[last].id == id then Some(last)
      else if h[last] == End(id) then None
      else OpenedAt(h[..last], id)
  }

  function ChunkData(h: seq<StreamMessage>): seq<Bytes> {
    if h == [] then []
    else ChunkData(h[..|h| - 1]) + if h[|h| - 1].Chunk? then [h[|h| - 1].data] else []
  }

  lemma {:induction false} ConcatAppend(a: seq<Bytes>, b: seq<Bytes>)
    ensures Concat(a + b) == Concat(a) + Concat(b)
  {
    if a == [] {
      assert a + b == b;
    } else {
      assert (a + b)[1..] == a[1..] + b;
      ConcatAppend(a[1..], b);
    }
  }

  /** The chunks fed since the start that opened the stream. */
  function ChunksSince(h: seq<StreamMessage>, id: string): seq<Bytes>
    requires OpenedAt(h, id).Some?
  {
    ChunkData(h[OpenedAt(h, id).value + 1..])
  }

  /** The size that the start announced. */
  function SizeOf(h: seq<StreamMessage>, id: string): int
    requires OpenedAt(h, id).Some?
  {
    h[OpenedAt(h, id).value].totalSize
  }

  /** m opens stream id (again). */
  predicate Opens(m: StreamMessage, id: string) {
    id != "" && m.Start? && m.id == id
  }

  function DataOf(m: StreamMessage): seq<Bytes> {
    if m.Chunk? then [m.data] else []
  }

  lemma OpenedStep(h: seq<StreamMessage>, m: StreamMessage, id: string)
    ensures OpenedAt(h + [m], id) == if Opens(m, id) then Some(|h|) else if m == End(id) then None else OpenedAt(h, id)
  {
    assert (h + [m])[..|h|] == h;
  }

  lemma ChunkDataStep(h: seq<StreamMessage>, m: StreamMessage)
    ensures ChunkData(h + [m]) == ChunkData(h) + DataOf(m)
  {
    assert (h + [m])[..|h|] == h;
  }

  /** What one more message changes for a stream that is open after it. */
  lemma SinceStep(h: seq<StreamMessage>, m: StreamMessage, id: string)
    requires OpenedAt(h + [m], id).Some?
    ensures Opens(m, id) || OpenedAt(h, id).Some?
    ensures ChunksSince(h + [m], id) == if Opens(m, id) then [] else ChunksSince(h, id) + DataOf(m)
    ensures SizeOf(h + [m], id) == if Opens(m, id) then m.totalSize else SizeOf(h, id)
  {
    OpenedStep(h, m, id);
    hide OpenedAt;
    if Opens(m, id) {
      TailOfAppend(h, m, |h|);
      assert (h + [m])[|h|] == m;
    } else {
      SinceOpened(h, m, OpenedAt(h, id).value);
    }
  }

  lemma SinceOpened(h: seq<StreamMessage>, m: StreamMessage, i: nat)
    requires i < |h|
    ensures ChunkData((h + [m])[i + 1..]) == ChunkData(h[i + 1..]) + DataOf(m) && (h + [m])[i] == h[i]
  {
    TailOfAppend(h, m, i + 1);
    ChunkDataStep(h[i + 1..], m);
    hide ChunkData;
  }

  lemma TailOfAppend<T>(h: seq<T>, m: T, n: nat)
    requires n <= |h|
    ensures (h + [m])[n..] == h[n..] + [m]
    ensures (h + [m])[|h| + 1..] == []
  {
  }

  /** The table and the history agree on one stream. */
  ghost predicate Agrees(open: Open, h: seq<StreamMessage>, id: string) {
    && (id in open <==> OpenedAt(h, id).Some?)
    && (id in open ==> open[id].chunks == ChunksSince(h, id) && open[id].received == |Concat(open[id].chunks)|)
    && (id in open ==> open[id].totalSize == SizeOf(h, id))
  }

  lemma ConcatSingle(data: Bytes)
    ensures Concat([data]) == data
  {
    assert data + Concat([]) == data;
  }

  /** What feeding a message does to one stream's entry. */
  lemma FedEntry(open: Open, m: StreamMessage, id: string)
    requires id == "" ==> id !in open
    ensures var n := AfterFeed(open, m);
            && (id in n <==> Opens(m, id) || (id in open && m != End(id)))
            && (Opens(m, id) ==> n[id] == Stream(m.totalSize, 0, []))
            && (id in n && !Opens(m, id) ==>
                  n[id] == if m.Chunk? then WithChunk(open[id], m.data) else open[id])
  {
  }

  lemma FeedAgrees(open: Open, h: seq<StreamMessage>, m: StreamMessage, id: string)
    requires Agrees(open, h, id) && (id == "" ==> id !in open)
    ensures Agrees(AfterFeed(open, m), h + [m], id) && (id == "" ==> id !in AfterFeed(open, m))
  {
    OpenedStep(h, m, id);
    FedEntry(open, m, id);
    if OpenedAt(h + [m], id).Some? {
      SinceStep(h, m, id);
    }
    hide OpenedAt;
    hide ChunksSince;
    hide SizeOf;
    hide AfterFeed;
    if id in AfterFeed(open, m) && !Opens(m, id) {
      var s := open[id];
      if m.Chunk? {
        ConcatAppend(s.chunks, [m.data]);
        ConcatSingle(m.data);
      } else {
        assert s.chunks + [] == s.chunks;
      }
    }
  }

  /** A stream is open exactly when its latest start has not been ended, and holds every chunk fed since then. */
  lemma {:induction false} StreamHoldsChunksSinceStart(h: seq<StreamMessage>, id: string)
    ensures Agrees(AfterHistory(h), h, id) && (id == "" ==> id !in AfterHistory(h))
  {
    if h != [] {
      StreamHoldsChunksSinceStart(h[..|h| - 1], id);
      FeedAgrees(AfterHistory(h[..|h| - 1]), h[..|h| - 1], h[|h| - 1], id);
      assert h == h[..|h| - 1] + [h[|h| - 1]];
    }
  }

  /**
   End(id) is an error if the stream is not open, and otherwise returns the
   concatenation of all chunks fed since the latest start, unless no buffer of
   the size that this start announced can be made.
   */
  lemma EndReturnsChunksSinceStart(h: seq<StreamMessage>, id: string, limit: nat)
    ensures FeedOutcome(AfterHistory(h), End(id), limit)
         == match OpenedAt(h, id)
            case None => Failed(UnknownStream(id))
            case Some(_) => if CanMake(SizeOf(h, id), limit) then Assembled(Concat(ChunksSince(h, id))) else Panicked
  {
    StreamHoldsChunksSinceStart(h, id);
  }

  /** The end of an open stream returns its chunks if and only if its latest start announced a size that can be made. */
  lemma EndReturnsExactlyWhenSizeCanBeMade(h: seq<StreamMessage>, id: string, limit: nat)
    requires OpenedAt(h, id).Some?
    ensures FeedOutcome(AfterHistory(h), End(id), limit) == Assembled(Concat(ChunksSince(h, id)))
       <==> CanMake(SizeOf(h, id), limit)
    ensures !FeedOutcome(AfterHistory(h), End(id), limit).Panicked? <==> CanMake(SizeOf(h, id), limit)
  {
    EndReturnsChunksSinceStart(h, id, limit);
  }

  /** A start that announces a negative size is accepted, and the end of its stream panics whatever comes between. */
  lemma NegativeSizePanics(h: seq<StreamMessage>, id: string, size: int, pieces: seq<Bytes>, limit: nat)
    requires id != "" && size < 0
    ensures FeedOutcome(AfterHistory(h), Start(id, size), limit) == Nothing
    ensures FeedOutcome(AfterHistory((h + [Start(id, size)]) + ChunksOf(pieces)), End(id), limit) == Panicked
  {
    var started := h + [Start(id, size)];
    OpenedStep(h, Start(id, size), id);
    SinceStep(h, Start(id, size), id);
    ChunksReachOpenStreams(started, pieces, id);
    EndReturnsChunksSinceStart(started + ChunksOf(pieces), id, limit);
    hide *;
    assert !CanMake(size, limit) by { NegativeCannot(size, limit); }
  }

  lemma NegativeCannot(size: int, limit: nat)
    requires size < 0
    ensures !CanMake(size, limit)
  {
  }

  lemma ChunksOfSnoc(h: seq<StreamMessage>, pieces: seq<Bytes>, piece: Bytes)
    ensures h + ChunksOf(pieces + [piece]) == (h + ChunksOf(pieces)) + [Chunk(piece)]
  {
  }

  /** Chunks leave the open streams open and are added to each. */
  lemma {:induction false} ChunksReachOpenStreams(h: seq<StreamMessage>, pieces: seq<Bytes>, id: string)
    ensures OpenedAt(h + ChunksOf(pieces), id) == OpenedAt(h, id)
    ensures OpenedAt(h, id).Some? ==> ChunksSince(h + ChunksOf(pieces), id) == ChunksSince(h, id) + pieces
    ensures OpenedAt(h, id).Some? ==> SizeOf(h + ChunksOf(pieces), id) == SizeOf(h, id)
    decreases |pieces|
  {
    if pieces == [] {
      assert h + ChunksOf(pieces) == h;
      hide *;
      if OpenedAt(h, id).Some? {
        assert ChunksSince(h, id) + [] == ChunksSince(h, id);
      }
    } else {
      var front, piece := pieces[..|pieces| - 1], pieces[|pieces| - 1];
      var fed := h + ChunksOf(front);
      assert pieces == front + [piece];
      ChunksOfSnoc(h, front, piece);
      ChunksReachOpenStreams(h, front, id);
      OpenedStep(fed, Chunk(piece), id);
      assert !Opens(Chunk(piece), id) && DataOf(Chunk(piece)) == [piece];
      hide *;
      if OpenedAt(h, id).Some? {
        SinceStep(fed, Chunk(piece), id);
        Associative(ChunksSince(h, id), front, [piece]);
      }
    }
  }

  /** The messages of a split payload before its end. */
  function SplitBody(id: string, payload: Bytes, size: nat): seq<StreamMessage>
    requires size > 0
  {
    [Start(id, |payload|)] + ChunksOf(Pieces(payload, size))
  }

  lemma BodyReachesOpenStreams(h: seq<StreamMessage>, other: string, payload: Bytes, size: nat, id: string)
    requires size > 0
    ensures var fed := h + SplitBody(other, payload, size);
            && (id == other != "" ==>
                  OpenedAt(fed, id).Some? && ChunksSince(fed, id) == Pieces(payload, size) && SizeOf(fed, id) == |payload|)
            && (id != other && OpenedAt(h, id).Some? ==>
                  OpenedAt(fed, id).Some? && ChunksSince(fed, id) == ChunksSince(h, id) + Pieces(payload, size)
                  && SizeOf(fed, id) == SizeOf(h, id))
  {
    var start := Start(other, |payload|);
    var started := h + [start];
    Associative(h, [start], ChunksOf(Pieces(payload, size)));
    OpenedStep(h, start, id);
    assert DataOf(start) == [] && (Opens(start, id) <==> id == other != "");
    assert h + SplitBody(other, payload, size) == started + ChunksOf(Pieces(payload, size));
    hide *;
    ChunksReachOpenStreams(started, Pieces(payload, size), id);
    if OpenedAt(started, id).Some? {
      SinceStep(h, start, id);
      if !Opens(start, id) {
        assert ChunksSince(h, id) + [] == ChunksSince(h, id);
      } else {
        assert [] + Pieces(payload, size) == Pieces(payload, size);
      }
    }
  }

  /**
   Whatever was fed before and whatever else is open, feeding a split payload
   that can be allocated ends with that payload; a stream without an id ends
   with an error.
   */
  lemma SplitThenFeed(h: seq<StreamMessage>, id: string, payload: Bytes, size: nat, limit: nat)
    requires size > 0
    ensures FeedOutcome(AfterHistory(h + SplitBody(id, payload, size)), End(id), limit)
         == if id == "" then Failed(UnknownStream("")) else if |payload| <= limit then Assembled(payload) else Panicked
  {
    var fed := h + SplitBody(id, payload, size);
    EndReturnsChunksSinceStart(fed, id, limit);
    if id != "" {
      BodyReachesOpenStreams(h, id, payload, size, id);
      PiecesPartitionPayload(payload, size);
    } else {
      NamelessNeverOpens(fed);
    }
  }

  lemma {:induction false} NamelessNeverOpens(h: seq<StreamMessage>)
    ensures OpenedAt(h, "") == None
  {
    if h != [] {
      NamelessNeverOpens(h[..|h| - 1]);
    }
  }

  /** A payload split while another stream is open is appended to that stream too; only an empty one leaves it intact. */
  lemma InterleavedPayloadsMix(h: seq<StreamMessage>, id: string, other: string, payload: Bytes, size: nat, limit: nat)
    requires size > 0 && id != other && OpenedAt(h, id).Some?
    ensures var whole := h + SplitBody(other, payload, size) + [End(other)];
            var held := Concat(ChunksSince(h, id));
            var fits := CanMake(SizeOf(h, id), limit);
            && FeedOutcome(AfterHistory(h), End(id), limit) == (if fits then Assembled(held) else Panicked)
            && FeedOutcome(AfterHistory(whole), End(id), limit) == (if fits then Assembled(held + payload) else Panicked)
            && (held + payload == held <==> payload == [])
  {
    var fed := h + SplitBody(other, payload, size);
    var held, pieces := ChunksSince(h, id), Pieces(payload, size);
    BodyReachesOpenStreams(h, other, payload, size, id);
    OpenedStep(fed, End(other), id);
    SinceStep(fed, End(other), id);
    EndReturnsChunksSinceStart(h, id, limit);
    EndReturnsChunksSinceStart(fed + [End(other)], id, limit);
    ConcatAppend(held, pieces);
    PiecesPartitionPayload(payload, size);
    hide OpenedAt;
    hide ChunksSince;
    hide SizeOf;
    hide Pieces;
    hide SplitBody;
    hide AfterHistory;
    hide FeedOutcome;
    assert (held + pieces) + [] == held + pieces;
    assert |Concat(held) + payload| == |Concat(held)| + |payload|;
  }

  // ---- The assembler itself ----

  class StreamState {
    var totalSize: int
    var received: nat
    var chunks: seq<Bytes>

    function View(): Stream
      reads this
    {
      Stream(totalSize, received, chunks)
    }

    constructor (size: int)
      ensures View() == Stream(size, 0, [])
    {
      totalSize, received, chunks := size, 0, [];
    }
  }

  class StreamAssembler {
    const limit: nat    // the largest buffer that can be made
    var streams: map<string, StreamState>
    ghost var repr: set<StreamState>
    ghost var history: seq<StreamMessage>

    ghost predicate Distinct()
      reads this
    {
      && (forall id :: id in streams ==> streams[id] in repr)
      && (forall i, j :: i in streams && j in streams && i != j ==> streams[i] != streams[j])
    }

    ghost function View(): Open
      requires Distinct()
      reads this, repr
    {
      map id | id in streams :: streams[id].View()
    }

    ghost predicate Valid()
      reads this, repr
    {
      Distinct() && View() == AfterHistory(history)
    }

    constructor (largest: nat)
      ensures Valid() && history == [] && repr == {} && limit == largest
    {
      limit := largest;
      streams, repr, history := map[], {}, [];
    }

    method Feed(m: StreamMessage) returns (r: FeedResult)
      requires Valid()
      modifies this, repr
      ensures Valid() && fresh(repr - old(repr)) && history == old(history) + [m]
      ensures r == FeedOutcome(AfterHistory(old(history)), m, limit)
    {
      assert (history + [m])[..|history|] == history;
      r := FeedOpen(m);
      history := history + [m];
    }

    method FeedOpen(m: StreamMessage) returns (r: FeedResult)
      requires Distinct()
      modifies `streams, `repr, repr
      ensures Distinct() && fresh(repr - old(repr))
      ensures r == FeedOutcome(old(View()), m, limit) && View() == AfterFeed(old(View()), m)
    {
      match m {
        case Start(id, totalSize) =>
          if id == "" {
            return Failed(EmptyStreamId);
          }
          OpenStream(id, totalSize);
          return Nothing;
        case MalformedStart =>
          return Failed(ParseStart);
        case Chunk(data) =>
          AppendToAll(data);
          return Nothing;
        case End(id) =>
          if id !in streams {
            return Failed(UnknownStream(id));
          }
          r := CloseStream(id);
        case MalformedEnd =>
          return Failed(ParseEnd);
        case Other =>
          return Nothing;
      }
    }

    method OpenStream(id: string, totalSize: int)
      requires Distinct()
      modifies `streams, `repr
      ensures Distinct() && fresh(repr - old(repr))
      ensures View() == old(View())[id := Stream(totalSize, 0, [])]
    {
      var state := new StreamState(totalSize);
      streams := streams[id := state];
      repr := repr + {state};
    }

    /** Forgets the stream, then makes a buffer of its announced size for the chunks. */
    method CloseStream(id: string) returns (r: FeedResult)
      requires Distinct() && id in streams
      modifies `streams
      ensures Distinct()
      ensures r == Ended(old(View())[id], limit) && View() == old(View()) - {id}
    {
      var state := streams[id];
      streams := streams - {id};
      if state.totalSize < 0 || state.totalSize > limit {
        return Panicked;
      }
      var total := Gather(state.chunks);
      r := Assembled(total);
    }

    /** The loop over every open stream. */
    method AppendToAll(data: Bytes)
      requires Distinct()
      modifies repr
      ensures Distinct()
      ensures View() == map id | id in old(View()) :: WithChunk(old(View())[id], data)
    {
      var todo := streams.Keys;
      while todo != {}
        invariant todo <= streams.Keys
        invariant forall id :: id in streams ==>
                    streams[id].View() == if id in todo then old(streams[id].View()) else WithChunk(old(streams[id].View()), data)
        decreases todo
      {
        var id :| id in todo;
        var state := streams[id];
        state.chunks := state.chunks + [data];
        state.received := state.received + |data|;
        todo := todo - {id};
      }
    }
  }

  method Gather(chunks: seq<Bytes>) returns (total: Bytes)
    ensures total == Concat(chunks)
  {
    total := [];
    assert chunks[..0] == [];
    for i := 0 to |chunks|
      invariant total == Concat(chunks[..i])
    {
      assert chunks[..i + 1] == chunks[..i] + [chunks[i]];
      ConcatAppend(chunks[..i], [chunks[i]]);
      assert Concat([chunks[i]]) == chunks[i] + Concat([]);
      total := total + chunks[i];
    }
    assert chunks[..|chunks|] == chunks;
  }

  // ---- On the wire ----

  /** The wire type of a stream message. */
  function WireType(m: StreamMessage): (t: byte)
    requires !m.Other?
  {
    match m
    case Start(_, _) => 9
    case MalformedStart => 9
    case Chunk(_) => 10
    case _ => 11
  }

  lemma WireTypesInFull(m: StreamMessage)
    ensures m.Start? || m.MalformedStart? ==> WireType(m) == 9
    ensures m.Chunk? ==> WireType(m) == 10
    ensures m.End? || m.MalformedEnd? ==> WireType(m) == 11
  {
  }

  /** No stream message can be received: the core's reader knows only the types up to 8. */
  lemma StreamMessagesAreNotReadable(m: StreamMessage, encoded: Bytes, rest: Bytes)
    requires !m.Other?
    ensures ReadOne(Frame(Message(WireType(m), encoded)) + rest) == UnknownMessageType
  {
    ReadBackExactlyWhenReadable(Message(WireType(m), encoded), rest);
  }
}
