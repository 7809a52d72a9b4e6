/**
 The wire format between core and workers: a four byte little-endian payload
 length, a type byte, the payload. The core writes and reads single frames
 (Go); the worker SDK parses whatever has arrived so far (TypeScript).
 */
module Framing {
  import opened Lists
  import opened Octets
  import opened Wrappers

  const HEADER_SIZE := 5
  const U32 := 0x1_0000_0000
  const MAX_PAYLOAD_SIZE := 16 * 1024 * 1024

  const TYPE_REQUEST: byte := 1
  const TYPE_HEARTBEAT: byte := 3

  datatype Message = Message(kind: byte, payload: Bytes)

  // ---- Four byte lengths ----

  function PutUint32(n: nat): (b: Bytes)
    requires n < U32
    ensures |b| == 4
  {
    [n % 256, n / 256 % 256, n / 65536 % 256, n / 16777216]
  }

  function Uint32(b: Bytes): (n: nat)
    requires |b| == 4
    ensures n < U32
  {
    (b[0] as int) + 256 * (b[1] as int) + 65536 * (b[2] as int) + 16777216 * (b[3] as int)
  }

  lemma Uint32OfPut(n: nat)
    requires n < U32
    ensures Uint32(PutUint32(n)) == n
  {
    assert n / 65536 == n / 256 / 256 && n / 16777216 == n / 65536 / 256;
  }

  lemma PutOfUint32(b: Bytes)
    requires |b| == 4
    ensures PutUint32(Uint32(b)) == b
  {
    var n := Uint32(b);
    assert n / 256 == (b[1] as int) + 256 * (b[2] as int) + 65536 * (b[3] as int);
    assert n / 65536 == (b[2] as int) + 256 * (b[3] as int);
  }

  // ---- Frames ----

  /** The payload length as it is sent: it wraps at 32 bits. */
  function SentLength(m: Message): nat {
    |m.payload| % U32
  }

  /** What framing.Write puts on the wire; a payload that does not fit is cut to the sent length. */
  function Frame(m: Message): (f: Bytes)
    ensures |f| == HEADER_SIZE + SentLength(m)
  {
    PutUint32(SentLength(m)) + [m.kind] + m.payload[..SentLength(m)]
  }

  predicate Fits(m: Message) {
    |m.payload| < U32
  }

  function FrameAll(ms: seq<Message>): Bytes {
    if ms == [] then [] else Frame(ms[0]) + FrameAll(ms[1..])
  }

  lemma FrameParts(m: Message, rest: Bytes)
    ensures var s := Frame(m) + rest;
            && Uint32(s[..4]) == SentLength(m) && s[4] == m.kind
            && s[HEADER_SIZE..HEADER_SIZE + SentLength(m)] == m.payload[..SentLength(m)]
            && s[HEADER_SIZE + SentLength(m)..] == rest
    ensures Fits(m) ==> m.payload[..SentLength(m)] == m.payload
  {
    var s := Frame(m) + rest;
    Uint32OfPut(SentLength(m));
    assert s[..4] == PutUint32(SentLength(m));
  }

  // ---- The worker SDK's parser ----

  datatype Parsed = Parsed(frames: seq<Message>, remaining: Bytes)

  /** A whole frame stands at the start of the buffer. */
  predicate Complete(s: Bytes) {
    |s| >= HEADER_SIZE && HEADER_SIZE + Uint32(s[..4]) <= |s|
  }

  function FirstMessage(s: Bytes): (m: Message)
    requires Complete(s)
    ensures Fits(m)
  {
    Message(s[4], s[HEADER_SIZE..HEADER_SIZE + Uint32(s[..4])])
  }

  function AfterFirst(s: Bytes): Bytes
    requires Complete(s)
  {
    s[HEADER_SIZE + Uint32(s[..4])..]
  }

  function Parse(s: Bytes): (p: Parsed)
    ensures forall m :: m in p.frames ==> Fits(m)
    decreases |s|
  {
    if !Complete(s) then Parsed([], s)
    else
      var rest := Parse(AfterFirst(s));
      Parsed([FirstMessage(s)] + rest.frames, rest.remaining)
  }

  /** One frame of the loop, seen from the rest of the buffer. */
  lemma FrameAt(buffer: Bytes, offset: nat)
    requires offset + HEADER_SIZE <= |buffer|
    ensures var s, length := buffer[offset..], Uint32(buffer[offset..offset + 4]);
            && (Complete(s) <==> offset + HEADER_SIZE + length <= |buffer|)
            && (Complete(s) ==>
                  && FirstMessage(s) == Message(buffer[offset + 4], buffer[offset + HEADER_SIZE..offset + HEADER_SIZE + length])
                  && AfterFirst(s) == buffer[offset + HEADER_SIZE + length..])
  {
    var s := buffer[offset..];
    assert s[..4] == buffer[offset..offset + 4] && s[4] == buffer[offset + 4];
    hide Uint32;
  }

  /** The frames so far and what the rest of the buffer parses to are what the buffer parses to. */
  ghost predicate ParsedTo(buffer: Bytes, frames: seq<Message>, offset: nat) {
    && offset <= |buffer|
    && var rest := Parse(buffer[offset..]); Parse(buffer) == Parsed(frames + rest.frames, rest.remaining)
  }

  lemma ParsedNone(buffer: Bytes)
    ensures ParsedTo(buffer, [], 0)
  {
    assert buffer[0..] == buffer;
    assert [] + Parse(buffer).frames == Parse(buffer).frames;
  }

  /** One more frame. */
  lemma ParsedMore(buffer: Bytes, frames: seq<Message>, offset: nat)
    requires ParsedTo(buffer, frames, offset) && offset + HEADER_SIZE <= |buffer|
    ensures var end := offset + HEADER_SIZE + Uint32(buffer[offset..offset + 4]);
            end <= |buffer| ==>
              ParsedTo(buffer, frames + [Message(buffer[offset + 4], buffer[offset + HEADER_SIZE..end])], end)
  {
    FrameAt(buffer, offset);
    hide ParsedTo;
    hide Parse;
    hide Complete;
    hide FirstMessage;
    hide AfterFirst;
    hide Uint32;
    hide Fits;
    var s, end := buffer[offset..], offset + HEADER_SIZE + Uint32(buffer[offset..offset + 4]);
    if end <= |buffer| {
      ParseStep(s);
      ParsedMeans(buffer, frames, offset);
      Associative(frames, [FirstMessage(s)], Parse(AfterFirst(s)).frames);
      ParsedMeans(buffer, frames + [FirstMessage(s)], end);
    }
  }

  lemma ParsedMeans(buffer: Bytes, frames: seq<Message>, offset: nat)
    requires offset <= |buffer|
    ensures var rest := Parse(buffer[offset..]);
            ParsedTo(buffer, frames, offset) <==> Parse(buffer) == Parsed(frames + rest.frames, rest.remaining)
  {
  }

  /** No whole frame is left. */
  lemma ParsedAll(buffer: Bytes, frames: seq<Message>, offset: nat)
    requires ParsedTo(buffer, frames, offset) && !Complete(buffer[offset..])
    ensures Parse(buffer) == Parsed(frames, buffer[offset..])
  {
    ParseIncomplete(buffer[offset..]);
    assert frames + [] == frames;
  }

  lemma NoFrameLeft(buffer: Bytes, offset: nat)
    requires offset <= |buffer|
    requires offset + HEADER_SIZE <= |buffer| ==> offset + HEADER_SIZE + Uint32(buffer[offset..offset + 4]) > |buffer|
    ensures !Complete(buffer[offset..])
  {
    if offset + HEADER_SIZE <= |buffer| {
      FrameAt(buffer, offset);
    }
  }

  method ParseFrames(buffer: Bytes) returns (p: Parsed)
    ensures p == Parse(buffer)
  {
    var frames: seq<Message> := [];
    var offset := 0;
    ParsedNone(buffer);
    hide ParsedTo;
    hide Uint32;
    hide Parse;
    hide Complete;
    while offset + HEADER_SIZE <= |buffer|
      invariant offset <= |buffer| && ParsedTo(buffer, frames, offset)
      decreases |buffer| - offset
    {
      ParsedMore(buffer, frames, offset);
      var length := Uint32(buffer[offset..offset + 4]);
      var kind := buffer[offset + 4];
      if offset + HEADER_SIZE + length > |buffer| {
        break;
      }
      var payload := buffer[offset + HEADER_SIZE..offset + HEADER_SIZE + length];
      frames := frames + [Message(kind, payload)];
      offset := offset + HEADER_SIZE + length;
    }
    NoFrameLeft(buffer, offset);
    ParsedAll(buffer, frames, offset);
    p := Parsed(frames, buffer[offset..]);
  }

  /** A buffer that starts with a whole frame is that frame and the rest. */
  lemma FrameOfFirst(s: Bytes)
    requires Complete(s)
    ensures Frame(FirstMessage(s)) + AfterFirst(s) == s
  {
    var n := Uint32(s[..4]);
    PutOfUint32(s[..4]);
    hide PutUint32;
    hide Uint32;
    var m := FirstMessage(s);
    assert m.payload == s[HEADER_SIZE..HEADER_SIZE + n] && |m.payload| == n && SentLength(m) == n;
    assert m.payload[..n] == m.payload;
    CutInThree(s, HEADER_SIZE, HEADER_SIZE + n);
    CutInThree(s, 4, HEADER_SIZE);
  }

  lemma CutInThree(s: Bytes, i: nat, j: nat)
    requires i <= j <= |s|
    ensures s[..i] + s[i..j] + s[j..] == s && s[..i] + s[i..j] == s[..j]
  {
  }

  lemma ParseStep(s: Bytes)
    requires Complete(s)
    ensures Parse(s) == Parsed([FirstMessage(s)] + Parse(AfterFirst(s)).frames, Parse(AfterFirst(s)).remaining)
    ensures |AfterFirst(s)| < |s|
  {
  }

  /** Framing the parsed messages again and appending what remains gives the buffer back. */
  lemma {:induction false} ParseLosesNothing(s: Bytes)
    ensures FrameAll(Parse(s).frames) + Parse(s).remaining == s
    ensures !Complete(Parse(s).remaining)
    decreases |s|
  {
    if Complete(s) {
      var m, after := FirstMessage(s), AfterFirst(s);
      ParseStep(s);
      hide *;
      ParseLosesNothing(after);
      var p := Parse(after);
      FrameAllCons(m, p.frames);
      Associative(Frame(m), FrameAll(p.frames), p.remaining);
      FrameOfFirst(s);
    } else {
      ParseIncomplete(s);
    }
  }

  lemma FrameAllCons(m: Message, ms: seq<Message>)
    ensures FrameAll([m] + ms) == Frame(m) + FrameAll(ms)
  {
    assert ([m] + ms)[1..] == ms;
  }

  /** Parsing framed messages followed by an incomplete tail gives exactly those messages and the tail. */
  lemma {:induction false} ParseOfFrames(ms: seq<Message>, tail: Bytes)
    requires forall m :: m in ms ==> Fits(m)
    requires !Complete(tail)
    ensures Parse(FrameAll(ms) + tail) == Parsed(ms, tail)
    decreases |ms|
  {
    if ms == [] {
      assert FrameAll(ms) + tail == tail;
    } else {
      var rest := FrameAll(ms[1..]) + tail;
      assert FrameAll(ms) + tail == Frame(ms[0]) + rest;
      FrameParts(ms[0], rest);
      ParseOfFrames(ms[1..], tail);
    }
  }

  lemma FirstContinues(s: Bytes, more: Bytes)
    requires Complete(s)
    ensures Complete(s + more) && FirstMessage(s + more) == FirstMessage(s)
    ensures AfterFirst(s + more) == AfterFirst(s) + more
  {
    assert (s + more)[..4] == s[..4];
    hide Uint32;
  }

  /** More bytes never change what was parsed before: they continue from what remained. */
  lemma {:induction false} ParseContinues(s: Bytes, more: Bytes)
    ensures var p := Parse(s); var q := Parse(p.remaining + more);
            Parse(s + more) == Parsed(p.frames + q.frames, q.remaining)
    decreases |s|
  {
    if Complete(s) {
      FirstContinues(s, more);
      ParseContinues(AfterFirst(s), more);
      hide FirstMessage;
      hide AfterFirst;
      hide Complete;
      var p := Parse(AfterFirst(s));
      var q := Parse(p.remaining + more);
      assert ([FirstMessage(s)] + p.frames) + q.frames == [FirstMessage(s)] + (p.frames + q.frames);
    } else {
      hide Parse;
      ParseIncomplete(s);
    }
  }

  lemma ParseIncomplete(s: Bytes)
    requires !Complete(s)
    ensures Parse(s) == Parsed([], s)
  {
  }

  // ---- Chunks arriving on the socket ----

  function Concat(chunks: seq<Bytes>): Bytes {
    if chunks == [] then [] else chunks[0] + Concat(chunks[1..])
  }

  /** What the worker has seen of a connection: handled frames, and the bytes not yet parsed. */
  function Receive(seen: Parsed, chunk: Bytes): Parsed {
    var p := Parse(seen.remaining + chunk);
    Parsed(seen.frames + p.frames, p.remaining)
  }

  function ReceiveAll(seen: Parsed, chunks: seq<Bytes>): Parsed
    decreases |chunks|
  {
    if chunks == [] then seen else ReceiveAll(Receive(seen, chunks[0]), chunks[1..])
  }

  lemma ReceiveStep(seen: Parsed, chunk: Bytes)
    ensures var p := Parse(seen.remaining + chunk);
            Receive(seen, chunk) == Parsed(seen.frames + p.frames, p.remaining) && !Complete(p.remaining)
  {
    ParseLosesNothing(seen.remaining + chunk);
  }

  /** However the bytes are cut into chunks, the same frames are handled as in one piece. */
  lemma {:induction false} ChunksDoNotMatter(seen: Parsed, chunks: seq<Bytes>)
    requires !Complete(seen.remaining)
    ensures ReceiveAll(seen, chunks) == Receive(seen, Concat(chunks))
    decreases |chunks|
  {
    if chunks == [] {
      ParseIncomplete(seen.remaining);
      assert seen.remaining + [] == seen.remaining;
      assert seen.frames + [] == seen.frames;
    } else {
      hide Parse;
      hide Complete;
      hide Fits;
      var next, more := Receive(seen, chunks[0]), Concat(chunks[1..]);
      var p := Parse(seen.remaining + chunks[0]);
      ParseLosesNothing(seen.remaining + chunks[0]);
      ChunksDoNotMatter(next, chunks[1..]);
      ParseContinues(seen.remaining + chunks[0], more);
      Associative(seen.remaining, chunks[0], more);
      Associative(seen.frames, p.frames, Parse(p.remaining + more).frames);
    }
  }

  /** The frames written for messages, in any chunks, are handled as exactly those messages. */
  lemma FramesArriveInAnyChunks(ms: seq<Message>, chunks: seq<Bytes>)
    requires forall m :: m in ms ==> Fits(m)
    requires Concat(chunks) == FrameAll(ms)
    ensures ReceiveAll(Parsed([], []), chunks) == Parsed(ms, [])
  {
    ChunksDoNotMatter(Parsed([], []), chunks);
    ParseOfFrames(ms, []);
    assert FrameAll(ms) + [] == FrameAll(ms) == [] + Concat(chunks);
  }

  /** The heartbeats that answer the heartbeats among the frames. */
  function Replies(frames: seq<Message>): Bytes {
    if frames == [] then []
    else Replies(frames[..|frames| - 1])
         + if frames[|frames| - 1].kind == TYPE_HEARTBEAT then Frame(Message(TYPE_HEARTBEAT, [])) else []
  }

  /** What the JSON decoder makes of a request's payload: an error, the value null, or another value. */
  datatype Decoded = Unparsable | Null | Value

  /** The requests among the frames whose payload decodes; the others are logged and dropped. */
  function Requests(frames: seq<Message>, decode: Bytes -> Decoded): seq<Bytes> {
    if frames == [] then []
    else
      var f := frames[|frames| - 1];
      Requests(frames[..|frames| - 1], decode)
      + if f.kind == TYPE_REQUEST && decode(f.payload).Value? then [f.payload] else []
  }

  /** A request that is null has no method to log: handling it throws, and nothing catches that. */
  predicate Throws(f: Message, decode: Bytes -> Decoded) {
    f.kind == TYPE_REQUEST && decode(f.payload).Null?
  }

  /** No frame of these throws. */
  predicate Harmless(frames: seq<Message>, decode: Bytes -> Decoded) {
    forall k :: 0 <= k < |frames| ==> !Throws(frames[k], decode)
  }

  /** The frames before the first that throws. */
  function Survived(frames: seq<Message>, decode: Bytes -> Decoded): (s: seq<Message>)
    ensures |s| <= |frames|
  {
    if frames == [] then []
    else
      var last := |frames| - 1;
      var front := Survived(frames[..last], decode);
      if |front| == last && !Throws(frames[last], decode) then frames else front
  }

  /** All frames survive exactly when none throws; otherwise those before the first that does. */
  lemma {:induction false} SurvivedMeans(frames: seq<Message>, decode: Bytes -> Decoded)
    ensures var s := Survived(frames, decode);
            && s == frames[..|s|]
            && (forall i :: 0 <= i < |s| ==> !Throws(frames[i], decode))
            && (|s| < |frames| ==> Throws(frames[|s|], decode))
  {
    if frames != [] {
      var last := |frames| - 1;
      SurvivedMeans(frames[..last], decode);
    }
  }

  /** The frames before one that throws, when none of them does. */
  lemma SurvivedUntil(frames: seq<Message>, i: nat, decode: Bytes -> Decoded)
    requires i < |frames| && Throws(frames[i], decode) && forall k :: 0 <= k < i ==> !Throws(frames[k], decode)
    ensures Survived(frames, decode) == frames[..i]
  {
    SurvivedMeans(frames, decode);
  }

  lemma SurvivedAll(frames: seq<Message>, decode: Bytes -> Decoded)
    requires Harmless(frames, decode)
    ensures Survived(frames, decode) == frames
  {
    SurvivedMeans(frames, decode);
  }

  /** What one more frame adds to the heartbeats written and the requests dispatched. */
  lemma HandledStep(before: seq<Message>, frames: seq<Message>, i: nat, decode: Bytes -> Decoded)
    requires i < |frames|
    ensures var f, done, next := frames[i], before + frames[..i], before + frames[..i + 1];
            && next[..|done|] == done && next[|done|] == f && |next| == |done| + 1
            && Replies(next) == (if f.kind == TYPE_HEARTBEAT then Replies(done) + Frame(Message(TYPE_HEARTBEAT, [])) else Replies(done))
            && Requests(next, decode)
               == if f.kind == TYPE_REQUEST && decode(f.payload).Value? then Requests(done, decode) + [f.payload]
                  else Requests(done, decode)
  {
    var next := before + frames[..i + 1];
    assert next[..|next| - 1] == before + frames[..i] && next[|next| - 1] == frames[i];
    hide Frame;
  }

  /**
   One socket of the worker: its buffer, what it wrote back at once, and the
   requests it dispatched, until handling a frame throws.
   */
  class Connection {
    const decode: Bytes -> Decoded
    var current: Bytes
    var written: Bytes
    var dispatched: seq<Bytes>
    var crashed: bool
    ghost var seen: Parsed

    ghost predicate Valid()
      reads this
    {
      && (!crashed ==> current == seen.remaining && !Complete(current))
      && (crashed <==> !Harmless(seen.frames, decode))
      && written == Replies(Survived(seen.frames, decode))
      && dispatched == Requests(Survived(seen.frames, decode), decode)
    }

    constructor (decoder: Bytes -> Decoded)
      ensures Valid() && seen == Parsed([], []) && decode == decoder && !crashed
    {
      decode, crashed := decoder, false;
      current, written, dispatched, seen := [], [], [], Parsed([], []);
    }

    /** handleSocketData and the assignment its caller makes with the result; an exception leaves the loop and skips the assignment. */
    method OnData(data: Bytes)
      requires Valid() && !crashed
      modifies this
      ensures Valid() && seen == Receive(old(seen), data)
    {
      SurvivedAll(seen.frames, decode);
      hide Parse;
      hide Complete;
      hide Survived;
      hide Harmless;
      hide Replies;
      hide Requests;
      ReceiveStep(seen, data);
      hide Receive;
      hide Fits;
      current := current + data;
      var result := ParseFrames(current);
      crashed := Handle(seen.frames, result.frames);
      if !crashed {
        current := result.remaining;
      }
      seen := Receive(seen, data);
    }

    /** The loop over the parsed frames. */
    method Handle(ghost before: seq<Message>, frames: seq<Message>) returns (threw: bool)
      requires Harmless(before, decode) && written == Replies(before) && dispatched == Requests(before, decode)
      modifies `written, `dispatched
      ensures threw <==> !Harmless(before + frames, decode)
      ensures written == Replies(Survived(before + frames, decode))
      ensures dispatched == Requests(Survived(before + frames, decode), decode)
    {
      assert before + frames[..0] == before && frames[..|frames|] == frames;
      hide Frame;
      hide Replies;
      hide Requests;
      hide Survived;
      hide Throws;
      hide Harmless;
      for i := 0 to |frames|
        invariant Harmless(before + frames[..i], decode)
        invariant written == Replies(before + frames[..i])
        invariant dispatched == Requests(before + frames[..i], decode)
      {
        var f := frames[i];
        HandledStep(before, frames, i, decode);
        if f.kind == TYPE_HEARTBEAT {
          written := written + Frame(Message(TYPE_HEARTBEAT, []));
        } else if f.kind == TYPE_REQUEST {
          match decode(f.payload) {
            case Unparsable =>
            case Null =>
              ThrowsAt(before, frames, i, decode);
              return true;
            case Value =>
              dispatched := dispatched + [f.payload];
          }
        }
        NotThrown(before, frames, i, decode);
      }
      SurvivedAll(before + frames, decode);
      threw := false;
    }
  }

  /** A frame that is no null request leaves the frames harmless. */
  lemma NotThrown(before: seq<Message>, frames: seq<Message>, i: nat, decode: Bytes -> Decoded)
    requires i < |frames| && Harmless(before + frames[..i], decode)
    ensures Harmless(before + frames[..i + 1], decode)
       <==> !(frames[i].kind == TYPE_REQUEST && decode(frames[i].payload).Null?)
  {
    var done, next := before + frames[..i], before + frames[..i + 1];
    assert next[|done|] == frames[i];
    assert forall k :: 0 <= k < |done| ==> next[k] == done[k];
  }

  lemma ThrowsAt(before: seq<Message>, frames: seq<Message>, i: nat, decode: Bytes -> Decoded)
    requires i < |frames| && Harmless(before + frames[..i], decode)
    requires frames[i].kind == TYPE_REQUEST && decode(frames[i].payload).Null?
    ensures !Harmless(before + frames, decode) && Survived(before + frames, decode) == before + frames[..i]
  {
    var all, done := before + frames, before + frames[..i];
    assert all[|done|] == frames[i] && all[..|done|] == done;
    assert forall k :: 0 <= k < |done| ==> all[k] == done[k];
    SurvivedUntil(all, |done|, decode);
  }

  // ---- The core's writer and reader ----

  method Write(m: Message) returns (frame: array<byte>)
    ensures frame[..] == Frame(m)
  {
    var payloadLen := |m.payload| % U32;
    var header := new byte[HEADER_SIZE];
    var length := PutUint32(payloadLen);
    forall i | 0 <= i < 4 {
      header[i] := length[i];
    }
    header[4] := m.kind;
    frame := new byte[HEADER_SIZE + payloadLen];
    forall i | 0 <= i < HEADER_SIZE {
      frame[i] := header[i];
    }
    forall i | 0 <= i < payloadLen {
      frame[HEADER_SIZE + i] := m.payload[i];
    }
    assert frame[..4] == length && frame[4] == m.kind && frame[HEADER_SIZE..] == m.payload[..payloadLen];
    assert frame[..] == frame[..4] + [frame[4]] + frame[HEADER_SIZE..];
  }

  predicate ValidType(t: byte) {
    1 <= t <= 8
  }

  datatype ReadResult = Msg(m: Message) | ReadHeaderError | UnknownMessageType | PayloadTooLarge | ReadPayloadError

  /** What one Read makes of the bytes still to come. */
  function ReadOne(s: Bytes): ReadResult {
    if |s| < HEADER_SIZE then ReadHeaderError
    else if !ValidType(s[4]) then UnknownMessageType
    else if Uint32(s[..4]) > MAX_PAYLOAD_SIZE then PayloadTooLarge
    else if !Complete(s) then ReadPayloadError
    else Msg(FirstMessage(s))
  }

  class Reader {
    const data: Bytes
    var pos: nat

    ghost predicate Valid()
      reads this
    {
      pos <= |data|
    }

    ghost function Rest(): Bytes
      requires Valid()
      reads this
    {
      data[pos..]
    }

    constructor (bytes: Bytes)
      ensures Valid() && Rest() == bytes
    {
      data, pos := bytes, 0;
    }

    /** io.ReadFull: n bytes, or an error once everything is consumed. */
    method ReadFull(n: nat) returns (r: Option<Bytes>)
      requires Valid()
      modifies this
      ensures Valid()
      ensures |old(Rest())| < n ==> r == None && Rest() == []
      ensures |old(Rest())| >= n ==> r == Some(old(Rest())[..n]) && Rest() == old(Rest())[n..]
    {
      if |data| - pos < n {
        pos := |data|;
        return None;
      }
      ghost var s := Rest();
      r := Some(data[pos..pos + n]);
      pos := pos + n;
      assert r.value == s[..n] && data[pos..] == s[n..];
    }

    method Read() returns (r: ReadResult)
      requires Valid()
      modifies this
      ensures Valid() && r == ReadOne(old(Rest()))
      ensures r.Msg? ==> Rest() == AfterFirst(old(Rest()))
    {
      ghost var s := Rest();
      var header := ReadFull(HEADER_SIZE);
      if header.None? {
        return ReadHeaderError;
      }
      assert header.value[..4] == s[..4];
      var payloadLen := Uint32(header.value[0..4]);
      var msgType := header.value[4];
      if !ValidType(msgType) {
        return UnknownMessageType;
      }
      if payloadLen > MAX_PAYLOAD_SIZE {
        return PayloadTooLarge;
      }
      var payload: Bytes := [];
      if payloadLen > 0 {
        var read := ReadFull(payloadLen);
        if read.None? {
          return ReadPayloadError;
        }
        payload := read.value;
      }
      assert payload == s[HEADER_SIZE..HEADER_SIZE + payloadLen];
      r := Msg(Message(msgType, payload));
    }

    /** Reads until the first result that is not a message. */
    method ReadAll() returns (ms: seq<Message>, last: ReadResult)
      requires Valid()
      modifies this
      ensures Valid() && ms == ReadAllOf(old(Rest())).0 && last == ReadAllOf(old(Rest())).1
    {
      ghost var s := Rest();
      ms := [];
      assert ReadTo(s, ms, Rest());
      hide ReadTo;
      hide ReadOne;
      hide AfterFirst;
      hide ReadAllOf;
      while true
        invariant Valid() && ReadTo(s, ms, Rest())
        decreases |Rest()|
      {
        ReadMore(s, ms, Rest());
        last := Read();
        if !last.Msg? {
          return;
        }
        ms := ms + [last.m];
      }
    }
  }

  /** The messages so far and what the rest reads as are what all the bytes read as. */
  ghost predicate ReadTo(s: Bytes, ms: seq<Message>, rest: Bytes) {
    ReadAllOf(s).0 == ms + ReadAllOf(rest).0 && ReadAllOf(s).1 == ReadAllOf(rest).1
  }

  lemma ReadMore(s: Bytes, ms: seq<Message>, rest: Bytes)
    requires ReadTo(s, ms, rest)
    ensures var r := ReadOne(rest);
            if r.Msg? then Complete(rest) && ReadTo(s, ms + [r.m], AfterFirst(rest)) && |AfterFirst(rest)| < |rest|
            else ReadAllOf(s) == (ms, r)
  {
    var r := ReadOne(rest);
    if r.Msg? {
      Associative(ms, [r.m], ReadAllOf(AfterFirst(rest)).0);
    } else {
      assert ms + [] == ms;
    }
  }

  function ReadAllOf(s: Bytes): (seq<Message>, ReadResult)
    decreases |s|
  {
    var r := ReadOne(s);
    if r.Msg? then
      var rest := ReadAllOf(AfterFirst(s));
      ([r.m] + rest.0, rest.1)
    else ([], r)
  }

  predicate Readable(m: Message) {
    ValidType(m.kind) && |m.payload| <= MAX_PAYLOAD_SIZE
  }

  /** Reading back a written message gives that message exactly when its type is known and it is at most 16 MiB. */
  lemma ReadBackExactlyWhenReadable(m: Message, rest: Bytes)
    ensures ReadOne(Frame(m) + rest) == Msg(m) <==> Readable(m)
    ensures Readable(m) ==> AfterFirst(Frame(m) + rest) == rest
    ensures !ValidType(m.kind) ==> ReadOne(Frame(m) + rest) == UnknownMessageType
    ensures ValidType(m.kind) && MAX_PAYLOAD_SIZE < |m.payload| < U32 ==> ReadOne(Frame(m) + rest) == PayloadTooLarge
  {
    FrameParts(m, rest);
  }

  /** The SDK's parser gives a written message back exactly when its length fits in 32 bits. */
  lemma ParseBackExactlyWhenItFits(m: Message, rest: Bytes)
    ensures Complete(Frame(m) + rest)
    ensures FirstMessage(Frame(m) + rest) == m <==> Fits(m)
  {
    FrameParts(m, rest);
  }

  /** The core's reader and the SDK's parser both give back every sequence of readable messages the core writes. */
  lemma {:induction false} BothReadersAgree(ms: seq<Message>)
    requires forall m :: m in ms ==> Readable(m)
    ensures ReadAllOf(FrameAll(ms)) == (ms, ReadHeaderError)
    ensures Parse(FrameAll(ms)) == Parsed(ms, [])
    decreases |ms|
  {
    ParseOfFrames(ms, []);
    assert FrameAll(ms) + [] == FrameAll(ms);
    if ms != [] {
      ReadBackExactlyWhenReadable(ms[0], FrameAll(ms[1..]));
      BothReadersAgree(ms[1..]);
    }
  }
}
