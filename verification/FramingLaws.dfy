/**
 The wire format in numbers: four length bytes, lowest first, one type byte from
 1 to 8, and at most 16 MiB of payload.
 */
module FramingLaws {
  import opened Framing
  import opened Octets

  /** The length that four bytes announce, lowest first. */
  lemma LengthOfBytes(b: Bytes)
    requires |b| == 4
    ensures Uint32(b) == (b[0] as int) + 256 * (b[1] as int) + 65536 * (b[2] as int) + 16777216 * (b[3] as int)
  {
  }

  /** What is written: the length modulo 4 GiB, lowest byte first, the type, and as much of the payload. */
  lemma FrameLayout(kind: byte, payload: Bytes)
    ensures var n := |payload| % 4294967296; var f := Frame(Message(kind, payload));
            && |f| == 5 + n
            && f[0] as int == n % 256 && f[1] as int == n / 256 % 256
            && f[2] as int == n / 65536 % 256 && f[3] as int == n / 16777216
            && f[4] == kind && f[5..] == payload[..n]
  {
    var n := |payload| % 4294967296;
    assert PutUint32(n)[0] as int == n % 256 && PutUint32(n)[1] as int == n / 256 % 256;
    assert PutUint32(n)[2] as int == n / 65536 % 256 && PutUint32(n)[3] as int == n / 16777216;
    hide PutUint32;
  }

  /** What one read makes of any bytes: the checks in their order. */
  lemma ReadInFull(s: Bytes)
    ensures |s| < 5 ==> ReadOne(s) == ReadHeaderError
    ensures |s| >= 5 ==>
              var n := (s[0] as int) + 256 * (s[1] as int) + 65536 * (s[2] as int) + 16777216 * (s[3] as int);
              if s[4] as int == 0 || s[4] as int >= 9 then ReadOne(s) == UnknownMessageType
              else if n > 16777216 then ReadOne(s) == PayloadTooLarge
              else if |s| < 5 + n then ReadOne(s) == ReadPayloadError
              else ReadOne(s) == Msg(Message(s[4], s[5..5 + n])) && AfterFirst(s) == s[5 + n..]
  {
    if |s| >= 5 {
      LengthOfBytes(s[..4]);
    }
  }

  /** What the worker's parser makes of any bytes: the first frame if it is whole, and then the rest of them. */
  lemma ParseInFull(s: Bytes)
    ensures |s| < 5 ==> Parse(s) == Parsed([], s)
    ensures |s| >= 5 ==>
              var n := (s[0] as int) + 256 * (s[1] as int) + 65536 * (s[2] as int) + 16777216 * (s[3] as int);
              if |s| < 5 + n then Parse(s) == Parsed([], s)
              else Parse(s) == Parsed([Message(s[4], s[5..5 + n])] + Parse(s[5 + n..]).frames, Parse(s[5 + n..]).remaining)
  {
    if |s| >= 5 {
      LengthOfBytes(s[..4]);
    }
    if Complete(s) {
      ParseStep(s);
    } else {
      ParseIncomplete(s);
    }
    hide Parse;
  }

  /** A written message of any type from 1 to 8 with at most 16777216 bytes is read back. */
  lemma WrittenIsRead(kind: byte, payload: Bytes, rest: Bytes)
    requires 1 <= kind as int <= 8 && |payload| <= 16777216
    ensures ReadOne(Frame(Message(kind, payload)) + rest) == Msg(Message(kind, payload))
    ensures AfterFirst(Frame(Message(kind, payload)) + rest) == rest
  {
    ReadBackExactlyWhenReadable(Message(kind, payload), rest);
  }

  /** A written message of any other type is refused as unknown, and a longer one of a known type as too large. */
  lemma OthersAreRefused(kind: byte, payload: Bytes, rest: Bytes)
    ensures kind as int == 0 || kind as int >= 9 ==> ReadOne(Frame(Message(kind, payload)) + rest) == UnknownMessageType
    ensures 1 <= kind as int <= 8 && 16777216 < |payload| < 4294967296 ==>
              ReadOne(Frame(Message(kind, payload)) + rest) == PayloadTooLarge
  {
    ReadBackExactlyWhenReadable(Message(kind, payload), rest);
  }

  /** Any messages of types 1 to 8 with at most 16777216 bytes each are returned by repeated reads and by the worker's parser. */
  lemma BothReadersReturnWhatIsWritten(ms: seq<Message>)
    requires forall m :: m in ms ==> 1 <= m.kind as int <= 8 && |m.payload| <= 16777216
    ensures ReadAllOf(FrameAll(ms)) == (ms, ReadHeaderError)
    ensures Parse(FrameAll(ms)) == Parsed(ms, [])
  {
    BothReadersAgree(ms);
  }

  /** The worker answers a frame of type 3 with five bytes, dispatches one of type 1, and ignores all others. */
  lemma HandledInNumbers(frames: seq<Message>, f: Message, decode: Bytes -> Decoded)
    ensures Replies([]) == [] && Requests([], decode) == []
    ensures Replies(frames + [f]) == Replies(frames) + if f.kind as int == 3 then [0, 0, 0, 0, 3] else []
    ensures Requests(frames + [f], decode)
         == Requests(frames, decode) + if f.kind as int == 1 && decode(f.payload) == Value then [f.payload] else []
    ensures Throws(f, decode) <==> f.kind as int == 1 && decode(f.payload) == Null
  {
    assert (frames + [f])[..|frames|] == frames;
    assert Frame(Message(3, [])) == [0, 0, 0, 0, 3];
  }
}
