/** Length-prefixed frames: a 32-bit big-endian length followed by that many bytes. */
module Frames {
  import opened Wrappers
  import opened Utf8
  import opened Numbers
  import opened Sequences

  const MAX_FRAME_SIZE := 64 * 1024

  datatype FrameError = Incomplete | TooLarge | TrailingBytes | LengthOverflow

  function EncodeFrame(payload: seq<byte>): Result<seq<byte>, FrameError> {
    if |payload| > MAX_FRAME_SIZE then Err(TooLarge)
    else if |payload| > U32_MAX then Err(LengthOverflow)
    else Ok(ToBigEndian(|payload|, 4) + payload)
  }

  function DecodeFrame(frame: seq<byte>): Result<seq<byte>, FrameError> {
    if |frame| < 4 then Err(Incomplete)
    else
      var length := BigEndian(frame[..4]);
      if length > MAX_FRAME_SIZE then Err(TooLarge)
      else if |frame| < 4 + length then Err(Incomplete)
      else if |frame| != 4 + length then Err(TrailingBytes)
      else Ok(frame[4..])
  }

  predicate Fits(payload: seq<byte>) { |payload| <= MAX_FRAME_SIZE }

  function Frame(payload: seq<byte>): (r: seq<byte>)
    requires Fits(payload)
    ensures EncodeFrame(payload) == Ok(r) && |r| == 4 + |payload|
  {
    EncodeFrame(payload).value
  }

  lemma HeaderSpellsLength(payload: seq<byte>, rest: seq<byte>)
    requires Fits(payload)
    ensures var bytes := Frame(payload) + rest;
      |bytes| >= 4 && BigEndian(bytes[..4]) == |payload|
  {
    BigEndianWidths();
    BigEndianOfBytes(|payload|, 4);
    assert (Frame(payload) + rest)[..4] == ToBigEndian(|payload|, 4);
  }

  /** Exactly the payloads that fit have a frame, and decoding gives them back. */
  lemma FrameRoundTrip(payload: seq<byte>)
    ensures EncodeFrame(payload).Ok? <==> |payload| <= 65_536
    ensures EncodeFrame(payload).Ok? ==> DecodeFrame(EncodeFrame(payload).value) == Ok(payload)
  {
    if Fits(payload) {
      HeaderSpellsLength(payload, []);
      assert Frame(payload) + [] == Frame(payload);
    }
  }

  /** A frame is four bytes of length, the highest first, and then the payload. */
  lemma FrameBytes(payload: seq<byte>)
    requires |payload| <= 65_536
    ensures var n := |payload|;
      EncodeFrame(payload) == Ok([0, n / 0x1_0000, n / 256 % 256, n % 256] + payload)
  {
    FourBytes(|payload|);
  }

  /** Decoding accepts nothing but what encoding produces. */
  lemma DecodedFrameIsEncoded(frame: seq<byte>)
    requires DecodeFrame(frame).Ok?
    ensures EncodeFrame(DecodeFrame(frame).value) == Ok(frame)
  {
    BytesOfBigEndian(frame[..4]);
    assert frame == frame[..4] + frame[4..];
  }

  /** A frame delimits itself: cut short it is incomplete, extended it has trailing bytes. */
  lemma FrameDelimitsItself(payload: seq<byte>, cut: nat, extra: seq<byte>)
    requires Fits(payload) && cut < |Frame(payload)| && extra != []
    ensures DecodeFrame(Frame(payload)[..cut]) == Err(Incomplete)
    ensures DecodeFrame(Frame(payload) + extra) == Err(TrailingBytes)
  {
    HeaderSpellsLength(payload, []);
    HeaderSpellsLength(payload, extra);
    if cut >= 4 {
      assert Frame(payload)[..cut][..4] == (Frame(payload) + [])[..4];
    }
  }

  // ----- reading frames off a stream -----

  datatype Taken = Starved | Refused | Taken(payload: seq<byte>)

  /** What `read_frame` finds at the head of the bytes still unread. */
  function TakeFrame(unread: seq<byte>): (r: Taken)
    ensures r.Taken? ==> 4 + |r.payload| <= |unread|
  {
    if |unread| < 4 then Starved
    else
      var length := BigEndian(unread[..4]);
      if length > MAX_FRAME_SIZE then Refused
      else if |unread| < 4 + length then Starved
      else Taken(unread[4..4 + length])
  }

  /** The payloads of the whole frames at the head of `bytes`, up to the first that cannot be read. */
  function WholeFrames(bytes: seq<byte>): seq<seq<byte>> {
    match TakeFrame(bytes)
    case Taken(payload) => [payload] + WholeFrames(bytes[4 + |payload|..])
    case _ => []
  }

  /** The bytes that carry `payloads`, one frame after another. */
  function Stream(payloads: seq<seq<byte>>): seq<byte>
    requires forall p :: p in payloads ==> Fits(p)
  {
    if payloads == [] then [] else Frame(payloads[0]) + Stream(payloads[1..])
  }

  lemma {:induction false} StreamAppend(payloads: seq<seq<byte>>, last: seq<byte>)
    requires Fits(last) && forall p :: p in payloads ==> Fits(p)
    ensures Stream(payloads + [last]) == Stream(payloads) + Frame(last)
  {
    if payloads == [] {
      assert payloads + [last] == [last];
    } else {
      assert (payloads + [last])[1..] == payloads[1..] + [last];
      StreamAppend(payloads[1..], last);
    }
  }

  lemma TakeFrameOfFrame(payload: seq<byte>, rest: seq<byte>)
    requires Fits(payload)
    ensures TakeFrame(Frame(payload) + rest) == Taken(payload)
    ensures (Frame(payload) + rest)[4 + |payload|..] == rest
  {
    HeaderSpellsLength(payload, rest);
  }

  lemma ShortFrameStarves(payload: seq<byte>, rest: seq<byte>, arrived: nat)
    requires Fits(payload) && arrived < |Frame(payload)|
    ensures TakeFrame((Frame(payload) + rest)[..arrived]) == Starved
  {
    HeaderSpellsLength(payload, rest);
    if arrived >= 4 {
      assert (Frame(payload) + rest)[..arrived][..4] == (Frame(payload) + rest)[..4];
    }
  }

  /** A payload is taken exactly when it has a frame and the unread bytes begin with that frame. */
  lemma TakenIff(unread: seq<byte>, payload: seq<byte>)
    ensures TakeFrame(unread) == Taken(payload) <==>
      EncodeFrame(payload).Ok? && IsPrefix(EncodeFrame(payload).value, unread)
  {
    if TakeFrame(unread) == Taken(payload) {
      var frame := unread[..4 + |payload|];
      assert frame[..4] == unread[..4] && frame[4..] == payload;
      DecodedFrameIsEncoded(frame);
    }
    if EncodeFrame(payload).Ok? && IsPrefix(EncodeFrame(payload).value, unread) {
      FrameRoundTrip(payload);
      var rest := unread[|Frame(payload)|..];
      assert unread == Frame(payload) + rest;
      TakeFrameOfFrame(payload, rest);
    }
  }

  /** Nothing can be taken for one of two reasons: a length above the limit, or bytes that have not arrived. */
  lemma NotTakenMeans(unread: seq<byte>)
    ensures TakeFrame(unread) == Refused <==> |unread| >= 4 && BigEndian(unread[..4]) > MAX_FRAME_SIZE
    ensures TakeFrame(unread) == Starved <==>
      |unread| < 4 || (BigEndian(unread[..4]) <= MAX_FRAME_SIZE && |unread| < 4 + BigEndian(unread[..4]))
  {}

  /** What the reader still has in hand after the whole frames. */
  function Leftover(bytes: seq<byte>): seq<byte> {
    match TakeFrame(bytes)
    case Taken(payload) => Leftover(bytes[4 + |payload|..])
    case _ => bytes
  }

  /**
   * Whatever bytes arrive, the reader takes them apart into frames of payloads that fit and a rest from
   * which nothing can be taken; nothing is lost and nothing made up.
   */
  lemma {:induction false} BytesAreFramesAndRest(bytes: seq<byte>)
    ensures forall p :: p in WholeFrames(bytes) ==> Fits(p)
    ensures bytes == Stream(WholeFrames(bytes)) + Leftover(bytes) && !TakeFrame(Leftover(bytes)).Taken?
  {
    match TakeFrame(bytes) {
      case Taken(payload) =>
        TakenIff(bytes, payload);
        FrameRoundTrip(payload);
        var rest := bytes[4 + |payload|..];
        BytesAreFramesAndRest(rest);
        assert bytes == Frame(payload) + rest;
        assert ([payload] + WholeFrames(rest))[1..] == WholeFrames(rest);
        assert Stream(WholeFrames(bytes)) == Frame(payload) + Stream(WholeFrames(rest));
      case _ =>
    }
  }

  lemma FirstFrameIsRead(payload: seq<byte>, rest: seq<byte>)
    requires Fits(payload)
    ensures WholeFrames(Frame(payload) + rest) == [payload] + WholeFrames(rest)
    ensures Leftover(Frame(payload) + rest) == Leftover(rest)
  {
    TakeFrameOfFrame(payload, rest);
  }

  /** Reading back a whole stream gives exactly the payloads it was made of. */
  lemma {:induction false} WholeFramesOfStream(payloads: seq<seq<byte>>)
    requires forall p :: p in payloads ==> Fits(p)
    ensures WholeFrames(Stream(payloads)) == payloads
  {
    if payloads != [] {
      FirstFrameIsRead(payloads[0], Stream(payloads[1..]));
      WholeFramesOfStream(payloads[1..]);
    }
  }

  lemma NothingReadOfShortFrame(payload: seq<byte>, rest: seq<byte>, arrived: nat)
    requires Fits(payload) && arrived < |Frame(payload)|
    ensures WholeFrames((Frame(payload) + rest)[..arrived]) == []
    ensures TakeFrame(Leftover((Frame(payload) + rest)[..arrived])) == Starved
  {
    ShortFrameStarves(payload, rest, arrived);
  }

  lemma PrefixAfterFirst(payloads: seq<seq<byte>>, n: nat)
    requires n < |payloads|
    ensures payloads[..n + 1] == [payloads[0]] + payloads[1..][..n]
  {}

  lemma PrefixOfConcat(a: seq<byte>, b: seq<byte>, n: nat)
    requires |a| <= n <= |a| + |b|
    ensures (a + b)[..n] == a + b[..n - |a|]
  {}

  /** Whatever part of a stream has arrived, the reader has read a prefix of its payloads and waits for more. */
  lemma {:induction false} WholeFramesOfPrefix(payloads: seq<seq<byte>>, arrived: nat) returns (count: nat)
    requires forall p :: p in payloads ==> Fits(p)
    requires arrived <= |Stream(payloads)|
    ensures count <= |payloads| && WholeFrames(Stream(payloads)[..arrived]) == payloads[..count]
    ensures TakeFrame(Leftover(Stream(payloads)[..arrived])) == Starved
  {
    count := 0;
    if payloads != [] {
      var first := Frame(payloads[0]);
      var rest := Stream(payloads[1..]);
      if arrived < |first| {
        NothingReadOfShortFrame(payloads[0], rest, arrived);
      } else {
        var more := rest[..arrived - |first|];
        PrefixOfConcat(first, rest, arrived);
        FirstFrameIsRead(payloads[0], more);
        var n := WholeFramesOfPrefix(payloads[1..], arrived - |first|);
        count := n + 1;
        PrefixAfterFirst(payloads, n);
      }
    }
  }

  /** One end of a connection: the bytes that have arrived, and how many of them were read. */
  class FrameReader {
    const received: seq<byte>
    var position: nat

    ghost predicate Valid() reads this { position <= |received| }

    ghost function Unread(): seq<byte>
      reads this
      requires Valid()
    {
      received[position..]
    }

    constructor (received: seq<byte>)
      ensures Valid() && this.received == received && position == 0
    {
      this.received := received;
      position := 0;
    }

    method ReadExact(count: nat) returns (r: Option<seq<byte>>)
      requires Valid()
      modifies this
      ensures Valid()
      ensures count <= |old(Unread())| ==> r == Some(old(Unread())[..count]) && position == old(position) + count
      ensures count > |old(Unread())| ==> r == None && position == |received|
    {
      if count > |received| - position {
        position := |received|;
        return None;
      }
      assert Unread()[..count] == received[position..position + count];
      r := Some(received[position..position + count]);
      position := position + count;
    }

    method ReadFrame() returns (r: Result<seq<byte>, FrameError>)
      requires Valid()
      modifies this
      ensures Valid()
      ensures match TakeFrame(old(Unread()))
        case Taken(payload) =>
          r == Ok(payload) && Unread() == old(Unread())[4 + |payload|..] && position > old(position)
        case Starved => r == Err(Incomplete)
        case Refused => r == Err(TooLarge)
    {
      ghost var unread := Unread();
      var head := ReadExact(4);
      if head == None {
        return Err(Incomplete);
      }
      var length := BigEndian(head.value);
      if length > MAX_FRAME_SIZE {
        return Err(TooLarge);
      }
      assert Unread() == unread[4..];
      var body := ReadExact(length);
      if body == None {
        return Err(Incomplete);
      }
      assert body.value == unread[4..4 + length] && Unread() == unread[4 + length..];
      assert (head.value + body.value)[..4] == head.value;
      r := DecodeFrame(head.value + body.value);
    }
  }
}
