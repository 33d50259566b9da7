/** Reading length-delimited messages (lib/protocol_handler.cpp): five bytes that hold the length and the
    start of the message, and then the rest of it, into one buffer. */
module Framing {

  type Byte = x: nat | x < 256

  const MAX_HEADER_SIZE: nat := 5
  const MAX_BUFFER_SIZE: nat := 1024
  const TWO_TO_THE_32: nat := 0x1_0000_0000

  datatype Option<T> = None | Some(value: T)
  datatype Header = Header(size: nat, offset: nat)

  /** A number in base 128, least significant digit first; every byte but the last has its top bit set. */
  function Varint(n: nat): seq<Byte> {
    if n < 128 then [n] else [n % 128 + 128] + Varint(n / 128)
  }

  function Decode(bytes: seq<Byte>): Option<Header> {
    if bytes == [] then None
    else if bytes[0] < 128 then Some(Header(bytes[0], 1))
    else
      match Decode(bytes[1..])
      case None => None
      case Some(h) => Some(Header(bytes[0] - 128 + 128 * h.size, h.offset + 1))
  }

  /** The length is kept in 32 bits. */
  function ReadVarint32(bytes: seq<Byte>): Option<Header> {
    match Decode(bytes)
    case None => None
    case Some(h) => Some(Header(h.size % TWO_TO_THE_32, h.offset))
  }

  lemma {:induction false} DecodeInvertsVarint(n: nat, tail: seq<Byte>)
    ensures Decode(Varint(n) + tail) == Some(Header(n, |Varint(n)|))
  {
    if n < 128 {
    } else {
      DecodeInvertsVarint(n / 128, tail);
      assert (Varint(n) + tail)[1..] == Varint(n / 128) + tail;
    }
  }

  function Power128(k: nat): nat {
    if k == 0 then 1 else 128 * Power128(k - 1)
  }

  lemma {:induction false} VarintLength(n: nat, k: nat)
    requires n < Power128(k + 1)
    ensures 1 <= |Varint(n)| <= k + 1
    decreases k
  {
    if n < 128 {
    } else {
      assert k > 0;
      VarintLength(n / 128, k - 1);
    }
  }

  /** Every 32-bit length fits into the header that is read for it, and is read back from it. */
  lemma LengthRoundTrip(n: nat, tail: seq<Byte>)
    requires n < TWO_TO_THE_32
    ensures 1 <= |Varint(n)| <= MAX_HEADER_SIZE
    ensures ReadVarint32(Varint(n) + tail) == Some(Header(n, |Varint(n)|))
  {
    assert Power128(5) == 128 * 128 * 128 * 128 * 128;
    VarintLength(n, 4);
    DecodeInvertsVarint(n, tail);
  }

  /** What is still to be read, as the source computes it: in 32 bits, so a message that ends before the
      header does leaves a number just below two to the 32. */
  function Remaining(h: Header): nat
    requires h.offset <= MAX_HEADER_SIZE
  {
    (h.size - (MAX_HEADER_SIZE - h.offset)) % TWO_TO_THE_32
  }

  /** The read stays inside the buffer exactly if header and message have at least 5 and at most 1024
      bytes, and then it ends where the message does. */
  lemma RemainingFits(h: Header)
    requires h.offset <= MAX_HEADER_SIZE && h.size < TWO_TO_THE_32
    ensures MAX_HEADER_SIZE + Remaining(h) <= MAX_BUFFER_SIZE
       <==> MAX_HEADER_SIZE <= h.offset + h.size <= MAX_BUFFER_SIZE
    ensures MAX_HEADER_SIZE <= h.offset + h.size ==> MAX_HEADER_SIZE + Remaining(h) == h.offset + h.size
  {
    var difference := h.size - (MAX_HEADER_SIZE - h.offset);
    if difference < 0 {
      assert difference % TWO_TO_THE_32 == difference + TWO_TO_THE_32;
    }
  }

  /** Why reading stops: the socket has no more bytes for now, or a read would run over the buffer. */
  datatype Stop = WAITING_FOR_HEADER | WAITING_FOR_BODY | OVERRUN

  datatype Outcome = Outcome(messages: seq<seq<Byte>>, stop: Stop)

  lemma {:induction false} OffsetIsInside(bytes: seq<Byte>)
    ensures Decode(bytes).Some? ==> 1 <= Decode(bytes).value.offset <= |bytes|
  {
    if bytes == [] {
    } else {
      OffsetIsInside(bytes[1..]);
    }
  }

  /** What reading a stream of bytes delivers. */
  function Parsed(stream: seq<Byte>): Outcome
    decreases |stream|
  {
    if |stream| < MAX_HEADER_SIZE then Outcome([], WAITING_FOR_HEADER)
    else
      match ReadVarint32(stream[..MAX_HEADER_SIZE])
      case None => Parsed(stream[MAX_HEADER_SIZE..])
      case Some(h) =>
        OffsetIsInside(stream[..MAX_HEADER_SIZE]);
        RemainingFits(h);
        var end := MAX_HEADER_SIZE + Remaining(h);
        if end > MAX_BUFFER_SIZE then Outcome([], OVERRUN)
        else if |stream| < end then Outcome([], WAITING_FOR_BODY)
        else
          var rest := Parsed(stream[end..]);
          Outcome([stream[h.offset..h.offset + h.size]] + rest.messages, rest.stop)
  }

  function Frame(body: seq<Byte>): seq<Byte> {
    Varint(|body|) + body
  }

  function Stream(bodies: seq<seq<Byte>>): seq<Byte> {
    if bodies == [] then [] else Frame(bodies[0]) + Stream(bodies[1..])
  }

  predicate Fits(body: seq<Byte>) {
    MAX_HEADER_SIZE <= |Frame(body)| <= MAX_BUFFER_SIZE
  }

  /** The number of messages before the first that does not fit. */
  function Fitting(bodies: seq<seq<Byte>>): (n: nat)
    ensures n <= |bodies|
    ensures n == |bodies| <==> forall i :: 0 <= i < |bodies| ==> Fits(bodies[i])
  {
    if bodies == [] || !Fits(bodies[0]) then 0 else 1 + Fitting(bodies[1..])
  }

  /** A frame that fits is consumed exactly, whatever follows it. */
  lemma FrameIsConsumed(body: seq<Byte>, rest: seq<Byte>)
    requires Fits(body)
    ensures Parsed(Frame(body) + rest)
         == Outcome([body] + Parsed(rest).messages, Parsed(rest).stop)
  {
    hide Varint, ReadVarint32;
    var stream, h := Frame(body) + rest, Header(|body|, |Varint(|body|)|);
    HeaderIsRead(body, rest);
    RemainingFits(h);
    var end := MAX_HEADER_SIZE + Remaining(h);
    assert end == |Frame(body)|;
    assert stream[end..] == rest;
    assert stream[h.offset..h.offset + h.size] == body;
  }

  lemma HeaderIsRead(body: seq<Byte>, rest: seq<Byte>)
    requires |body| < TWO_TO_THE_32 && |Frame(body) + rest| >= MAX_HEADER_SIZE
    ensures 1 <= |Varint(|body|)| <= MAX_HEADER_SIZE
    ensures ReadVarint32((Frame(body) + rest)[..MAX_HEADER_SIZE]) == Some(Header(|body|, |Varint(|body|)|))
  {
    hide Varint, ReadVarint32;
    LengthRoundTrip(|body|, []);
    var length := Varint(|body|);
    var tail := (body + rest)[..MAX_HEADER_SIZE - |length|];
    assert (Frame(body) + rest)[..MAX_HEADER_SIZE] == length + tail;
    LengthRoundTrip(|body|, tail);
  }

  lemma FrameThatDoesNotFit(body: seq<Byte>, rest: seq<Byte>)
    requires |body| < TWO_TO_THE_32 && !Fits(body)
    ensures Parsed(Frame(body) + rest)
         == Outcome([], if |Frame(body) + rest| < MAX_HEADER_SIZE then WAITING_FOR_HEADER else OVERRUN)
  {
    hide Varint, ReadVarint32;
    if |Frame(body) + rest| >= MAX_HEADER_SIZE {
      HeaderIsRead(body, rest);
      RemainingFits(Header(|body|, |Varint(|body|)|));
    }
  }

  /** Exactly the messages before the first that does not fit are delivered, each unchanged and in order. */
  lemma {:induction false} MessagesBeforeTheFirstMisfit(bodies: seq<seq<Byte>>)
    requires forall i :: 0 <= i < |bodies| ==> |bodies[i]| < TWO_TO_THE_32
    ensures Parsed(Stream(bodies)).messages == bodies[..Fitting(bodies)]
  {
    hide Parsed, Frame, Fits;
    if bodies == [] {
      NothingToRead();
    } else if Fits(bodies[0]) {
      FrameIsConsumed(bodies[0], Stream(bodies[1..]));
      MessagesBeforeTheFirstMisfit(bodies[1..]);
    } else {
      FrameThatDoesNotFit(bodies[0], Stream(bodies[1..]));
    }
  }

  lemma NothingToRead()
    ensures Parsed([]) == Outcome([], WAITING_FOR_HEADER)
  {
  }

  /** Framing stays aligned, for all sequences of messages, if and only if every frame has at least 5 and at
      most 1024 bytes. */
  lemma FramingIsExactIffFramesFit(bodies: seq<seq<Byte>>)
    requires forall i :: 0 <= i < |bodies| ==> |bodies[i]| < TWO_TO_THE_32
    ensures Parsed(Stream(bodies)).messages == bodies
       <==> forall i :: 0 <= i < |bodies| ==> MAX_HEADER_SIZE <= |Frame(bodies[i])| <= MAX_BUFFER_SIZE
  {
    hide Parsed, Frame;
    MessagesBeforeTheFirstMisfit(bodies);
    assert forall i :: 0 <= i < |bodies| ==>
      (Fits(bodies[i]) <==> MAX_HEADER_SIZE <= |Frame(bodies[i])| <= MAX_BUFFER_SIZE);
  }

  /** Two reads, one after the other, are one. */
  lemma ReadsJoin(buffer: seq<Byte>, stream: seq<Byte>, middle: nat, end: nat)
    requires middle <= end <= |buffer| && end <= |stream|
    requires buffer[..middle] == stream[..middle] && buffer[middle..end] == stream[middle..][..end - middle]
    ensures buffer[..end] == stream[..end] && stream[middle..][end - middle..] == stream[end..]
  {
    assert buffer[..end] == buffer[..middle] + buffer[middle..end];
    assert stream[..end] == stream[..middle] + stream[middle..end];
  }

  class ProtocolHandler {
    const buffer: array<Byte>
    var size: nat
    var offset: nat
    var incoming: seq<Byte>
    var delivered: seq<seq<Byte>>

    constructor (incoming: seq<Byte>)
      ensures fresh(buffer) && buffer.Length == MAX_BUFFER_SIZE
      ensures this.incoming == incoming && delivered == []
    {
      buffer := new Byte[MAX_BUFFER_SIZE](_ => 0);
      size, offset := 0, 0;
      this.incoming, delivered := incoming, [];
    }

    /** A read of exactly count bytes into the buffer; it does not complete while there are fewer. */
    method Read(at: nat, count: nat) returns (complete: bool)
      requires at + count <= buffer.Length
      modifies this`incoming, buffer
      ensures complete == (count <= |old(incoming)|)
      ensures !complete ==> incoming == old(incoming) && buffer[..] == old(buffer[..])
      ensures complete ==> incoming == old(incoming)[count..]
      ensures complete ==> buffer[..at] == old(buffer[..at]) && buffer[at..at + count] == old(incoming)[..count]
    {
      complete := count <= |incoming|;
      if complete {
        for i := 0 to count
          invariant incoming == old(incoming)
          invariant buffer[..at] == old(buffer[..at]) && buffer[at..at + i] == incoming[..i]
        {
          buffer[at + i] := incoming[i];
        }
        incoming := incoming[count..];
      }
    }

    /** The header is parsed: how many bytes are to be read next, unless there is no length in it. */
    method OnReadHeader() returns (remaining: Option<nat>)
      requires buffer.Length == MAX_BUFFER_SIZE
      modifies this`size, this`offset
      ensures var header := ReadVarint32(buffer[..MAX_HEADER_SIZE]);
              match header
              case None => remaining == None
              case Some(h) => size == h.size < TWO_TO_THE_32 && offset == h.offset <= MAX_HEADER_SIZE
                              && remaining == Some(Remaining(h))
    {
      OffsetIsInside(buffer[..MAX_HEADER_SIZE]);
      match ReadVarint32(buffer[..MAX_HEADER_SIZE])
      case None =>
        remaining := None;
      case Some(h) =>
        size, offset := h.size, h.offset;
        remaining := Some(Remaining(h));
    }

    /** The message is handed on from the buffer. */
    method OnReadBody()
      requires offset + size <= buffer.Length
      modifies this`delivered
      ensures delivered == old(delivered) + [buffer[offset..offset + size]]
    {
      delivered := delivered + [buffer[offset..offset + size]];
    }

    /** One message, or one header without a length, unless reading stops. */
    method AttemptRead() returns (stop: Option<Stop>)
      requires buffer.Length == MAX_BUFFER_SIZE
      modifies this, buffer
      ensures var was, now := Parsed(old(incoming)), Parsed(incoming);
              match stop
              case None => |incoming| < |old(incoming)| && was.stop == now.stop
                           && delivered + now.messages == old(delivered) + was.messages
              case Some(why) => |incoming| <= |old(incoming)| && was.stop == why
                                && delivered == old(delivered) + was.messages
    {
      hide ReadVarint32, Remaining;
      ghost var stream := incoming;
      var complete := Read(0, MAX_HEADER_SIZE);
      if !complete {
        return Some(WAITING_FOR_HEADER);
      }
      assert buffer[..MAX_HEADER_SIZE] == stream[..MAX_HEADER_SIZE];
      var remaining := OnReadHeader();
      if remaining == None {
        return None;
      }
      RemainingFits(Header(size, offset));
      if MAX_HEADER_SIZE + remaining.value > MAX_BUFFER_SIZE {
        return Some(OVERRUN);
      }
      complete := Read(MAX_HEADER_SIZE, remaining.value);
      if !complete {
        return Some(WAITING_FOR_BODY);
      }
      ghost var end := MAX_HEADER_SIZE + remaining.value;
      ReadsJoin(buffer[..], stream, MAX_HEADER_SIZE, end);
      assert buffer[offset..offset + size] == buffer[..end][offset..offset + size];
      OnReadBody();
      return None;
    }

    /** Reads as long as there are bytes and no read runs over the buffer. */
    method ReadAll() returns (stop: Stop)
      requires buffer.Length == MAX_BUFFER_SIZE
      modifies this, buffer
      ensures delivered == old(delivered) + Parsed(old(incoming)).messages
      ensures stop == Parsed(old(incoming)).stop
    {
      hide Parsed;
      var next := AttemptRead();
      while next == None
        invariant next == None ==>
                    && delivered + Parsed(incoming).messages == old(delivered) + Parsed(old(incoming)).messages
                    && Parsed(incoming).stop == Parsed(old(incoming)).stop
        invariant next.Some? ==>
                    && delivered == old(delivered) + Parsed(old(incoming)).messages
                    && next.value == Parsed(old(incoming)).stop
        decreases |incoming|, next == None
      {
        next := AttemptRead();
      }
      stop := next.value;
    }
  }
}
