/** Framing of messages on a byte stream, in both header versions, and the receiving machine of the
    stream client and the server sessions. */
module Framing {
  import opened Options

  type Byte = x: int | 0 <= x < 256
  type Word = x: int | 0 <= x < 0x1_0000      // uint16_t

  const TWO_32 := 0x1_0000_0000
  const TWO_64 := 0x1_0000_0000_0000_0000

  datatype Version = V1 | V2

  /** A serialized message with its component and type numbers. */
  datatype Message = Message(component: Word, kind: Word, payload: seq<Byte>)

  /** What receiving a frame leads to: a delivered message, one that was refused by the message
      register, or a read past the received bytes, whose outcome is left open. */
  datatype Event = Received(m: Message) | Refused(component: Word, kind: Word) | Overrun

  /** Whether the message register knows the message and can parse it. */
  type Register = Message -> bool

  // --- numbers in network byte order ----------------------------------------

  function Big16(n: Word): seq<Byte> {
    [n / 256, n % 256]
  }

  function From16(b: seq<Byte>): Word
    requires |b| == 2
  {
    b[0] as int * 256 + b[1]
  }

  /** htonl() of a number that may be too wide. */
  function Big32(n: nat): seq<Byte> {
    [n / 0x100_0000 % 256, n / 0x1_0000 % 256, n / 256 % 256, n % 256]
  }

  function From32(b: seq<Byte>): nat
    requires |b| == 4
  {
    b[0] as int * 0x100_0000 + b[1] as int * 0x1_0000 + b[2] as int * 256 + b[3]
  }

  lemma RoundTrip16(n: Word)
    ensures From16(Big16(n)) == n
  {
  }

  lemma RoundTrip32(n: nat)
    ensures From32(Big32(n)) == n % TWO_32
  {
    var a := n / 256;
    var b := a / 256;
    assert n / 0x1_0000 == b && n / 0x100_0000 == b / 256;
    assert n == (((b / 256) * 256 + b % 256) * 256 + a % 256) * 256 + n % 256;
    assert b / 256 == (b / 256) / 256 * 256 + (b / 256) % 256;
  }

  // --- sending --------------------------------------------------------------

  /** A message to send, and the reserved bytes of its header, which nobody sets. */
  datatype Entry = Entry(m: Message, reserved: (Byte, Byte))

  function MessageHeader(m: Message): (h: seq<Byte>)
    ensures |h| == 4
  {
    Big16(m.component) + Big16(m.kind)
  }

  /** The payload size field as serialize() fills it in. */
  function SizeField(m: Message): (b: seq<Byte>)
    ensures |b| == 4
  {
    Big32(4 + |m.payload|)
  }

  function Header(v: Version, e: Entry): (h: seq<Byte>)
    ensures |h| == 8
  {
    match v
    case V1 => MessageHeader(e.m) + Big32((From32(SizeField(e.m)) - 4) % TWO_64)
    case V2 => [2, 0, e.reserved.0, e.reserved.1] + SizeField(e.m)
  }

  function Frame(v: Version, e: Entry): seq<Byte> {
    Header(v, e) + (if v.V1? then [] else MessageHeader(e.m)) + e.m.payload
  }

  /** The number that four bytes stand for, the most significant one first. */
  function NumberOf(b: seq<Byte>): nat
    requires |b| == 4
  {
    ((b[0] as int * 256 + b[1]) * 256 + b[2]) * 256 + b[3]
  }

  /** Four bytes with the component and type numbers of the message, most significant bytes first. */
  predicate IdsAre(b: seq<Byte>, m: Message)
    requires |b| == 4
  {
    b[0] as int * 256 + b[1] == m.component && b[2] as int * 256 + b[3] == m.kind
  }

  /** serialize() and the framing part of send(). */
  method Serialize(v: Version, e: Entry) returns (buffers: seq<seq<Byte>>)
    ensures |buffers| == 3 && buffers[0] + buffers[1] + buffers[2] == Frame(v, e)
    ensures buffers[2] == e.m.payload
    ensures v.V1? ==> buffers[1] == [] && |buffers[0]| == 8 && IdsAre(buffers[0][..4], e.m)
    ensures v.V1? ==> NumberOf(buffers[0][4..]) == ((4 + |e.m.payload|) % TWO_32 - 4) % TWO_64 % TWO_32
    ensures v.V2? ==> |buffers[0]| == 8 && buffers[0][..4] == [2, 0, e.reserved.0, e.reserved.1]
    ensures v.V2? ==> NumberOf(buffers[0][4..]) == (4 + |e.m.payload|) % TWO_32
    ensures v.V2? ==> |buffers[1]| == 4 && IdsAre(buffers[1], e.m)
  {
    RoundTrip32(4 + |e.m.payload|);
    RoundTrip32(((4 + |e.m.payload|) % TWO_32 - 4) % TWO_64);
    var messageHeader := Big16(e.m.component) + Big16(e.m.kind);
    var payloadSize := Big32(4 + |e.m.payload|);
    if v.V1? {
      var size := (From32(payloadSize) - 4) % TWO_64;
      buffers := [messageHeader + Big32(size), [], e.m.payload];
    } else {
      buffers := [[2, 0, e.reserved.0, e.reserved.1] + payloadSize, messageHeader, e.m.payload];
    }
  }

  // --- receiving ------------------------------------------------------------

  /** How many bytes follow a frame header. */
  function ToRead(h: seq<Byte>): nat
    requires |h| == 8
  {
    From32(h[4..])
  }

  /** The size that is given to the parser, computed in size_t arithmetic. */
  function DataSize(v: Version, h: seq<Byte>): nat
    requires |h| == 8
  {
    var payloadSize := if v.V1? then From32(Big32(ToRead(h) + 4)) else ToRead(h);
    (payloadSize - 4) % TWO_64
  }

  function Deliver(reg: Register, m: Message): Event {
    if reg(m) then Received(m) else Refused(m.component, m.kind)
  }

  /** What the frame with this header and these bytes leads to. */
  function EventOf(v: Version, reg: Register, h: seq<Byte>, data: seq<Byte>): Event
    requires |h| == 8
  {
    var skip := if v.V1? then 0 else 4;
    if |data| < skip + DataSize(v, h) then Overrun
    else
      var ids := if v.V1? then h[..4] else data[..4];
      Deliver(reg, Message(From16(ids[..2]), From16(ids[2..]), data[skip..skip + DataSize(v, h)]))
  }

  /** The event is that of the message with the ids `ids` and this payload: it is delivered if the register
      knows it and can parse it, and refused otherwise. */
  predicate Tells(reg: Register, ids: seq<Byte>, payload: seq<Byte>, e: Event)
    requires |ids| == 4
  {
    var m := Message(ids[0] as int * 256 + ids[1], ids[2] as int * 256 + ids[3], payload);
    e == if reg(m) then Received(m) else Refused(m.component, m.kind)
  }

  /** What the bytes `data` behind the header `h` lead to: in the old version the ids are in the header and
      all of `data` is payload, in the new one the ids come first in `data`. It overruns exactly if there
      is no room for the ids, or if their size does not fit into the size field as well. */
  predicate EventIs(v: Version, reg: Register, h: seq<Byte>, data: seq<Byte>, e: Event)
    requires |h| == 8
  {
    match v
    case V1 => if |data| + 4 < TWO_32 then Tells(reg, h[..4], data, e) else e == Overrun
    case V2 => if |data| >= 4 then Tells(reg, data[..4], data[4..], e) else e == Overrun
  }

  lemma EventIsExact(v: Version, reg: Register, h: seq<Byte>, data: seq<Byte>)
    requires |h| == 8 && |data| == ToRead(h)
    ensures EventIs(v, reg, h, data, EventOf(v, reg, h, data))
  {
    SizesWrap(|data|);
    RoundTrip32(|data| + 4);
    if v.V1? {
      assert |data| + 4 < TWO_32 ==> data[0..|data|] == data;
    } else {
      assert |data| >= 4 ==> data[4..4 + (|data| - 4)] == data[4..];
    }
  }

  lemma SizesWrap(n: nat)
    requires n < TWO_32
    ensures ((n + 4) % TWO_32 - 4) % TWO_64 == if n + 4 < TWO_32 then n else n - TWO_32 + TWO_64
    ensures (n - 4) % TWO_64 == if n >= 4 then n - 4 else n - 4 + TWO_64
  {
  }

  /** The first frame of a stream, if it is complete, and the bytes after it. */
  function ReadFrame(v: Version, reg: Register, s: seq<Byte>): Option<(Event, seq<Byte>)> {
    if |s| < 8 || |s| < 8 + ToRead(s[..8]) then None
    else
      var n := ToRead(s[..8]);
      Some((EventOf(v, reg, s[..8], s[8..8 + n]), s[8 + n..]))
  }

  /** All complete frames of a stream, and the bytes of the incomplete one at its end. */
  function Receive(v: Version, reg: Register, s: seq<Byte>): (seq<Event>, seq<Byte>)
    decreases |s|
  {
    match ReadFrame(v, reg, s)
    case None => ([], s)
    case Some((e, rest)) =>
      var (es, left) := Receive(v, reg, rest);
      ([e] + es, left)
  }

  /** The receiving half of the stream client and of a session. */
  class Receiver {
    const version: Version
    var inFrameHeader: array<Byte>
    var inData: array<Byte>

    ghost predicate Valid()
      reads this
    {
      inFrameHeader.Length == 8 && inFrameHeader != inData
    }

    constructor (v: Version)
      ensures Valid() && version == v && fresh(inFrameHeader) && fresh(inData)
    {
      version := v;
      inFrameHeader := new Byte[8](_ => 0);
      inData := new Byte[1024](_ => 0);
    }

    /** The first eight bytes have come in; returns how many to read next.  The data buffer is replaced by
        a larger one if needed, and otherwise still holds earlier frames. */
    method HandleReadHeader(h: seq<Byte>) returns (toRead: nat)
      requires Valid() && |h| == 8
      modifies this`inData, inFrameHeader
      ensures Valid() && inFrameHeader == old(inFrameHeader) && inFrameHeader[..] == h
      ensures inData == old(inData) || fresh(inData)
      ensures toRead == ToRead(h) && toRead <= inData.Length
      ensures toRead == NumberOf(h[4..])
    {
      forall i | 0 <= i < 8 {
        inFrameHeader[i] := h[i];
      }
      assert inFrameHeader[..] == h;
      toRead := From32(inFrameHeader[4..]);
      if toRead > inData.Length {
        var bigger := new Byte[toRead](_ => 0);
        inData := bigger;
      }
    }

    /** The bytes that belong to the header have come in. */
    method HandleReadMessage(reg: Register, data: seq<Byte>) returns (e: Event)
      requires Valid() && |data| == ToRead(inFrameHeader[..]) && |data| <= inData.Length
      modifies inData
      ensures inFrameHeader[..] == old(inFrameHeader[..])
      ensures e == EventOf(version, reg, inFrameHeader[..], data)
      ensures EventIs(version, reg, inFrameHeader[..], data, e)
    {
      EventIsExact(version, reg, inFrameHeader[..], data);
      forall i | 0 <= i < |data| {
        inData[i] := data[i];
      }
      assert inData[..|data|] == data;
      var h := inFrameHeader[..];
      var size, skip, ids: seq<Byte>;
      if version.V1? {
        size, skip, ids := From32(Big32(From32(h[4..]) + 4)), 0, h[..4];
      } else {
        size, skip, ids := From32(h[4..]), 4, if |data| >= 4 then inData[..4] else [0, 0, 0, 0];
      }
      size := (size - 4) % TWO_64;
      assert size == DataSize(version, h);
      if |data| < skip + size {
        return Overrun;
      }
      var m := Message(From16(ids[..2]), From16(ids[2..]), inData[skip..skip + size]);
      assert inData[skip..skip + size] == data[skip..skip + size];
      e := if reg(m) then Received(m) else Refused(m.component, m.kind);
    }

    /** The completion handlers taking turns until the stream ends within a frame. */
    method ReadAll(reg: Register, s: seq<Byte>) returns (events: seq<Event>, left: seq<Byte>)
      requires Valid()
      modifies this, inFrameHeader, inData
      ensures (events, left) == Receive(version, reg, s)
    {
      events, left := [], s;
      ghost var whole := Receive(version, reg, s);
      assert [] + whole.0 == whole.0;
      while |left| >= 8
        invariant Valid() && inFrameHeader == old(inFrameHeader) && (inData == old(inData) || fresh(inData))
        invariant events + Receive(version, reg, left).0 == whole.0 && Receive(version, reg, left).1 == whole.1
        decreases |left|
      {
        var toRead := HandleReadHeader(left[..8]);
        if |left| < 8 + toRead {
          break;
        }
        var e := HandleReadMessage(reg, left[8..8 + toRead]);
        OneMore(events, e, Receive(version, reg, left[8 + toRead..]).0);
        events := events + [e];
        left := left[8 + toRead..];
      }
      assert Receive(version, reg, left) == ([], left);
      assert events + [] == events;
    }
  }

  lemma OneMore(es: seq<Event>, e: Event, more: seq<Event>)
    ensures es + ([e] + more) == es + [e] + more
  {
  }

  // --- round trips ----------------------------------------------------------

  /** The header says how long the rest of the frame is exactly if that fits into the size field. */
  lemma HeaderSizes(v: Version, e: Entry)
    ensures var n := |e.m.payload|;
            && ToRead(Header(v, e)) == (if v.V1? then n else 4 + n) % TWO_32
            && DataSize(v, Header(v, e)) == ((4 + n) % TWO_32 - 4) % TWO_64
  {
    var h, n := Header(v, e), |e.m.payload|;
    RoundTrip32(4 + n);
    if v.V1? {
      assert h[4..] == Big32((From32(SizeField(e.m)) - 4) % TWO_64);
      RoundTrip32((From32(SizeField(e.m)) - 4) % TWO_64);
      RoundTrip32(ToRead(h) + 4);
      WrapTwice(n);
    } else {
      assert h[4..] == SizeField(e.m);
    }
  }

  lemma WrapTwice(n: nat)
    ensures (((4 + n) % TWO_32 - 4) % TWO_64) % TWO_32 == n % TWO_32
    ensures (n % TWO_32 + 4) % TWO_32 == (4 + n) % TWO_32
  {
  }

  function Ids(v: Version, m: Message): seq<Byte> {
    if v.V1? then [] else MessageHeader(m)
  }

  /** One frame comes back as the message it was made from, and the machine stands behind it, exactly
      if payload and message header fit into the size field. */
  lemma FrameRoundTrip(v: Version, reg: Register, e: Entry, rest: seq<Byte>)
    ensures var event := if reg(e.m) then Received(e.m) else Refused(e.m.component, e.m.kind);
            ReadFrame(v, reg, Frame(v, e) + rest) == Some((event, rest)) <==> |e.m.payload| + 4 < TWO_32
  {
    if |e.m.payload| + 4 < TWO_32 {
      FittingFrame(v, reg, e, rest);
    } else {
      OversizeFrame(v, reg, e, rest);
    }
  }

  /** Cutting a frame with header `h` and contents `d` out of the stream. */
  lemma Cut(h: seq<Byte>, d: seq<Byte>, rest: seq<Byte>)
    requires |h| == 8
    ensures var s := h + d + rest;
            s[..8] == h && s[8..8 + |d|] == d && s[8 + |d|..] == rest && |s| == 8 + |d| + |rest|
  {
  }

  lemma FrameParts(v: Version, e: Entry, rest: seq<Byte>)
    ensures Frame(v, e) + rest == Header(v, e) + (Ids(v, e.m) + e.m.payload) + rest
  {
  }

  lemma FrameSize(v: Version, e: Entry)
    ensures |e.m.payload| + 4 < TWO_32 ==>
              ToRead(Header(v, e)) == |Ids(v, e.m) + e.m.payload| && DataSize(v, Header(v, e)) == |e.m.payload|
    ensures |e.m.payload| + 4 >= TWO_32 ==>
              || ToRead(Header(v, e)) != |Ids(v, e.m) + e.m.payload|
              || (v.V1? && DataSize(v, Header(v, e)) > |e.m.payload|)
  {
    HeaderSizes(v, e);
    Wraps(|e.m.payload|);
  }

  lemma Wraps(n: nat)
    ensures n + 4 < TWO_32 ==> n % TWO_32 == n && (4 + n) % TWO_32 == 4 + n && ((4 + n) % TWO_32 - 4) % TWO_64 == n
    ensures n + 4 >= TWO_32 ==>
              (4 + n) % TWO_32 != 4 + n && (n % TWO_32 != n || ((4 + n) % TWO_32 - 4) % TWO_64 > n)
  {
  }

  lemma OversizeFrame(v: Version, reg: Register, e: Entry, rest: seq<Byte>)
    requires |e.m.payload| + 4 >= TWO_32
    ensures ReadFrame(v, reg, Frame(v, e) + rest) != Some((Deliver(reg, e.m), rest))
  {
    var h, d := Header(v, e), Ids(v, e.m) + e.m.payload;
    FrameParts(v, e, rest);
    Cut(h, d, rest);
    FrameSize(v, e);
    if ToRead(h) == |d| {
      assert EventOf(v, reg, h, d) == Overrun;
    } else if ReadFrame(v, reg, h + d + rest).Some? {
      assert |ReadFrame(v, reg, h + d + rest).value.1| == |d| + |rest| - ToRead(h);
    }
  }

  lemma FittingFrame(v: Version, reg: Register, e: Entry, rest: seq<Byte>)
    requires |e.m.payload| + 4 < TWO_32
    ensures ReadFrame(v, reg, Frame(v, e) + rest) == Some((Deliver(reg, e.m), rest))
  {
    FrameParts(v, e, rest);
    Cut(Header(v, e), Ids(v, e.m) + e.m.payload, rest);
    FrameSize(v, e);
    FittingEvent(v, reg, e);
  }

  lemma FittingEvent(v: Version, reg: Register, e: Entry)
    requires |e.m.payload| + 4 < TWO_32
    ensures EventOf(v, reg, Header(v, e), Ids(v, e.m) + e.m.payload) == Deliver(reg, e.m)
  {
    FrameSize(v, e);
    IdsRoundTrip(e.m);
    if v.V1? {
      assert Header(v, e)[..4] == MessageHeader(e.m);
      assert (Ids(v, e.m) + e.m.payload)[0..|e.m.payload|] == e.m.payload;
    } else {
      assert (Ids(v, e.m) + e.m.payload)[..4] == MessageHeader(e.m);
      assert (Ids(v, e.m) + e.m.payload)[4..4 + |e.m.payload|] == e.m.payload;
    }
  }

  lemma IdsRoundTrip(m: Message)
    ensures From16(MessageHeader(m)[..2]) == m.component && From16(MessageHeader(m)[2..]) == m.kind
  {
    assert MessageHeader(m)[..2] == Big16(m.component) && MessageHeader(m)[2..] == Big16(m.kind);
    RoundTrip16(m.component);
    RoundTrip16(m.kind);
  }

  /** A complete frame is read the same whatever follows it. */
  lemma ReadFrameMore(v: Version, reg: Register, s: seq<Byte>, t: seq<Byte>)
    requires ReadFrame(v, reg, s).Some?
    ensures ReadFrame(v, reg, s + t) == Some((ReadFrame(v, reg, s).value.0, ReadFrame(v, reg, s).value.1 + t))
  {
    var n := ToRead(s[..8]);
    assert (s + t)[..8] == s[..8];
    assert (s + t)[8..8 + n] == s[8..8 + n];
    assert (s + t)[8 + n..] == s[8 + n..] + t;
  }

  /** The stream may come in any pieces: what the complete frames of a first piece do not use up and
      the next piece give the rest of the events. */
  lemma {:induction false} PiecesAddUp(v: Version, reg: Register, s: seq<Byte>, t: seq<Byte>)
    ensures var first := Receive(v, reg, s);
            var second := Receive(v, reg, first.1 + t);
            Receive(v, reg, s + t).0 == first.0 + second.0 && Receive(v, reg, s + t).1 == second.1
    decreases |s|
  {
    if ReadFrame(v, reg, s).Some? {
      var (e, after) := ReadFrame(v, reg, s).value;
      ReadFrameMore(v, reg, s, t);
      PiecesAddUp(v, reg, after, t);
      var first := Receive(v, reg, after);
      EventsAssociate(e, first.0, Receive(v, reg, first.1 + t).0);
    }
  }

  lemma EventsAssociate(e: Event, a: seq<Event>, b: seq<Event>)
    ensures [e] + (a + b) == ([e] + a) + b
  {
  }

  function Frames(v: Version, es: seq<Entry>): seq<Byte> {
    if es == [] then [] else Frame(v, es[0]) + Frames(v, es[1..])
  }

  /** A stream of frames is received as exactly the messages sent, in order: those the register knows are
      delivered and the others refused; and the machine stops between two frames. */
  lemma {:induction false} StreamRoundTrip(v: Version, reg: Register, es: seq<Entry>)
    requires forall i | 0 <= i < |es| :: |es[i].m.payload| + 4 < TWO_32
    ensures var (events, left) := Receive(v, reg, Frames(v, es));
            && left == [] && |events| == |es|
            && forall i | 0 <= i < |es| ::
                 events[i] == if reg(es[i].m) then Received(es[i].m) else Refused(es[i].m.component, es[i].m.kind)
    decreases |es|
  {
    if es == [] {
    } else {
      StreamRoundTrip(v, reg, es[1..]);
      EventsShift(v, reg, es);
    }
  }

  lemma EventsShift(v: Version, reg: Register, es: seq<Entry>)
    requires es != [] && |es[0].m.payload| + 4 < TWO_32
    ensures var (rest, left) := Receive(v, reg, Frames(v, es[1..]));
            var event := if reg(es[0].m) then Received(es[0].m) else Refused(es[0].m.component, es[0].m.kind);
            Receive(v, reg, Frames(v, es)) == ([event] + rest, left)
  {
    FrameRoundTrip(v, reg, es[0], Frames(v, es[1..]));
  }

  /** One frame, read by the two handlers one after the other. */
  method ReceiveOne(r: Receiver, reg: Register, e: Entry) returns (event: Event)
    requires r.Valid() && |e.m.payload| + 4 < TWO_32
    modifies r`inData, r.inFrameHeader, r.inData
    ensures event == if reg(e.m) then Received(e.m) else Refused(e.m.component, e.m.kind)
  {
    var frame := Frame(r.version, e);
    FrameParts(r.version, e, []);
    Cut(Header(r.version, e), Ids(r.version, e.m) + e.m.payload, []);
    assert frame + [] == frame;
    FrameSize(r.version, e);
    FittingEvent(r.version, reg, e);
    var toRead := r.HandleReadHeader(frame[..8]);
    event := r.HandleReadMessage(reg, frame[8..8 + toRead]);
  }

  /** Refusing messages does not move the frame boundaries. */
  lemma {:induction false} RefusalKeepsSync(v: Version, reg: Register, reg': Register, s: seq<Byte>)
    ensures Receive(v, reg, s).1 == Receive(v, reg', s).1
    ensures |Receive(v, reg, s).0| == |Receive(v, reg', s).0|
    decreases |s|
  {
    if ReadFrame(v, reg, s).Some? {
      RefusalKeepsSync(v, reg, reg', ReadFrame(v, reg, s).value.1);
    }
  }
}
