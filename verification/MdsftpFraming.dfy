/** MDSFTP framing: packets of all channels follow each other on one byte stream, each behind a
    nine-byte header. */
module MdsftpFraming {
  import opened Common
  import opened BigEndian
  import opened MdsftpPackets

  const HEADER_SIZE := 9

  datatype Raw = Raw(kind: Kind, streamId: nat, payload: seq<byte>)

  datatype Stop = HeaderReadFailed | UnknownKind | PreValidateFailed | PayloadReadFailed

  /** The size field holds the payload length truncated to 32 bits. */
  function Header(id: byte, streamId: nat, size: nat): (bytes: seq<byte>)
    ensures |bytes| == HEADER_SIZE
  {
    [id] + ToBE(streamId, 4) + ToBE(size, 4)
  }

  function Frame(raw: Raw): seq<byte> {
    Header(Id(raw.kind), raw.streamId, |raw.payload|) + raw.payload
  }

  // ---- writer

  method WriteHeader(id: byte, streamId: nat, size: nat, buf: array<byte>)
    requires buf.Length == HEADER_SIZE
    modifies buf
    ensures buf[..] == Header(id, streamId, size)
  {
    hide ToBE;
    var s, z := ToBE(streamId, 4), ToBE(size, 4);
    buf[0] := id;
    buf[1], buf[2], buf[3], buf[4] := s[0], s[1], s[2], s[3];
    buf[5], buf[6], buf[7], buf[8] := z[0], z[1], z[2], z[3];
    assert buf[..] == [id] + s + z;
  }

  class PacketWriter {
    const headerBuf: array<byte>
    var stream: seq<byte>

    ghost predicate Valid() reads this {
      headerBuf.Length == HEADER_SIZE
    }

    constructor ()
      ensures Valid() && fresh(headerBuf) && stream == []
    {
      headerBuf := new byte[HEADER_SIZE];
      stream := [];
    }

    /** Panics on a payload whose length does not fit its header field. */
    method WriteRawPacket(raw: Raw)
      requires Valid() && |raw.payload| < U32
      modifies this, headerBuf
      ensures Valid() && stream == old(stream) + Frame(raw)
    {
      WriteHeader(Id(raw.kind), raw.streamId, |raw.payload|, headerBuf);
      stream := stream + headerBuf[..];
      stream := stream + raw.payload;
    }

    /** Writes a file chunk from two buffers; the length is cast to 32 bits, not checked. */
    method WriteChunk(streamId: nat, payloadHeader: seq<byte>, payload: seq<byte>)
      requires Valid()
      modifies this, headerBuf
      ensures Valid() && stream == old(stream) + Frame(Raw(FileChunkK, streamId, payloadHeader + payload))
    {
      WriteHeader(Id(FileChunkK), streamId, |payloadHeader| + |payload|, headerBuf);
      stream := stream + headerBuf[..];
      stream := stream + payloadHeader;
      stream := stream + payload;
    }

    /** What a channel's send methods come to. */
    method Send(streamId: nat, p: Packet)
      requires Valid()
      modifies this, headerBuf
      ensures Valid() && stream == old(stream) + Frame(Raw(p.Kind(), streamId, Payload(p)))
    {
      hide ToBE;
      PayloadLength(p);
      if p.FileChunk? {
        WriteChunk(streamId, [if p.isLast then 1 else 0] + ToBE(p.index, 4), p.content);
      } else {
        WriteRawPacket(Raw(p.Kind(), streamId, Payload(p)));
      }
    }
  }

  // ---- reader

  function Reads(input: seq<byte>): (r: (seq<Raw>, Stop))
    ensures forall i :: 0 <= i < |r.0| ==> PreValidate(r.0[i].kind, |r.0[i].payload|)
    decreases |input|
  {
    if |input| < HEADER_SIZE then ([], HeaderReadFailed)
    else
      var kind, size := KindOf(input[0]), At(input, 5, 4);
      if kind.None? then ([], UnknownKind)
      else if !PreValidate(kind.value, size) then ([], PreValidateFailed)
      else if |input| < HEADER_SIZE + size then ([], PayloadReadFailed)
      else
        var (raws, stop) := Reads(input[HEADER_SIZE + size..]);
        ([Raw(kind.value, At(input, 1, 4), input[HEADER_SIZE..HEADER_SIZE + size])] + raws, stop)
  }

  /** The read loop. It leaves, closing the connection, at the first thing it cannot read. */
  method Start(input: seq<byte>) returns (raws: seq<Raw>, stop: Stop)
    ensures raws == Reads(input).0 && stop == Reads(input).1
  {
    raws := [];
    var rest := input;
    while true
      invariant Reads(input).0 == raws + Reads(rest).0 && Reads(input).1 == Reads(rest).1
      decreases |rest|
    {
      if |rest| < HEADER_SIZE { stop := HeaderReadFailed; break; }
      var kind := KindOf(rest[0]);
      if kind.None? { stop := UnknownKind; break; }
      var size := At(rest, 5, 4);
      if !PreValidate(kind.value, size) { stop := PreValidateFailed; break; }
      if |rest| < HEADER_SIZE + size { stop := PayloadReadFailed; break; }
      var raw := Raw(kind.value, At(rest, 1, 4), rest[HEADER_SIZE..HEADER_SIZE + size]);
      assert Reads(rest).0 == [raw] + Reads(rest[HEADER_SIZE + size..]).0;
      raws := raws + [raw];
      rest := rest[HEADER_SIZE + size..];
    }
  }

  // ---- round trip

  /** The universal header: packet id, stream id, payload size. */
  lemma HeaderIsTabulated(id: byte, streamId: nat, size: nat)
    ensures Header(id, streamId, size) == Tabulated([Col(1, id), Col(4, streamId), Col(4, size)])
  {
    hide ToBE, Tabulated;
    OneByte(id);
    TabulatedAre(Col(1, id), Col(4, streamId), Col(4, size), Col(0, 0));
  }

  lemma HeaderFields(id: byte, streamId: nat, size: nat, rest: seq<byte>)
    requires streamId < U32
    ensures var b := Header(id, streamId, size) + rest;
            b[0] == id && At(b, 1, 4) == streamId && At(b, 5, 4) == size % U32
  {
    hide ToBE, FromBE, Pow256;
    Widths();
    var s, z := ToBE(streamId, 4), ToBE(size, 4);
    var b := Header(id, streamId, size) + rest;
    assert b == [id] + s + (z + rest);
    AtFinds([id], streamId, 4, z + rest);
    assert b[5..9] == z;
    FromTo(size, 4);
  }

  /** One well-sized frame is taken off the front of the stream as it was put on. */
  lemma FrameIsRead(raw: Raw, rest: seq<byte>)
    requires raw.streamId < U32 && |raw.payload| < U32 && PreValidate(raw.kind, |raw.payload|)
    ensures Reads(Frame(raw) + rest) == ([raw] + Reads(rest).0, Reads(rest).1)
  {
    hide Header, Id, KindOf, FromBE;
    var header := Header(Id(raw.kind), raw.streamId, |raw.payload|);
    var input := Frame(raw) + rest;
    assert input == header + (raw.payload + rest);
    HeaderFields(Id(raw.kind), raw.streamId, |raw.payload|, raw.payload + rest);
    KindIsKnown(raw.kind);
    assert input[HEADER_SIZE..HEADER_SIZE + |raw.payload|] == raw.payload;
    assert input[HEADER_SIZE + |raw.payload|..] == rest;
  }

  lemma KindIsKnown(k: Kind)
    ensures KindOf(Id(k)) == Some(k)
  {
  }

  /** A frame of a length its kind does not allow ends the connection. */
  lemma BadLengthStops(raw: Raw, rest: seq<byte>)
    requires raw.streamId < U32 && !PreValidate(raw.kind, |raw.payload| % U32)
    ensures Reads(Frame(raw) + rest) == ([], PreValidateFailed)
  {
    hide Header, Id, KindOf, FromBE;
    var input := Frame(raw) + rest;
    assert input == Header(Id(raw.kind), raw.streamId, |raw.payload|) + (raw.payload + rest);
    HeaderFields(Id(raw.kind), raw.streamId, |raw.payload|, raw.payload + rest);
    KindIsKnown(raw.kind);
  }

  /** A frame of any kind but a file chunk is read exactly when its payload has the length of that kind's
      packets; otherwise the connection ends. */
  lemma FixedFrameIsReadIff(raw: Raw, p: Packet, rest: seq<byte>)
    requires raw.streamId < U32 && |raw.payload| < U32 && raw.kind == p.Kind() && !p.FileChunk?
    ensures Reads(Frame(raw) + rest) ==
            if |raw.payload| == |Payload(p)| then ([raw] + Reads(rest).0, Reads(rest).1) else ([], PreValidateFailed)
  {
    hide Reads, Frame, Payload;
    PayloadLength(p);
    if |raw.payload| == |Payload(p)| { FrameIsRead(raw, rest); } else { BadLengthStops(raw, rest); }
  }

  /** A file chunk survives framing exactly when it is not empty and its length fits the header. */
  lemma ChunkIsReadIff(streamId: nat, payload: seq<byte>)
    requires streamId < U32
    ensures var raw := Raw(FileChunkK, streamId, payload);
            Reads(Frame(raw)).0 == [raw] <==> 6 <= |payload| < U32
  {
    hide Header, Id, KindOf, FromBE;
    var raw := Raw(FileChunkK, streamId, payload);
    assert Frame(raw) + [] == Frame(raw);
    if 6 <= |payload| < U32 {
      FrameIsRead(raw, []);
    } else if !PreValidate(FileChunkK, |payload| % U32) {
      BadLengthStops(raw, []);
    } else {
      assert |payload| % U32 != |payload|;
      HeaderFields(Id(FileChunkK), streamId, |payload|, payload);
      var raws := Reads(Frame(raw)).0;
      assert raws != [] ==> |raws[0].payload| == |payload| % U32;
    }
  }

  /** An id that names no kind ends the connection. */
  lemma UnknownKindStops(id: byte, streamId: nat, size: nat, rest: seq<byte>)
    requires forall k :: Id(k) != id
    ensures Reads(Header(id, streamId, size) + rest) == ([], UnknownKind)
  {
    hide ToBE, FromBE, Id;
  }

  /** A frame that breaks off is not delivered, not even in part. */
  lemma TruncatedFrameStops(raw: Raw, n: nat)
    requires raw.streamId < U32 && |raw.payload| < U32 && PreValidate(raw.kind, |raw.payload|)
    requires n < |Frame(raw)|
    ensures Reads(Frame(raw)[..n]) == ([], if n < 9 then HeaderReadFailed else PayloadReadFailed)
  {
    hide Header, Id, KindOf, FromBE;
    if n >= HEADER_SIZE {
      var header := Header(Id(raw.kind), raw.streamId, |raw.payload|);
      assert Frame(raw)[..n] == header + raw.payload[..n - HEADER_SIZE];
      HeaderFields(Id(raw.kind), raw.streamId, |raw.payload|, raw.payload[..n - HEADER_SIZE]);
      KindIsKnown(raw.kind);
    }
  }

  type Letter = (nat, Packet)

  predicate Sendable(m: Letter) {
    m.0 < U32 && m.1.Fits() && (m.1.FileChunk? ==> 5 + |m.1.content| < U32)
  }

  predicate EmptyChunk(m: Letter) {
    m.1.FileChunk? && m.1.content == []
  }

  function RawOf(m: Letter): Raw {
    Raw(m.1.Kind(), m.0, Payload(m.1))
  }

  /** The bytes of a whole conversation. */
  function Written(ms: seq<Letter>): seq<byte> {
    if ms == [] then [] else Frame(RawOf(ms[0])) + Written(ms[1..])
  }

  function Messages(raws: seq<Raw>): seq<(nat, Message)>
    requires forall i :: 0 <= i < |raws| ==> PreValidate(raws[i].kind, |raws[i].payload|)
  {
    seq(|raws|, i requires 0 <= i < |raws| => (raws[i].streamId, Decode(raws[i].kind, raws[i].payload)))
  }

  lemma MessagesCons(raw: Raw, raws: seq<Raw>)
    requires PreValidate(raw.kind, |raw.payload|)
    requires forall i :: 0 <= i < |raws| ==> PreValidate(raws[i].kind, |raws[i].payload|)
    ensures Messages([raw] + raws) == [(raw.streamId, Decode(raw.kind, raw.payload))] + Messages(raws)
  {
    hide Decode, PreValidate;
  }

  /** The number of packets before the first empty file chunk. */
  function Leading(ms: seq<Letter>): (n: nat)
    ensures n <= |ms|
    ensures forall i :: 0 <= i < n ==> !EmptyChunk(ms[i])
    ensures n < |ms| ==> EmptyChunk(ms[n])
  {
    if ms == [] || EmptyChunk(ms[0]) then 0 else 1 + Leading(ms[1..])
  }

  /** `got` is what the first packets of `ms`, up to an empty file chunk, are meant to deliver. */
  ghost predicate Recovers(ms: seq<Letter>, got: seq<(nat, Message)>, stop: Stop) {
    && |got| == Leading(ms)
    && (forall i :: 0 <= i < Leading(ms) ==> got[i] == (ms[i].0, Delivered(ms[i].1)))
    && stop == if Leading(ms) == |ms| then HeaderReadFailed else PreValidateFailed
  }

  lemma RecoversCons(ms: seq<Letter>, got: seq<(nat, Message)>, stop: Stop)
    requires ms != [] && !EmptyChunk(ms[0]) && Recovers(ms[1..], got, stop)
    ensures Recovers(ms, [(ms[0].0, Delivered(ms[0].1))] + got, stop)
  {
    hide Delivered;
  }

  /** The reader and the decoder recover from the bytes of any conversation what each packet is meant
      to deliver, on its channel and in order, up to the first empty file chunk, which ends the connection. */
  lemma {:induction false} ConversationIsRecovered(ms: seq<Letter>)
    requires forall m :: m in ms ==> Sendable(m)
    ensures var r := Reads(Written(ms)); Recovers(ms, Messages(r.0), r.1)
  {
    if ms != [] {
      hide Reads, Frame, RawOf, Decode, Delivered, PreValidate, Messages, Recovers, Leading, EmptyChunk, Sendable;
      var m, tail := ms[0], ms[1..];
      assert m in ms && forall x :: x in tail ==> x in ms;
      if EmptyChunk(m) {
        EmptyChunkStops(m, Written(tail));
        RecoversNothing(ms);
      } else {
        LetterIsRead(m, Written(tail));
        ConversationIsRecovered(tail);
        var rest := Reads(Written(tail));
        MessagesCons(RawOf(m), rest.0);
        RecoversCons(ms, Messages(rest.0), rest.1);
      }
    }
  }

  lemma LetterIsRead(m: Letter, rest: seq<byte>)
    requires Sendable(m) && !EmptyChunk(m)
    ensures var raw := RawOf(m);
            && Reads(Frame(raw) + rest) == ([raw] + Reads(rest).0, Reads(rest).1)
            && PreValidate(raw.kind, |raw.payload|)
            && (raw.streamId, Decode(raw.kind, raw.payload)) == (m.0, Delivered(m.1))
  {
    hide Reads, Frame, Payload, Decode, Delivered;
    PayloadLength(m.1);
    PacketRoundTrip(m.1);
    FrameIsRead(RawOf(m), rest);
  }

  lemma EmptyChunkStops(m: Letter, rest: seq<byte>)
    requires Sendable(m) && EmptyChunk(m)
    ensures Reads(Frame(RawOf(m)) + rest) == ([], PreValidateFailed)
  {
    hide Reads, Frame, Payload;
    PayloadLength(m.1);
    BadLengthStops(RawOf(m), rest);
  }

  lemma RecoversNothing(ms: seq<Letter>)
    requires ms != [] && EmptyChunk(ms[0])
    ensures Recovers(ms, Messages([]), PreValidateFailed)
  {
  }

  /** Wherever the stream breaks off, what is read is the beginning of what would have been. */
  lemma {:induction false} BrokenStreamDeliversPrefix(ms: seq<Letter>, n: nat)
    requires (forall m :: m in ms ==> Sendable(m)) && n <= |Written(ms)|
    ensures Reads(Written(ms)[..n]).0 <= Reads(Written(ms)).0
  {
    hide Reads, Written, Frame, RawOf, Sendable;
    if ms == [] {
      WrittenNone();
      assert Written(ms)[..n] == Written(ms);
    } else {
      WrittenCons(ms);
      var frame, tail := Frame(RawOf(ms[0])), ms[1..];
      assert ms[0] in ms && forall x :: x in tail ==> x in ms;
      if n >= |frame| { BrokenStreamDeliversPrefix(tail, n - |frame|); }
      BrokenStep(ms[0], Written(tail), n);
    }
  }

  lemma BrokenStep(m: Letter, rest: seq<byte>, n: nat)
    requires Sendable(m) && n <= |Frame(RawOf(m)) + rest|
    requires n >= |Frame(RawOf(m))| ==> Reads(rest[..n - |Frame(RawOf(m))|]).0 <= Reads(rest).0
    ensures Reads((Frame(RawOf(m)) + rest)[..n]).0 <= Reads(Frame(RawOf(m)) + rest).0
  {
    hide Reads, Frame, RawOf, Sendable, EmptyChunk;
    var frame := Frame(RawOf(m));
    if EmptyChunk(m) {
      BrokenEmptyChunk(m, rest, n);
    } else if n < |frame| {
      BrokenLetter(m, rest, n);
    } else {
      assert (frame + rest)[..n] == frame + rest[..n - |frame|];
      LettersBoth(m, rest, rest[..n - |frame|]);
    }
  }

  lemma WrittenNone()
    ensures Written([]) == []
  {
  }

  lemma WrittenCons(ms: seq<Letter>)
    requires ms != []
    ensures Written(ms) == Frame(RawOf(ms[0])) + Written(ms[1..])
  {
  }

  lemma BrokenLetter(m: Letter, rest: seq<byte>, n: nat)
    requires Sendable(m) && !EmptyChunk(m) && n < |Frame(RawOf(m))|
    ensures Reads((Frame(RawOf(m)) + rest)[..n]).0 == []
  {
    hide Reads, Frame, RawOf, Sendable, EmptyChunk;
    LetterIsFramed(m);
    assert (Frame(RawOf(m)) + rest)[..n] == Frame(RawOf(m))[..n];
    TruncatedFrameStops(RawOf(m), n);
  }

  lemma LettersBoth(m: Letter, a: seq<byte>, b: seq<byte>)
    requires Sendable(m) && !EmptyChunk(m)
    ensures Reads(b).0 <= Reads(a).0 ==> Reads(Frame(RawOf(m)) + b).0 <= Reads(Frame(RawOf(m)) + a).0
  {
    hide Reads, Frame, RawOf, Sendable, EmptyChunk;
    LetterIsRead(m, a);
    LetterIsRead(m, b);
  }

  lemma LetterIsFramed(m: Letter)
    requires Sendable(m) && !EmptyChunk(m)
    ensures var raw := RawOf(m); raw.streamId < U32 && |raw.payload| < U32 && PreValidate(raw.kind, |raw.payload|)
  {
    hide Payload;
    PayloadLength(m.1);
  }

  /** An empty chunk's frame is refused by its header, so a stream that breaks off in it gives nothing either. */
  lemma BrokenEmptyChunk(m: Letter, rest: seq<byte>, n: nat)
    requires Sendable(m) && EmptyChunk(m) && n <= |Frame(RawOf(m)) + rest|
    ensures Reads((Frame(RawOf(m)) + rest)[..n]).0 == []
  {
    hide Payload, Header, Id, KindOf, FromBE;
    PayloadLength(m.1);
    var raw := RawOf(m);
    if n >= HEADER_SIZE {
      var header := Header(Id(raw.kind), raw.streamId, |raw.payload|);
      var body := (raw.payload + rest)[..n - HEADER_SIZE];
      assert (Frame(raw) + rest)[..n] == header + body;
      HeaderFields(Id(raw.kind), raw.streamId, |raw.payload|, body);
      KindIsKnown(raw.kind);
    }
  }

  /** A whole conversation arrives as it was sent, packet by packet, exactly when every packet is plain. */
  lemma ConversationArrivesAsSentIff(ms: seq<Letter>)
    requires forall m :: m in ms ==> Sendable(m)
    ensures var got := Messages(Reads(Written(ms)).0);
            && (|got| == |ms| && (forall i :: 0 <= i < |ms| ==> got[i] == (ms[i].0, Sent(ms[i].1)))
                <==> forall i :: 0 <= i < |ms| ==> Plain(ms[i].1))
  {
    hide Reads, Written, Messages;
    ConversationIsRecovered(ms);
    forall i | 0 <= i < |ms| ensures Plain(ms[i].1) <==> !EmptyChunk(ms[i]) && Delivered(ms[i].1) == Sent(ms[i].1) {
      assert ms[i] in ms;
      PlainIsDelivered(ms[i].1);
    }
  }

  lemma PlainIsDelivered(p: Packet)
    requires p.Fits()
    ensures Plain(p) <==> !EmptyChunk((0, p)) && Delivered(p) == Sent(p)
  {
  }
}
