/** Big-endian integers of a fixed number of bytes. */
module BigEndian {
  import opened Common

  function Pow256(width: nat): (p: nat)
    ensures p > 0
  {
    if width == 0 then 1 else 256 * Pow256(width - 1)
  }

  /** The low `width` bytes of `n`, most significant first. */
  function ToBE(n: nat, width: nat): (bytes: seq<byte>)
    ensures |bytes| == width
  {
    if width == 0 then [] else ToBE(n / 256, width - 1) + [n % 256]
  }

  function FromBE(bytes: seq<byte>): nat {
    if bytes == [] then 0 else FromBE(bytes[..|bytes| - 1]) * 256 + bytes[|bytes| - 1]
  }

  /** Reading back gives the number modulo what fits, so the number itself when it fits. */
  lemma {:induction false} FromTo(n: nat, width: nat)
    ensures FromBE(ToBE(n, width)) == n % Pow256(width)
  {
    if width != 0 {
      FromTo(n / 256, width - 1);
      assert ToBE(n, width)[..width - 1] == ToBE(n / 256, width - 1);
      ModSplit(n, Pow256(width - 1));
    }
  }

  lemma {:induction false} ToFrom(bytes: seq<byte>)
    ensures ToBE(FromBE(bytes), |bytes|) == bytes && FromBE(bytes) < Pow256(|bytes|)
  {
    if bytes != [] {
      var init, last := bytes[..|bytes| - 1], bytes[|bytes| - 1];
      ToFrom(init);
      assert FromBE(bytes) / 256 == FromBE(init) && FromBE(bytes) % 256 == last;
      assert bytes == init + [last];
    }
  }

  /** The first byte counts most. */
  lemma {:induction false} MostSignificantFirst(b: byte, rest: seq<byte>)
    ensures FromBE([b] + rest) == b * Pow256(|rest|) + FromBE(rest)
  {
    if rest == [] {
      assert [b] + rest == [b] && [b][..0] == [];
    } else {
      var init, last := rest[..|rest| - 1], rest[|rest| - 1];
      assert ([b] + rest)[..|rest|] == [b] + init;
      MostSignificantFirst(b, init);
      assert b * (256 * Pow256(|init|)) == (b * Pow256(|init|)) * 256;
    }
  }

  lemma ModSplit(n: nat, p: nat)
    requires p > 0
    ensures (n / 256) % p * 256 + n % 256 == n % (256 * p)
  {
    var q, r := n / 256 / p, n / 256 % p;
    var low := r * 256 + n % 256;
    assert n / 256 == q * p + r;
    assert n == q * (256 * p) + low;
    assert 0 <= low < 256 * p;
    RemainderIs(n, 256 * p, q, low);
  }

  lemma RemainderIs(n: nat, d: nat, q: nat, r: nat)
    requires d > 0 && r < d && n == q * d + r
    ensures n % d == r
  {
    var e := n / d - q;
    assert n % d == r - e * d;
    assert e > 0 ==> e * d >= d;
    assert e < 0 ==> e * d + d <= 0;
  }

  lemma Widths()
    ensures Pow256(1) == 0x100 && Pow256(2) == 0x1_0000 && Pow256(4) == U32 && Pow256(8) == U64
    ensures Pow256(16) == U64 * U64
  {
    assert Pow256(12) == U64 * U32 && Pow256(8) == U64 && Pow256(4) == U32;
  }
}

/** The MDSFTP packets: what is sent, its bytes, and what the receiving channel makes of them. */
module MdsftpPackets {
  import opened Common
  import opened BigEndian
  import opened ChunkRanges

  const U16 := 0x1_0000
  const U128 := U64 * U64

  datatype Kind =
    | FileChunkK | RetrieveK | PutK | RecvAckK | DeleteChunkK | ReserveK | ReserveCancelK | ReserveOkK | ReserveErrK
    | LockReqK | LockAcquireK | LockErrK | PutOkK | PutErrK | CommitK | CommitOkK | CommitErrK | QueryK | QueryResponseK
    | ChannelOpenK | ChannelCloseK | ChannelErrK

  function Id(k: Kind): byte {
    match k
    case FileChunkK => 1
    case RetrieveK => 2
    case PutK => 3
    case RecvAckK => 4
    case DeleteChunkK => 5
    case ReserveK => 6
    case ReserveCancelK => 7
    case ReserveOkK => 8
    case ReserveErrK => 9
    case LockReqK => 10
    case LockAcquireK => 11
    case LockErrK => 12
    case PutOkK => 13
    case PutErrK => 14
    case CommitK => 15
    case CommitOkK => 16
    case CommitErrK => 17
    case QueryK => 18
    case QueryResponseK => 19
    case ChannelOpenK => 128
    case ChannelCloseK => 129
    case ChannelErrK => 130
  }

  /** The derived conversion from a byte: exactly the ids above name a kind. */
  function KindOf(id: byte): (k: Option<Kind>)
    ensures k.Some? ==> Id(k.value) == id
    ensures k.None? ==> forall other :: Id(other) != id
  {
    match id
    case 1 => Some(FileChunkK)
    case 2 => Some(RetrieveK)
    case 3 => Some(PutK)
    case 4 => Some(RecvAckK)
    case 5 => Some(DeleteChunkK)
    case 6 => Some(ReserveK)
    case 7 => Some(ReserveCancelK)
    case 8 => Some(ReserveOkK)
    case 9 => Some(ReserveErrK)
    case 10 => Some(LockReqK)
    case 11 => Some(LockAcquireK)
    case 12 => Some(LockErrK)
    case 13 => Some(PutOkK)
    case 14 => Some(PutErrK)
    case 15 => Some(CommitK)
    case 16 => Some(CommitOkK)
    case 17 => Some(CommitErrK)
    case 18 => Some(QueryK)
    case 19 => Some(QueryResponseK)
    case 128 => Some(ChannelOpenK)
    case 129 => Some(ChannelCloseK)
    case 130 => Some(ChannelErrK)
    case _ => None
  }

  function PayloadSize(k: Kind): nat {
    match k
    case FileChunkK => 6
    case RetrieveK => 34
    case PutK => 25
    case RecvAckK => 4
    case ReserveK => 9 + 16 + 16
    case ReserveCancelK | DeleteChunkK | QueryK => 16
    case ReserveOkK => 18
    case ReserveErrK => 8
    case LockReqK | LockAcquireK | LockErrK | CommitK => 17
    case PutOkK => 2
    case PutErrK | CommitErrK => 1
    case QueryResponseK => 9
    case ChannelOpenK | ChannelCloseK | ChannelErrK | CommitOkK => 0
  }

  predicate PreValidate(k: Kind, payloadSize: nat) {
    if k == FileChunkK then payloadSize >= PayloadSize(k) else payloadSize == PayloadSize(k)
  }

  datatype LockKind = Read | Write
  datatype ErrorKind = NotAvailable | NotFound
  datatype ReserveFlags = ReserveFlags(autoStart: bool, durable: bool, temp: bool, overwrite: bool)
  datatype CommitFlags = CommitFlags(reject: bool, keepAlive: bool, final: bool)

  function Bit(b: bool, weight: nat): nat {
    if b then weight else 0
  }

  /** The bit of `x` with the given weight, a power of two. */
  predicate Has(x: nat, weight: nat)
    requires weight > 0
  {
    x / weight % 2 == 1
  }

  function LockByte(k: LockKind): byte { if k == Write then 1 else 0 }
  function LockOf(x: byte): LockKind { if Has(x, 1) then Write else Read }
  function ErrorByte(e: ErrorKind): byte { if e == NotFound then 2 else 0 }
  function ErrorOf(x: byte): ErrorKind { if Has(x, 2) then NotFound else NotAvailable }

  function ReserveByte(f: ReserveFlags): byte {
    Bit(f.autoStart, 1) + Bit(f.durable, 2) + Bit(f.temp, 4) + Bit(f.overwrite, 8)
  }

  function ReserveOf(x: byte): ReserveFlags {
    ReserveFlags(Has(x, 1), Has(x, 2), Has(x, 4), Has(x, 8))
  }

  function CommitByte(f: CommitFlags): byte {
    Bit(f.reject, 1) + Bit(f.keepAlive, 2) + Bit(f.final, 4)
  }

  function CommitOf(x: byte): CommitFlags {
    CommitFlags(Has(x, 1), Has(x, 2), Has(x, 4))
  }

  datatype Packet =
    | FileChunk(isLast: bool, index: nat, content: seq<byte>)
    | Retrieve(chunkId: Uuid, chunkBuffer: nat, range: Option<ChunkRange>)
    | Put(append: bool, chunkId: Uuid, size: nat)
    | RecvAck(index: nat)
    | DeleteChunk(chunkId: Uuid)
    | Reserve(size: nat, fileId: Uuid, bucketId: Uuid, flags: ReserveFlags)
    | ReserveCancel(chunkId: Uuid)
    | ReserveOk(chunkId: Uuid, chunkBuffer: nat)
    | ReserveErr(available: nat)
    | LockReq(lock: LockKind, chunkId: Uuid)
    | LockAcquire(lock: LockKind, chunkId: Uuid)
    | LockErr(chunkId: Uuid, lock: LockKind, error: ErrorKind)
    | PutOk(chunkBuffer: nat)
    | PutErr(error: ErrorKind)
    | Commit(commit: CommitFlags, chunkId: Uuid)
    | CommitOk
    | CommitErr(error: ErrorKind)
    | Query(chunkId: Uuid)
    | QueryResponse(size: nat, exists_: bool)
    | ChannelOpen
    | ChannelClose
    | ChannelErr
  {
    function Kind(): Kind {
      match this
      case FileChunk(_, _, _) => FileChunkK
      case Retrieve(_, _, _) => RetrieveK
      case Put(_, _, _) => PutK
      case RecvAck(_) => RecvAckK
      case DeleteChunk(_) => DeleteChunkK
      case Reserve(_, _, _, _) => ReserveK
      case ReserveCancel(_) => ReserveCancelK
      case ReserveOk(_, _) => ReserveOkK
      case ReserveErr(_) => ReserveErrK
      case LockReq(_, _) => LockReqK
      case LockAcquire(_, _) => LockAcquireK
      case LockErr(_, _, _) => LockErrK
      case PutOk(_) => PutOkK
      case PutErr(_) => PutErrK
      case Commit(_, _) => CommitK
      case CommitOk => CommitOkK
      case CommitErr(_) => CommitErrK
      case Query(_) => QueryK
      case QueryResponse(_, _) => QueryResponseK
      case ChannelOpen => ChannelOpenK
      case ChannelClose => ChannelCloseK
      case ChannelErr => ChannelErrK
    }

    /** The fields are values of the sender's machine types. */
    predicate Fits() {
      && (FileChunk? || RecvAck? ==> index < U32)
      && (Retrieve? || Put? || DeleteChunk? || ReserveCancel? || ReserveOk? || LockReq? || LockAcquire? ||
          LockErr? || Commit? || Query? ==>
            chunkId < U128)
      && (Retrieve? || ReserveOk? || PutOk? ==> chunkBuffer < U16)
      && (Retrieve? && range.Some? ==> range.value.start < U64 && range.value.end < U64)
      && (Put? || Reserve? || QueryResponse? ==> size < U64)
      && (Reserve? ==> fileId < U128 && bucketId < U128)
      && (ReserveErr? ==> available < U64)
    }
  }

  /** The payload as the sender pushes it, field by field. */
  function Payload(p: Packet): seq<byte> {
    match p
    case FileChunk(isLast, index, content) => [if isLast then 1 else 0] + ToBE(index, 4) + content
    case Retrieve(chunkId, chunkBuffer, range) =>
      var r := range.GetOr(WHOLE);
      ToBE(chunkId, 16) + ToBE(chunkBuffer, 2) + ToBE(r.start, 8) + ToBE(r.end, 8)
    case Put(append, chunkId, size) => [if append then 1 else 0] + ToBE(chunkId, 16) + ToBE(size, 8)
    case RecvAck(index) => ToBE(index, 4)
    case DeleteChunk(chunkId) => ToBE(chunkId, 16)
    case Reserve(size, fileId, bucketId, flags) => [ReserveByte(flags)] + ToBE(size, 8) + ToBE(fileId,
        16) + ToBE(bucketId, 16)
    case ReserveCancel(chunkId) => ToBE(chunkId, 16)
    case ReserveOk(chunkId, chunkBuffer) => ToBE(chunkId, 16) + ToBE(chunkBuffer, 2)
    case ReserveErr(available) => ToBE(available, 8)
    case LockReq(lock, chunkId) => [LockByte(lock)] + ToBE(chunkId, 16)
    case LockAcquire(lock, chunkId) => [LockByte(lock)] + ToBE(chunkId, 16)
    case LockErr(chunkId, lock, error) => [LockByte(lock) + ErrorByte(error)] + ToBE(chunkId, 16)
    case PutOk(chunkBuffer) => ToBE(chunkBuffer, 2)
    case PutErr(error) => [ErrorByte(error)]
    case Commit(flags, chunkId) => [CommitByte(flags)] + ToBE(chunkId, 16)
    case CommitOk => []
    case CommitErr(error) => [ErrorByte(error)]
    case Query(chunkId) => ToBE(chunkId, 16)
    case QueryResponse(size, found) => [if found then 1 else 0] + ToBE(size, 8)
    case ChannelOpen => []
    case ChannelClose => []
    case ChannelErr => []
  }

  lemma PayloadLength(p: Packet)
    ensures |Payload(p)| == if p.FileChunk? then 5 + |p.content| else PayloadSize(p.Kind())
  {
    hide ToBE;
  }

  // ---- the documented format

  datatype Column = Col(width: nat, value: nat)

  /** The packet id and the columns of each packet: width in bytes, and value. A file chunk's content follows. */
  function Columns(p: Packet): (byte, seq<Column>) {
    match p
    case FileChunk(isLast, index, _) => (0x01, [Col(1, Bit(isLast, 1)), Col(4, index)])
    case Retrieve(chunkId, chunkBuffer, range) =>
      (0x02, [Col(16, chunkId), Col(2, chunkBuffer), Col(8, range.GetOr(WHOLE).start), Col(8, range.GetOr(WHOLE).end)])
    case Put(append, chunkId, size) => (0x03, [Col(1, Bit(append, 1)), Col(16, chunkId), Col(8, size)])
    case RecvAck(index) => (0x04, [Col(4, index)])
    case DeleteChunk(chunkId) => (0x05, [Col(16, chunkId)])
    case Reserve(size, fileId, bucketId, f) =>
      (0x06, [Col(1, Bit(f.autoStart, 1) + Bit(f.durable, 2) + Bit(f.temp, 4) + Bit(f.overwrite, 8)),
              Col(8, size), Col(16, fileId), Col(16, bucketId)])
    case ReserveCancel(chunkId) => (0x07, [Col(16, chunkId)])
    case ReserveOk(chunkId, chunkBuffer) => (0x08, [Col(16, chunkId), Col(2, chunkBuffer)])
    case ReserveErr(available) => (0x09, [Col(8, available)])
    case LockReq(lock, chunkId) => (0x0A, [Col(1, Bit(lock == Write, 1)), Col(16, chunkId)])
    case LockAcquire(lock, chunkId) => (0x0B, [Col(1, Bit(lock == Write, 1)), Col(16, chunkId)])
    case LockErr(chunkId, lock, error) =>
      (0x0C, [Col(1, Bit(lock == Write, 1) + Bit(error == NotFound, 2)), Col(16, chunkId)])
    case PutOk(chunkBuffer) => (0x0D, [Col(2, chunkBuffer)])
    case PutErr(error) => (0x0E, [Col(1, Bit(error == NotFound, 2))])
    case Commit(f, chunkId) =>
      (0x0F, [Col(1, Bit(f.reject, 1) + Bit(f.keepAlive, 2) + Bit(f.final, 4)), Col(16, chunkId)])
    case CommitOk => (0x10, [])
    case CommitErr(error) => (0x11, [Col(1, Bit(error == NotFound, 2))])
    case Query(chunkId) => (0x12, [Col(16, chunkId)])
    case QueryResponse(size, found) => (0x13, [Col(1, Bit(found, 1)), Col(8, size)])
    case ChannelOpen => (0x80, [])
    case ChannelClose => (0x81, [])
    case ChannelErr => (0x82, [])
  }

  /** The columns one after the other. */
  function Tabulated(columns: seq<Column>): seq<byte> {
    if columns == [] then [] else ToBE(columns[0].value, columns[0].width) + Tabulated(columns[1..])
  }

  lemma TabulatedCons(column: Column, columns: seq<Column>)
    ensures Tabulated([column] + columns) == ToBE(column.value, column.width) + Tabulated(columns)
  {
    assert ([column] + columns)[1..] == columns;
  }

  lemma TabulatedAre(a: Column, b: Column, c: Column, d: Column)
    ensures Tabulated([]) == [] && Tabulated([a]) == ToBE(a.value, a.width)
    ensures Tabulated([a, b]) == ToBE(a.value, a.width) + ToBE(b.value, b.width)
    ensures Tabulated([a, b, c]) == ToBE(a.value, a.width) + ToBE(b.value, b.width) + ToBE(c.value, c.width)
    ensures Tabulated([a, b, c, d]) ==
            ToBE(a.value, a.width) + ToBE(b.value, b.width) + ToBE(c.value, c.width) + ToBE(d.value, d.width)
  {
    hide ToBE, Tabulated;
    TabulatedNone();
    TabulatedCons(d, []);
    TabulatedCons(c, []);
    TabulatedCons(c, [d]);
    TabulatedCons(b, []);
    TabulatedCons(b, [c]);
    TabulatedCons(b, [c, d]);
    TabulatedCons(a, []);
    TabulatedCons(a, [b]);
    TabulatedCons(a, [b, c]);
    TabulatedCons(a, [b, c, d]);
    assert [a] + [] == [a] && [a] + [b] == [a, b] && [a] + [b, c] == [a, b, c] && [a] + [b, c, d] == [a, b, c, d];
    assert [b] + [] == [b] && [b] + [c] == [b, c] && [b] + [c, d] == [b, c, d];
    assert [c] + [] == [c] && [c] + [d] == [c, d] && [d] + [] == [d];
  }

  lemma TabulatedNone()
    ensures Tabulated([]) == []
  {
  }

  lemma OneByte(n: byte)
    ensures ToBE(n, 1) == [n]
  {
    assert ToBE(n / 256, 0) == [];
  }

  lemma IdIsDocumented(p: Packet)
    ensures Id(p.Kind()) == Columns(p).0
  {
  }

  lemma WideIsTabulated(p: Packet)
    requires p.Retrieve? || p.Reserve? || p.Put? || p.FileChunk?
    ensures Payload(p) == Tabulated(Columns(p).1) + (if p.FileChunk? then p.content else [])
  {
    hide ToBE, Tabulated;
    var columns := Columns(p).1;
    if columns[0].width == 1 { OneByte(columns[0].value); }
    TabulatedAre(columns[0], columns[1], if |columns| > 2 then columns[2] else Col(0, 0),
                 if |columns| > 3 then columns[3] else Col(0, 0));
  }

  lemma NarrowIsTabulated(p: Packet)
    requires !(p.Retrieve? || p.Reserve? || p.Put? || p.FileChunk?)
    ensures Payload(p) == Tabulated(Columns(p).1)
  {
    hide ToBE, Tabulated;
    var none, columns := Col(0, 0), Columns(p).1;
    if columns == [] {
      TabulatedNone();
    } else {
      if columns[0].width == 1 { OneByte(columns[0].value); }
      TabulatedAre(columns[0], if |columns| > 1 then columns[1] else none, none, none);
    }
  }

  /** Every packet is sent under its documented id, its fields in the documented order and widths. */
  lemma PayloadIsTabulated(p: Packet)
    ensures Id(p.Kind()) == Columns(p).0
    ensures Payload(p) == Tabulated(Columns(p).1) + (if p.FileChunk? then p.content else [])
  {
    hide Payload, Tabulated, Columns, Id;
    IdIsDocumented(p);
    if p.Retrieve? || p.Reserve? || p.Put? || p.FileChunk? { WideIsTabulated(p); } else { NarrowIsTabulated(p); }
  }

  /** What reaches the handler or the waiting caller. A failed lock is reported without its kind and
      chunk, a negative query answer without its size, and a bad range is refused. */
  datatype Message = Sent(packet: Packet) | LockFailed(error: ErrorKind) | NoSuchChunk | BadChunkRange

  function At(bytes: seq<byte>, from: nat, width: nat): nat
    requires from + width <= |bytes|
  {
    FromBE(bytes[from..from + width])
  }

  /** The receiver: payload bytes of a kind whose length was already checked. */
  function Decode(k: Kind, b: seq<byte>): Message
    requires PreValidate(k, |b|)
  {
    match k
    case FileChunkK => Sent(FileChunk(b[0] == 1, At(b, 1, 4), b[5..]))
    case RetrieveK =>
      var start, end := At(b, 18, 8), At(b, 26, 8);
      if (start + end) % U64 == 0 then Sent(Retrieve(At(b, 0, 16), At(b, 16, 2), None))
      else if New(start, end).None? then BadChunkRange
      else Sent(Retrieve(At(b, 0, 16), At(b, 16, 2), New(start, end)))
    case PutK => Sent(Put(Has(b[0], 1), At(b, 1, 16), At(b, 17, 8)))
    case RecvAckK => Sent(RecvAck(At(b, 0, 4)))
    case DeleteChunkK => Sent(DeleteChunk(At(b, 0, 16)))
    case ReserveK => Sent(Reserve(At(b, 1, 8), At(b, 9, 16), At(b, 25, 16), ReserveOf(b[0])))
    case ReserveCancelK => Sent(ReserveCancel(At(b, 0, 16)))
    case ReserveOkK => Sent(ReserveOk(At(b, 0, 16), At(b, 16, 2)))
    case ReserveErrK => Sent(ReserveErr(At(b, 0, 8)))
    case LockReqK => Sent(LockReq(LockOf(b[0]), At(b, 1, 16)))
    case LockAcquireK => Sent(LockAcquire(LockOf(b[0]), At(b, 1, 16)))
    case LockErrK => LockFailed(ErrorOf(b[0]))
    case PutOkK => Sent(PutOk(At(b, 0, 2)))
    case PutErrK => Sent(PutErr(ErrorOf(b[0])))
    case CommitK => Sent(Commit(CommitOf(b[0]), At(b, 1, 16)))
    case CommitOkK => Sent(CommitOk)
    case CommitErrK => Sent(CommitErr(ErrorOf(b[0])))
    case QueryK => Sent(Query(At(b, 0, 16)))
    case QueryResponseK => if b[0] == 1 then Sent(QueryResponse(At(b, 1, 8), true)) else NoSuchChunk
    case ChannelOpenK => Sent(ChannelOpen)
    case ChannelCloseK => Sent(ChannelClose)
    case ChannelErrK => Sent(ChannelErr)
  }

  /** What the receiver ought to learn from `p`. */
  function Delivered(p: Packet): Message {
    match p
    case LockErr(_, _, error) => LockFailed(error)
    case QueryResponse(_, found) => if found then Sent(p) else NoSuchChunk
    case Retrieve(chunkId, chunkBuffer, Some(r)) =>
      if (r.start + r.end) % U64 == 0 then Sent(Retrieve(chunkId, chunkBuffer, None))
      else if r.start < r.end then Sent(p)
      else BadChunkRange
    case _ => Sent(p)
  }

  lemma AtFinds(a: seq<byte>, n: nat, width: nat, c: seq<byte>)
    requires n < Pow256(width)
    ensures At(a + ToBE(n, width) + c, |a|, width) == n
  {
    var b := a + ToBE(n, width) + c;
    assert b[|a|..|a| + width] == ToBE(n, width);
    FromTo(n, width);
  }

  lemma AtStart(n: nat, width: nat, c: seq<byte>)
    requires n < Pow256(width)
    ensures At(ToBE(n, width) + c, 0, width) == n
  {
    AtFinds([], n, width, c);
    assert [] + ToBE(n, width) + c == ToBE(n, width) + c;
  }

  lemma AtOnly(n: nat, width: nat)
    requires n < Pow256(width)
    ensures At(ToBE(n, width), 0, width) == n
  {
    AtStart(n, width, []);
    assert ToBE(n, width) + [] == ToBE(n, width);
  }

  lemma AtEnd(a: seq<byte>, n: nat, width: nat)
    requires n < Pow256(width)
    ensures At(a + ToBE(n, width), |a|, width) == n
  {
    AtFinds(a, n, width, []);
    assert a + ToBE(n, width) + [] == a + ToBE(n, width);
  }

  lemma ReserveFlagsRoundTrip(f: ReserveFlags)
    ensures ReserveOf(ReserveByte(f)) == f
  {
    BitsOf(f.autoStart, f.durable, f.temp, f.overwrite);
  }

  lemma CommitFlagsRoundTrip(f: CommitFlags)
    ensures CommitOf(CommitByte(f)) == f
  {
    BitsOf(f.reject, f.keepAlive, f.final, false);
  }

  lemma BitsOf(a: bool, b: bool, c: bool, d: bool)
    ensures var x := Bit(a, 1) + Bit(b, 2) + Bit(c, 4) + Bit(d, 8);
            Has(x, 1) == a && Has(x, 2) == b && Has(x, 4) == c && Has(x, 8) == d
  {
    var x := Bit(a, 1) + Bit(b, 2) + Bit(c, 4) + Bit(d, 8);
    assert x / 1 == x && x % 2 == Bit(a, 1);
    assert x / 2 == Bit(b, 1) + Bit(c, 2) + Bit(d, 4);
    assert x / 4 == Bit(c, 1) + Bit(d, 2);
    assert x / 8 == Bit(d, 1);
  }

  lemma RetrieveRoundTrip(p: Packet)
    requires p.Retrieve? && p.Fits()
    ensures PreValidate(RetrieveK, |Payload(p)|)
    ensures Decode(RetrieveK, Payload(p)) == Delivered(p)
  {
    hide ToBE, FromBE, Pow256;
    PayloadLength(p);
    Widths();
    var r := p.range.GetOr(WHOLE);
    var id, buffer, start, end := ToBE(p.chunkId, 16), ToBE(p.chunkBuffer, 2), ToBE(r.start, 8), ToBE(r.end, 8);
    var b := Payload(p);
    assert b == id + (buffer + start + end);
    AtStart(p.chunkId, 16, buffer + start + end);
    assert b == id + buffer + (start + end);
    AtFinds(id, p.chunkBuffer, 2, start + end);
    AtFinds(id + buffer, r.start, 8, end);
    AtEnd(id + buffer + start, r.end, 8);
  }

  lemma ReserveRoundTrip(p: Packet)
    requires p.Reserve? && p.Fits()
    ensures PreValidate(ReserveK, |Payload(p)|)
    ensures Decode(ReserveK, Payload(p)) == Delivered(p)
  {
    hide ToBE, FromBE, Pow256;
    Widths();
    ReserveFlagsRoundTrip(p.flags);
    PayloadLength(p);
    var flags, size, file, bucket := [ReserveByte(p.flags)], ToBE(p.size, 8), ToBE(p.fileId, 16), ToBE(p.bucketId, 16);
    var b := Payload(p);
    assert b == flags + size + (file + bucket);
    AtFinds(flags, p.size, 8, file + bucket);
    AtFinds(flags + size, p.fileId, 16, bucket);
    AtEnd(flags + size + file, p.bucketId, 16);
  }

  lemma ChunkRoundTrip(p: Packet)
    requires p.FileChunk? && p.Fits() && p.content != []
    ensures PreValidate(FileChunkK, |Payload(p)|)
    ensures Decode(FileChunkK, Payload(p)) == Delivered(p)
  {
    hide ToBE, FromBE, Pow256;
    Widths();
    AtFinds([if p.isLast then 1 else 0], p.index, 4, p.content);
    assert Payload(p)[5..] == p.content;
  }

  lemma PlainRoundTrip(p: Packet)
    requires p.Fits() && (p.RecvAck? || p.DeleteChunk? || p.ReserveCancel? || p.ReserveErr? || p.PutOk? || p.Query?)
    ensures PreValidate(p.Kind(), |Payload(p)|)
    ensures Decode(p.Kind(), Payload(p)) == Delivered(p)
  {
    hide ToBE, FromBE, Pow256;
    Widths();
    PayloadLength(p);
    match p
    case RecvAck(index) => AtOnly(index, 4);
    case DeleteChunk(chunkId) => AtOnly(chunkId, 16);
    case ReserveCancel(chunkId) => AtOnly(chunkId, 16);
    case ReserveErr(available) => AtOnly(available, 8);
    case PutOk(buffer) => AtOnly(buffer, 2);
    case Query(chunkId) => AtOnly(chunkId, 16);
  }

  lemma FlaggedRoundTrip(p: Packet)
    requires p.Fits() && (p.LockReq? || p.LockAcquire? || p.Commit? || p.QueryResponse? || p.Put? || p.ReserveOk?)
    ensures PreValidate(p.Kind(), |Payload(p)|)
    ensures Decode(p.Kind(), Payload(p)) == Delivered(p)
  {
    hide ToBE, FromBE, Pow256;
    Widths();
    PayloadLength(p);
    match p
    case Put(append, chunkId, size) =>
      AtFinds([if append then 1 else 0], chunkId, 16, ToBE(size, 8));
      AtEnd([if append then 1 else 0] + ToBE(chunkId, 16), size, 8);
    case ReserveOk(chunkId, buffer) =>
      AtStart(chunkId, 16, ToBE(buffer, 2));
      AtEnd(ToBE(chunkId, 16), buffer, 2);
    case LockReq(lock, chunkId) => AtEnd([LockByte(lock)], chunkId, 16);
    case LockAcquire(lock, chunkId) => AtEnd([LockByte(lock)], chunkId, 16);
    case Commit(flags, chunkId) =>
      CommitFlagsRoundTrip(flags);
      AtEnd([CommitByte(flags)], chunkId, 16);
    case QueryResponse(size, found) => AtEnd([if found then 1 else 0], size, 8);
  }

  /** Decoding a packet's payload gives what the packet is meant to deliver. */
  lemma PacketRoundTrip(p: Packet)
    requires p.Fits() && (p.FileChunk? ==> p.content != [])
    ensures PreValidate(p.Kind(), |Payload(p)|)
    ensures Decode(p.Kind(), Payload(p)) == Delivered(p)
  {
    hide ToBE, FromBE, Pow256;
    if p.FileChunk? {
      ChunkRoundTrip(p);
    } else if p.Retrieve? {
      RetrieveRoundTrip(p);
    } else if p.Reserve? {
      ReserveRoundTrip(p);
    } else if p.RecvAck? || p.DeleteChunk? || p.ReserveCancel? || p.ReserveErr? || p.PutOk? || p.Query? {
      PlainRoundTrip(p);
    } else if p.LockReq? || p.LockAcquire? || p.Commit? || p.QueryResponse? || p.Put? || p.ReserveOk? {
      FlaggedRoundTrip(p);
    } else {
      PayloadLength(p);
    }
  }

  /** No lock failure, no negative query answer, no empty file chunk, and no range that is improper or whose
      bounds sum to 2^64. */
  predicate Plain(p: Packet) {
    && !p.LockErr?
    && (p.QueryResponse? ==> p.exists_)
    && (p.FileChunk? ==> p.content != [])
    && (p.Retrieve? && p.range.Some? ==>
          p.range.value.start < p.range.value.end && p.range.value.start + p.range.value.end != U64)
  }

  /** The bytes of a packet are accepted and decode to the packet itself exactly when it is plain. */
  lemma ArrivesAsSentIff(p: Packet)
    requires p.Fits()
    ensures PreValidate(p.Kind(), |Payload(p)|) && Decode(p.Kind(), Payload(p)) == Sent(p) <==> Plain(p)
  {
    hide Payload, Decode, ToBE, FromBE;
    PayloadLength(p);
    if !p.FileChunk? || p.content != [] { PacketRoundTrip(p); }
  }

  /** What arrives of the packets that do not arrive as sent: the error of a failed lock, a missing chunk, a request
      for the whole chunk where the bounds sum to 0 or 2^64, and a refused range otherwise. */
  lemma OtherwiseArrives(p: Packet)
    requires p.Fits() && !Plain(p) && !p.FileChunk?
    ensures PreValidate(p.Kind(), |Payload(p)|)
    ensures var got := Decode(p.Kind(), Payload(p));
            && (p.LockErr? ==> got == LockFailed(p.error))
            && (p.QueryResponse? ==> got == NoSuchChunk)
            && (p.Retrieve? ==>
                  var sum := p.range.value.start + p.range.value.end;
                  got == if sum == 0 || sum == U64 then Sent(p.(range := None)) else BadChunkRange)
  {
    hide Payload, Decode, ToBE, FromBE;
    PacketRoundTrip(p);
  }
}
