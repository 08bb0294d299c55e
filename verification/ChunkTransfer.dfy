/** The sliding-window chunk transfer: a sender and a receiver joined by two first-in first-out queues,
    one carrying file chunks, the other acknowledgements. */
module ChunkTransfer {
  import opened Common
  import opened ChunkRanges

  /** What is to be sent: a whole stream of `size` bytes, or a range of a seekable one. */
  datatype SizeParams = SizeParams(size: nat, range: Option<ChunkRange>) {
    function Size(): int {
      match range
      case Some(r) => r.end - r.start
      case None => size
    }

    function Offset(): nat {
      match range
      case Some(r) => r.start
      case None => 0
    }
  }

  datatype Message = Chunk(id: nat, data: seq<byte>, isLast: bool)

  /** Where the sender stands: about to read and send fragment `id`; waiting for the window after
      fragment `id`; about to send the remainder; waiting for the last acknowledgement; done; or
      stopped because the source ended early or there are too many fragments. */
  datatype Phase = Sending(id: nat) | Waiting(id: nat) | SendingLast | Draining | Finished | Failed

  datatype State = State(
    phase: Phase, recv: nat, chunks: seq<Message>, acks: seq<nat>, received: seq<byte>, open: bool)

  /** The source bytes from the requested offset on, the requested size, and the negotiated limits. */
  datatype Params = Params(source: seq<byte>, size: nat, fragmentSize: nat, chunkBuffer: nat) {
    ghost predicate Valid() {
      1 <= fragmentSize && chunkBuffer < 0x1_0000
    }

    function Fragments(): nat
      requires fragmentSize >= 1
    {
      size / fragmentSize
    }

    function Last(): nat
      requires fragmentSize >= 1
    {
      size % fragmentSize
    }

    /** Whether a final partial chunk is sent; an empty transfer sends one empty chunk. */
    predicate SendsLast()
      requires fragmentSize >= 1
    {
      Last() != 0 || Fragments() == 0
    }

    function Sent(): nat
      requires fragmentSize >= 1
    {
      Fragments() + if SendsLast() then 1 else 0
    }

    /** Where chunk `i` starts. */
    function Off(i: nat): nat
      requires fragmentSize >= 1
    {
      if i <= Fragments() then i * fragmentSize else size
    }
  }

  datatype Actor = Sender | Receiver

  function Start(p: Params): State
    requires p.Valid()
  {
    State(if p.Fragments() > U32 - 2 then Failed else Enter(p, 0), 0, [], [], [], true)
  }

  /** The head of the sending loop: the next fragment, or what follows the loop. */
  function Enter(p: Params, id: nat): Phase
    requires p.Valid()
  {
    if id < p.Fragments() then Sending(id)
    else if p.SendsLast() then SendingLast
    else Draining
  }

  /** `id >= recv + chunk_buffer`, with the sum in 32 bits. */
  predicate WindowFull(p: Params, s: State, id: nat) {
    id >= (s.recv + p.chunkBuffer) % U32
  }

  predicate CanStep(p: Params, s: State, who: Actor)
    requires p.Valid()
  {
    match who
    case Receiver => s.chunks != []
    case Sender =>
      match s.phase
      case Waiting(id) => !WindowFull(p, s, id) || s.acks != []
      case Draining => s.recv == p.Sent() || s.acks != []
      case Finished => false
      case Failed => false
      case _ => true
  }

  function SenderStep(p: Params, s: State): State
    requires p.Valid() && CanStep(p, s, Sender)
  {
    match s.phase
    case Sending(id) =>
      if |p.source| < p.Off(id) + p.fragmentSize then s.(phase := Failed)
      else
        var buffer := p.source[p.Off(id)..p.Off(id) + p.fragmentSize];
        s.(phase := Waiting(id), chunks := s.chunks + [Chunk(id, buffer, id + 1 == p.Fragments() && p.Last() == 0)])
    case Waiting(id) =>
      if WindowFull(p, s, id) then s.(recv := (s.acks[0] + 1) % U32, acks := s.acks[1..])
      else s.(phase := Enter(p, id + 1))
    case SendingLast =>
      if |p.source| < p.Off(p.Fragments()) + p.Last() then s.(phase := Failed)
      else
        var buffer := p.source[p.Off(p.Fragments())..p.Off(p.Fragments()) + p.Last()];
        s.(phase := Draining, chunks := s.chunks + [Chunk(p.Fragments(), buffer, true)])
    case Draining =>
      if s.recv == p.Sent() then s.(phase := Finished)
      else s.(recv := (s.acks[0] + 1) % U32, acks := s.acks[1..])
  }

  /** The receiver writes a chunk and acknowledges it; after the last one its stream is closed, and a
      chunk that arrives at a closed stream is an error without acknowledgement. */
  function ReceiverStep(s: State): State
    requires s.chunks != []
  {
    var c := s.chunks[0];
    if !s.open then s.(chunks := s.chunks[1..])
    else s.(chunks := s.chunks[1..], received := s.received + c.data, acks := s.acks + [c.id], open := !c.isLast)
  }

  function Step(p: Params, s: State, who: Actor): State
    requires p.Valid()
  {
    if !CanStep(p, s, who) then s
    else match who
      case Sender => SenderStep(p, s)
      case Receiver => ReceiverStep(s)
  }

  function Run(p: Params, s: State, schedule: seq<Actor>): State
    requires p.Valid()
    decreases |schedule|
  {
    if schedule == [] then s else Run(p, Step(p, s, schedule[0]), schedule[1..])
  }

  // ---- the invariant

  /** `m` is the `i`-th chunk of the transfer: its slice of the source, marked last when it is. */
  ghost predicate IsPiece(p: Params, m: Message, i: nat)
    requires p.Valid()
  {
    && p.Off(i) <= p.Off(i + 1) <= |p.source|
    && m == Chunk(i, p.source[p.Off(i)..p.Off(i + 1)], i + 1 == p.Sent())
  }

  /** How many chunks the sender has put on the wire. */
  function SentSoFar(p: Params, s: State): nat
    requires p.Valid()
  {
    match s.phase
    case Sending(id) => id
    case Waiting(id) => id + 1
    case SendingLast => p.Fragments()
    case Draining => p.Sent()
    case Finished => p.Sent()
    case Failed => s.recv + |s.acks| + |s.chunks|
  }

  lemma OffIsMonotone(p: Params, i: nat, j: nat)
    requires p.Valid() && i <= j
    ensures p.Off(i) <= p.Off(j) <= p.size
    ensures p.Off(p.Fragments()) + p.Last() == p.size
  {
    var f := p.Fragments();
    assert f * p.fragmentSize + p.Last() == p.size;
    assert i <= f ==> i * p.fragmentSize <= f * p.fragmentSize;
    assert j <= f ==> j * p.fragmentSize <= f * p.fragmentSize && i * p.fragmentSize <= j * p.fragmentSize;
  }

  /** The two queues and the received bytes, when `n` chunks have been sent: acknowledgements
      `recv..r`, chunks `r..n`, and the bytes of the first `r` chunks. */
  ghost predicate Wire(p: Params, s: State, n: nat)
    requires p.Valid()
  {
    var r := s.recv + |s.acks|;
    && r + |s.chunks| == n
    && (forall i :: 0 <= i < |s.acks| ==> s.acks[i] == s.recv + i)
    && (forall i :: 0 <= i < |s.chunks| ==> IsPiece(p, s.chunks[i], r + i))
    && p.Off(r) <= |p.source| && s.received == p.source[..p.Off(r)]
    && (s.open <==> r < p.Sent())
  }

  /** How the sender's position relates to the acknowledgements it has consumed. */
  ghost predicate Window(p: Params, s: State, n: nat)
    requires p.Valid()
  {
    && s.recv <= n <= s.recv + p.chunkBuffer + 1 && n <= p.Sent()
    && (s.phase.Sending? ==> n < p.Fragments() && n <= s.recv + p.chunkBuffer <= Max(p.chunkBuffer, n))
    && (s.phase.Waiting? ==> n <= p.Fragments() && s.recv + p.chunkBuffer <= Max(p.chunkBuffer, n))
    && (s.phase.SendingLast? ==> p.SendsLast() && n <= s.recv + p.chunkBuffer)
    && (s.phase.Finished? ==> s.recv == p.Sent())
    && (s.phase.Failed? ==> |p.source| < p.size)
  }

  ghost predicate Inv(p: Params, s: State)
    requires p.Valid()
  {
    && p.Fragments() <= U32 - 2
    && Wire(p, s, SentSoFar(p, s))
    && Window(p, s, SentSoFar(p, s))
  }

  lemma StartInv(p: Params)
    requires p.Valid() && p.Fragments() <= U32 - 2
    ensures Inv(p, Start(p))
  {
    OffIsMonotone(p, 0, 0);
  }

  lemma WirePush(p: Params, s: State, n: nat, m: Message, phase: Phase)
    requires p.Valid() && Wire(p, s, n) && IsPiece(p, m, n)
    ensures Wire(p, s.(phase := phase, chunks := s.chunks + [m]), n + 1)
  {
    hide Params.Off, IsPiece;
  }

  lemma WirePhase(p: Params, s: State, n: nat, phase: Phase)
    requires p.Valid() && Wire(p, s, n)
    ensures Wire(p, s.(phase := phase), n)
  {
    hide Params.Off;
  }

  lemma WireAck(p: Params, s: State, n: nat)
    requires p.Valid() && Wire(p, s, n) && s.acks != []
    ensures s.acks[0] == s.recv
    ensures Wire(p, s.(recv := s.recv + 1, acks := s.acks[1..]), n)
  {
    hide Params.Off;
  }

  lemma WireReceive(p: Params, s: State, n: nat)
    requires p.Valid() && Wire(p, s, n) && s.chunks != [] && n <= p.Sent()
    ensures Wire(p, ReceiverStep(s), n)
  {
    hide Params.Off;
    var r := s.recv + |s.acks|;
    var t := ReceiverStep(s);
    assert IsPiece(p, s.chunks[0], r);
    if s.open {
      assert t.received == p.source[..p.Off(r + 1)];
      forall i | 0 <= i < |t.chunks| ensures IsPiece(p, t.chunks[i], r + 1 + i) {
        assert IsPiece(p, s.chunks[i + 1], r + (i + 1));
      }
    }
  }

  lemma SendInv(p: Params, s: State)
    requires p.Valid() && Inv(p, s) && (s.phase.Sending? || s.phase.SendingLast?)
    ensures Inv(p, SenderStep(p, s))
  {
    hide Wire;
    var n := SentSoFar(p, s);
    var t := SenderStep(p, s);
    OffIsMonotone(p, n, n + 1);
    if s.phase.Sending? { assert p.Off(n + 1) == p.Off(n) + p.fragmentSize; }
    if t.phase.Failed? {
      WirePhase(p, s, n, Failed);
      WireCount(p, t, n);
    } else {
      var m := t.chunks[|s.chunks|];
      assert IsPiece(p, m, n);
      WirePush(p, s, n, m, t.phase);
    }
  }

  lemma WireCount(p: Params, s: State, n: nat)
    requires p.Valid() && Wire(p, s, n)
    ensures s.recv + |s.acks| + |s.chunks| == n
  {
  }

  lemma AwaitInv(p: Params, s: State)
    requires p.Valid() && Inv(p, s) && CanStep(p, s, Sender) && (s.phase.Waiting? || s.phase.Draining?)
    ensures Inv(p, SenderStep(p, s))
  {
    hide Wire, Params.Off, Params.Fragments, Params.Last;
    var n := SentSoFar(p, s);
    var t := SenderStep(p, s);
    WireCount(p, s, n);
    if t.phase == s.phase {
      WireAck(p, s, n);
      assert (s.recv + 1) % U32 == s.recv + 1;
      assert t == s.(recv := s.recv + 1, acks := s.acks[1..]);
    } else {
      WirePhase(p, s, n, t.phase);
    }
  }

  lemma ReceiveInv(p: Params, s: State)
    requires p.Valid() && Inv(p, s) && s.chunks != []
    ensures Inv(p, ReceiverStep(s))
  {
    hide Wire;
    WireReceive(p, s, SentSoFar(p, s));
    WireCount(p, s, SentSoFar(p, s));
    WireCount(p, ReceiverStep(s), SentSoFar(p, s));
  }

  lemma StepInv(p: Params, s: State, who: Actor)
    requires p.Valid() && Inv(p, s)
    ensures Inv(p, Step(p, s, who))
  {
    hide Inv;
    if CanStep(p, s, who) {
      match who
      case Receiver => ReceiveInv(p, s);
      case Sender =>
        if s.phase.Sending? || s.phase.SendingLast? { SendInv(p, s); } else { AwaitInv(p, s); }
    }
  }

  lemma {:induction false} RunInv(p: Params, s: State, schedule: seq<Actor>)
    requires p.Valid() && Inv(p, s)
    ensures Inv(p, Run(p, s, schedule))
    decreases |schedule|
  {
    if schedule != [] {
      StepInv(p, s, schedule[0]);
      RunInv(p, Step(p, s, schedule[0]), schedule[1..]);
    }
  }

  // ---- results

  /** Safety in every schedule: what has arrived is a prefix of the slice, at most `chunk_buffer + 1`
      chunks are unacknowledged, exactly the final chunk is marked last, the window arithmetic does not
      overflow, and a finished sender means the slice has arrived. */
  lemma TransferIsSafe(p: Params, schedule: seq<Actor>)
    requires p.Valid() && p.Fragments() <= U32 - 2
    ensures var s := Run(p, Start(p), schedule);
            && s.received <= p.source && |s.received| <= p.size
            && s.recv <= SentSoFar(p, s) <= s.recv + p.chunkBuffer + 1
            && (forall i :: 0 <= i < |s.chunks| ==> (s.chunks[i].isLast <==> s.chunks[i].id + 1 == p.Sent()))
            && (s.phase.Waiting? ==> s.recv + p.chunkBuffer < U32)
            && (s.phase.Finished? ==> p.size <= |p.source| && s.received == p.source[..p.size])
  {
    hide Params.Off, Params.Fragments, Params.Last;
    StartInv(p);
    RunInv(p, Start(p), schedule);
    hide Run, Start;
    var s := Run(p, Start(p), schedule);
    OffIsMonotone(p, s.recv + |s.acks|, p.Sent());
    SentCoversSize(p);
  }

  lemma SentCoversSize(p: Params)
    requires p.Valid()
    ensures p.Off(p.Sent()) == p.size
  {
    OffIsMonotone(p, 0, p.Sent());
  }

  /** The window is used to the full: a sender that waits goes on exactly when no more than `chunk_buffer` of its
      chunks are unacknowledged, and otherwise takes the next acknowledgement. */
  lemma WindowIsExact(p: Params, schedule: seq<Actor>)
    requires p.Valid() && p.Fragments() <= U32 - 2 && Run(p, Start(p), schedule).phase.Waiting?
    ensures var s := Run(p, Start(p), schedule);
            var t, open := Step(p, s, Sender), SentSoFar(p, s) - s.recv <= p.chunkBuffer;
            && (open ==> t == s.(phase := Enter(p, s.phase.id + 1)))
            && (!open ==> t == if s.acks == [] then s else s.(recv := s.recv + 1, acks := s.acks[1..]))
  {
    hide Params.Off, Params.Fragments, Params.Last;
    StartInv(p);
    RunInv(p, Start(p), schedule);
    hide Run, Start;
    var s := Run(p, Start(p), schedule);
    assert s.acks != [] ==> s.acks[0] == s.recv && (s.recv + 1) % U32 == s.recv + 1;
  }

  /** Every chunk on the wire is a full fragment, but for the last one, which may be shorter. */
  lemma ChunksAreFragments(p: Params, schedule: seq<Actor>, i: nat)
    requires p.Valid() && p.Fragments() <= U32 - 2 && i < |Run(p, Start(p), schedule).chunks|
    ensures var c := Run(p, Start(p), schedule).chunks[i];
            && |c.data| <= p.fragmentSize && (!c.isLast ==> |c.data| == p.fragmentSize)
            && (p.size > 0 ==> c.data != [])
  {
    StartInv(p);
    RunInv(p, Start(p), schedule);
    hide Run, Start;
    var s := Run(p, Start(p), schedule);
    var k := s.recv + |s.acks| + i;
    assert IsPiece(p, s.chunks[i], k);
    PieceSize(p, s.chunks[i], k);
    EmptyChunkIffEmptyTransfer(p, s.chunks[i], k);
  }

  lemma PieceSize(p: Params, m: Message, i: nat)
    requires p.Valid() && i < p.Sent() && IsPiece(p, m, i)
    ensures |m.data| <= p.fragmentSize && (!m.isLast ==> |m.data| == p.fragmentSize)
  {
    OffIsMonotone(p, i, i + 1);
    if i < p.Fragments() { assert p.Off(i + 1) == p.Off(i) + p.fragmentSize; }
  }

  /** No deadlock: as long as the sender has not finished, somebody can move; in particular a sender
      that waits has a chunk or an acknowledgement in flight. */
  lemma TransferNeverStalls(p: Params, s: State)
    requires p.Valid() && Inv(p, s) && !CanStep(p, s, Sender) && !CanStep(p, s, Receiver)
    ensures s.phase.Finished? || s.phase.Failed?
  {
    hide Params.Off, Params.Last, Params.Fragments;
  }

  function Weight(phase: Phase): nat {
    match phase
    case Waiting(_) => 2
    case Finished => 0
    case Failed => 0
    case _ => 1
  }

  function Measure(p: Params, s: State): int
    requires p.Valid()
  {
    4 * (p.Sent() - SentSoFar(p, s)) + |s.chunks| + (p.Sent() - s.recv) + Weight(s.phase)
  }

  lemma StepDecreases(p: Params, s: State, who: Actor)
    requires p.Valid() && Inv(p, s) && CanStep(p, s, who)
    ensures 0 <= Measure(p, Step(p, s, who)) < Measure(p, s)
  {
    StepInv(p, s, who);
    hide Wire, Params.Off;
    WireCount(p, s, SentSoFar(p, s));
    WireCount(p, Step(p, s, who), SentSoFar(p, Step(p, s, who)));
  }

  ghost predicate EveryStepMoves(p: Params, s: State, schedule: seq<Actor>)
    requires p.Valid()
    decreases |schedule|
  {
    schedule == [] || (CanStep(p, s, schedule[0]) && EveryStepMoves(p, Step(p, s, schedule[0]), schedule[1..]))
  }

  lemma {:induction false} RunIsBounded(p: Params, s: State, schedule: seq<Actor>)
    requires p.Valid() && Inv(p, s) && EveryStepMoves(p, s, schedule)
    ensures |schedule| <= Measure(p, s)
    decreases |schedule|
  {
    if schedule != [] {
      StepDecreases(p, s, schedule[0]);
      StepInv(p, s, schedule[0]);
      RunIsBounded(p, Step(p, s, schedule[0]), schedule[1..]);
    }
  }

  /** Total correctness: every schedule makes boundedly many moves, and when nobody can move any more
      the receiver holds exactly the requested slice, provided the source has that many bytes. */
  lemma TransferCompletes(p: Params, schedule: seq<Actor>)
    requires p.Valid() && p.Fragments() <= U32 - 2 && p.size <= |p.source|
    ensures EveryStepMoves(p, Start(p), schedule) ==> |schedule| <= Measure(p, Start(p))
    ensures var s := Run(p, Start(p), schedule);
            !CanStep(p, s, Sender) && !CanStep(p, s, Receiver) ==>
              s.phase.Finished? && s.received == p.source[..p.size]
  {
    StartInv(p);
    RunInv(p, Start(p), schedule);
    var s := Run(p, Start(p), schedule);
    if EveryStepMoves(p, Start(p), schedule) { RunIsBounded(p, Start(p), schedule); }
    if !CanStep(p, s, Sender) && !CanStep(p, s, Receiver) {
      TransferNeverStalls(p, s);
      TransferIsSafe(p, schedule);
    }
  }

  /** Sending a range of a stored chunk delivers that range. */
  lemma RangeTransferDelivers(stream: seq<byte>, r: ChunkRange, fragmentSize: nat, chunkBuffer: nat,
      schedule: seq<Actor>)
    requires r.start <= r.end <= |stream|
    requires var params := SizeParams(|stream|, Some(r));
             var p := Params(stream[params.Offset()..], params.Size(), fragmentSize, chunkBuffer);
             p.Valid() && p.Fragments() <= U32 - 2 && Run(p, Start(p), schedule).phase.Finished?
    ensures var p := Params(stream[r.start..], r.end - r.start, fragmentSize, chunkBuffer);
            Run(p, Start(p), schedule).received == stream[r.start..r.end]
  {
    var p := Params(stream[r.start..], r.end - r.start, fragmentSize, chunkBuffer);
    TransferIsSafe(p, schedule);
    assert stream[r.start..][..r.end - r.start] == stream[r.start..r.end];
  }

  /** A transfer puts an empty chunk on the wire exactly when there is nothing to send. */
  lemma EmptyChunkIffEmptyTransfer(p: Params, m: Message, i: nat)
    requires p.Valid() && i < p.Sent() && IsPiece(p, m, i)
    ensures m.data == [] <==> p.size == 0
  {
    OffIsMonotone(p, i, i + 1);
    if i < p.Fragments() {
      assert p.Off(i + 1) == p.Off(i) + p.fragmentSize;
    }
  }

  /** More fragments than 32 bits can number are refused before anything is sent. */
  lemma {:induction false} TooManyFragmentsAreRefused(p: Params, schedule: seq<Actor>)
    requires p.Valid() && p.Fragments() > U32 - 2
    ensures Run(p, Start(p), schedule) == Start(p) && Start(p).phase == Failed
    decreases |schedule|
  {
    if schedule != [] { TooManyFragmentsAreRefused(p, schedule[1..]); }
  }
}
