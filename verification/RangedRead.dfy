/** Byte ranges inside one chunk, as they travel between nodes: end-exclusive, with (0, 0) standing
    for the whole chunk. */
module ChunkRanges {
  import opened Common

  datatype ChunkRange = ChunkRange(start: nat, end: nat)

  const WHOLE := ChunkRange(0, 0)

  /** Refuses empty and backward ranges. */
  function New(start: nat, end: nat): Option<ChunkRange> {
    if start >= end then None else Some(ChunkRange(start, end))
  }

  /** The sum is taken in 64 bits. */
  function IntoOption(r: ChunkRange): Option<ChunkRange> {
    if (r.start + r.end) % U64 != 0 then Some(r) else None
  }

  /** A proper range is mistaken for the whole chunk exactly when its bounds sum to 2^64. */
  lemma SentinelIsUnambiguous(start: nat, end: nat)
    requires start < end < U64
    ensures IntoOption(ChunkRange(start, end)) == None <==> start + end == U64
    ensures IntoOption(WHOLE) == None
  {
  }
}

/** Ranged downloads: an end-inclusive byte range of a file, cut into one slice per ordered chunk. */
module RangedRead {
  import opened Common
  import opened Sums
  import opened ChunkRanges

  /** The slice of one chunk of `size` bytes that starts at file offset `start`; `None` skips the chunk. */
  function Slice(size: nat, start: nat, lo: nat, hi: nat): Option<ChunkRange> {
    var end := start + size - 1;
    var from, to := Max(start, lo), Min(end, hi);
    if to < from then None
    else if to != end || from != start then Some(ChunkRange(from - start, to + 1 - start))
    else Some(WHOLE)
  }

  function Slices(sizes: seq<nat>, start: nat, lo: nat, hi: nat): seq<Option<ChunkRange>> {
    if sizes == [] then [] else [Slice(sizes[0], start, lo, hi)] + Slices(sizes[1..], start + sizes[0], lo, hi)
  }

  /** The loop that cuts the range. `None` would be a refused chunk range; it never happens. */
  method ComputeChunkRanges(sizes: seq<nat>, range: Option<(nat, nat)>) returns (r: Option<seq<Option<ChunkRange>>>)
    ensures range.None? ==> r == Some(seq(|sizes|, _ => Some(WHOLE)))
    ensures range.Some? ==> r == Some(Slices(sizes, 0, range.value.0, range.value.1))
  {
    var ranges: seq<Option<ChunkRange>> := seq(|sizes|, _ => Some(WHOLE));
    if range.Some? {
      var (lo, hi) := range.value;
      var start: nat := 0;
      var i := 0;
      SlicesLength(sizes, 0, lo, hi);
      while i < |sizes|
        invariant 0 <= i <= |sizes| == |ranges| && start == Total(sizes[..i])
        invariant forall k :: 0 <= k < i ==> ranges[k] == Slices(sizes, 0, lo, hi)[k]
        invariant forall k :: i <= k < |sizes| ==> ranges[k] == Some(WHOLE)
      {
        SlicesAt(sizes, 0, lo, hi, i);
        TotalStep(sizes, i);
        var end: int := start + sizes[i] - 1;
        var from, to := Max(start, lo), Min(end, hi);
        if to < from {
          ranges := ranges[i := None];
        } else if to != end || from != start {
          var slice := New(from - start, to + 1 - start);
          if slice.None? { return None; }
          ranges := ranges[i := slice];
        }
        start := start + sizes[i];
        i := i + 1;
      }
      assert ranges == Slices(sizes, 0, lo, hi);
    }
    return Some(ranges);
  }

  lemma {:induction false} SlicesLength(sizes: seq<nat>, start: nat, lo: nat, hi: nat)
    ensures |Slices(sizes, start, lo, hi)| == |sizes|
  {
    if sizes != [] { SlicesLength(sizes[1..], start + sizes[0], lo, hi); }
  }

  /** Chunk `k` is cut at the file offset where it starts. */
  lemma {:induction false} SlicesAt(sizes: seq<nat>, start: nat, lo: nat, hi: nat, k: nat)
    requires k < |sizes|
    ensures |Slices(sizes, start, lo, hi)| == |sizes|
    ensures Slices(sizes, start, lo, hi)[k] == Slice(sizes[k], start + Total(sizes[..k]), lo, hi)
  {
    SlicesLength(sizes, start, lo, hi);
    if k > 0 {
      SlicesAt(sizes[1..], start + sizes[0], lo, hi, k - 1);
      assert sizes[..k][1..] == sizes[1..][..k - 1];
    }
  }

  // ---- what arrives

  function Concat(chunks: seq<seq<byte>>): seq<byte> {
    if chunks == [] then [] else chunks[0] + Concat(chunks[1..])
  }

  function Lengths(chunks: seq<seq<byte>>): seq<nat> {
    if chunks == [] then [] else [|chunks[0]|] + Lengths(chunks[1..])
  }

  /** What a storage node sends for one chunk: the seeked slice, or all of it. */
  function Outbound(chunk: seq<byte>, range: Option<ChunkRange>): seq<byte> {
    match range
    case None => chunk
    case Some(r) => if r.start <= r.end <= |chunk| then chunk[r.start..r.end] else []
  }

  function Sent(chunks: seq<seq<byte>>, ranges: seq<Option<ChunkRange>>): seq<byte>
    requires |chunks| == |ranges|
  {
    if chunks == [] then []
    else SentOne(chunks[0], ranges[0]) + Sent(chunks[1..], ranges[1..])
  }

  lemma {:induction false} ConcatLength(chunks: seq<seq<byte>>)
    ensures |Concat(chunks)| == Total(Lengths(chunks)) && |Lengths(chunks)| == |chunks|
  {
    if chunks != [] {
      ConcatLength(chunks[1..]);
      assert Lengths(chunks)[1..] == Lengths(chunks[1..]);
    }
  }

  function Clip(x: int, n: nat): nat {
    Max(0, Min(x, n))
  }

  /** The part of `bytes`, which start at file offset `start`, that the range covers. */
  function Part(bytes: seq<byte>, start: nat, lo: nat, hi: nat): seq<byte>
    requires lo <= hi
  {
    bytes[Clip(lo - start, |bytes|)..Clip(hi + 1 - start, |bytes|)]
  }

  lemma PartOfConcat(c: seq<byte>, rest: seq<byte>, start: nat, lo: nat, hi: nat)
    requires lo <= hi
    ensures Part(c + rest, start, lo, hi) == Part(c, start, lo, hi) + Part(rest, start + |c|, lo, hi)
  {
  }

  function SentOne(chunk: seq<byte>, range: Option<ChunkRange>): seq<byte> {
    match range
    case None => []
    case Some(r) => Outbound(chunk, IntoOption(r))
  }

  /** One chunk contributes exactly the part of the range that falls inside it, and its slice is never
      taken for the whole-chunk sentinel. */
  lemma SliceDelivers(chunk: seq<byte>, start: nat, lo: nat, hi: nat)
    requires lo <= hi && start + |chunk| < I64
    ensures var s := Slice(|chunk|, start, lo, hi);
            && SentOne(chunk, s) == Part(chunk, start, lo, hi)
            && (s.Some? && s.value != WHOLE ==> s.value.start < s.value.end <= |chunk| && IntoOption(s.value) == s)
  {
  }

  /** A chunk is skipped exactly when it has no part in the range, and asked for as a whole exactly when it is all
      in it. */
  lemma SliceIsTight(chunk: seq<byte>, start: nat, lo: nat, hi: nat)
    requires lo <= hi
    ensures var s := Slice(|chunk|, start, lo, hi);
            && (s == None <==> Part(chunk, start, lo, hi) == [])
            && (s == Some(WHOLE) <==> chunk != [] && Part(chunk, start, lo, hi) == chunk)
  {
  }

  lemma {:induction false} SlicesDeliver(chunks: seq<seq<byte>>, start: nat, lo: nat, hi: nat)
    requires lo <= hi && start + |Concat(chunks)| < I64
    ensures var ranges := Slices(Lengths(chunks), start, lo, hi);
            |ranges| == |chunks| && Sent(chunks, ranges) == Part(Concat(chunks), start, lo, hi)
    decreases |chunks|
  {
    if chunks != [] {
      hide Slice, Slices, Part, SentOne, Sent, Concat, Lengths;
      var c, rest := chunks[0], chunks[1..];
      SlicesCons(chunks, start, lo, hi);
      SliceDelivers(c, start, lo, hi);
      SlicesDeliver(rest, start + |c|, lo, hi);
      SentCons(chunks, Slice(|c|, start, lo, hi), Slices(Lengths(rest), start + |c|, lo, hi));
      PartOfConcat(c, Concat(rest), start, lo, hi);
    }
  }

  lemma SlicesCons(chunks: seq<seq<byte>>, start: nat, lo: nat, hi: nat)
    requires chunks != []
    ensures var c, rest := chunks[0], chunks[1..];
            && Slices(Lengths(chunks), start, lo, hi) ==
               [Slice(|c|, start, lo, hi)] + Slices(Lengths(rest), start + |c|, lo, hi)
            && Concat(chunks) == c + Concat(rest)
  {
    assert Lengths(chunks)[1..] == Lengths(chunks[1..]);
  }

  lemma SentCons(chunks: seq<seq<byte>>, r: Option<ChunkRange>, rs: seq<Option<ChunkRange>>)
    requires |chunks| == 1 + |rs|
    ensures Sent(chunks, [r] + rs) == SentOne(chunks[0], r) + Sent(chunks[1..], rs)
  {
    assert ([r] + rs)[1..] == rs;
  }

  /** For every satisfiable range and every list of ordered chunks, empty ones included, the slices sent
      add up to exactly that range of the file. */
  lemma RangedReadIsExact(chunks: seq<seq<byte>>, lo: nat, hi: nat)
    requires lo <= hi < |Concat(chunks)| < I64
    ensures var ranges := Slices(Lengths(chunks), 0, lo, hi);
            |ranges| == |chunks| && Sent(chunks, ranges) == Concat(chunks)[lo..hi + 1]
  {
    SlicesDeliver(chunks, 0, lo, hi);
  }

  /** Without a range every chunk is sent whole. */
  lemma {:induction false} FullReadIsExact(chunks: seq<seq<byte>>)
    ensures Sent(chunks, seq(|chunks|, _ => Some(WHOLE))) == Concat(chunks)
    decreases |chunks|
  {
    if chunks != [] {
      var ranges := seq(|chunks|, _ => Some(WHOLE));
      assert ranges[1..] == seq(|chunks[1..]|, _ => Some(WHOLE));
      FullReadIsExact(chunks[1..]);
    }
  }
}
