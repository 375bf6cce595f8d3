/**
 How many bytes the encodings of a block take: between one and 54 for each sample
 of an INT codec.
 */
module ChunkSizes {
  import opened Bits
  import opened Common
  import opened Wire
  import opened BitPack
  import opened IntChunk
  import opened IntChunkCodec
  import opened BestOf

  const MAX_BYTES_PER_SAMPLE: nat := 54

  lemma {:induction false} VarintRunSize(rs: seq<Int64>)
    ensures |rs| <= |VarintRun(rs)| <= 10 * |rs|
  {
    hide Uvarint;
    if rs != [] {
      UvarintShort(Zigzag(rs[0]));
      VarintRunSize(rs[1..]);
    }
  }

  lemma ColumnSize(ts: seq<Int64>)
    ensures |ts| <= |Column(ts)| <= 10 * |ts|
  {
    hide Uvarint;
    if ts != [] {
      UvarintShort(Zigzag(ts[0]));
      VarintRunSize(ColumnResiduals(ts, true));
    }
  }

  lemma BodySize(rs: seq<Int64>, body: Body)
    requires AllFit(rs)
    ensures |BodyBytes(rs, body)| <= 10 * |rs| + 2
  {
    hide Fields, Pack, VarintRun;
    match body
    case Varints => VarintRunSize(rs);
    case Fixed =>
      WidthIsByte(rs);
      var us := Zigzags(rs);
      UnpackRoundTrip(us, MaxLen(us), []);
      WidthTimes(|rs|, MaxLen(us));
  }

  lemma WidthTimes(n: nat, w: nat)
    requires w <= MAX_RESIDUAL_WIDTH
    ensures PackedLength(n, w) <= 7 * n + 1
  {
    assert n * w <= 56 * n by {
      MulBoth(w, 56, n);
    }
  }

  lemma ChunkSize(b: Block, dod: bool, body: Body)
    requires Encodable(b, dod)
    ensures |b.ts| <= |ChunkBytes(b, dod, body)| <= MAX_BYTES_PER_SAMPLE * |b.ts|
  {
    hide Uvarint, Column, BodyBytes, ColumnResiduals;
    UvarintShort(|b.ts|);
    ColumnSize(b.ts);
    UvarintShort(Zigzag(b.ints[0]));
    UvarintShort(Zigzag(FirstResidual(b.ints, dod)));
    RestFits(b.ints, dod);
    BodySize(RestResiduals(b.ints, dod), body);
  }

  lemma {:induction false} ChunksSize(b: Block, dod: bool, body: Body)
    requires |b.ts| == |b.ints| < TWO64
    ensures |b.ts| <= TotalLength(Chunks(b, dod, body)) <= MAX_BYTES_PER_SAMPLE * |b.ts|
    ensures |Chunks(b, dod, body)| <= |b.ts|
    decreases |b.ints|
  {
    if b.ints != [] {
      hide ChunkBytes, Encodable;
      ChunksStep(b, dod, body);
      var e := CutEnd(b.ints, dod);
      TailLength(b, e);
      ChunkSize(Head(b, e), dod, body);
      ChunksSize(Tail(b, e), dod, body);
      var c := ChunkBytes(Head(b, e), dod, body);
      assert ([c] + Chunks(Tail(b, e), dod, body))[1..] == Chunks(Tail(b, e), dod, body);
    }
  }

  /** An INT candidate takes at least a byte for each sample, and not many more. */
  lemma IntCandidateSize(a: Arith, samples: seq<Sample>, c: Candidate)
    requires |samples| < TWO64 && IsIntCandidate(a, samples, c)
    ensures |samples| <= TotalLength(c.chunks) <= MAX_BYTES_PER_SAMPLE * |samples|
  {
    var e: nat, dod, body :| IsScale(a, Values(samples), e) && c == IntCandidate(a, samples, e, dod, body);
    ChunksSize(IntBlock(a, samples, e), dod, body);
  }

  /** The XOR codec declines 65536 samples or more, so a longer series takes at least
      a byte for each sample whatever wins. */
  lemma LongCandidateSize(a: Arith, x: Xor, samples: seq<Sample>, c: Candidate)
    requires XOR_CHUNK_MAX_SAMPLES <= |samples| < TWO64 && IsCandidate(a, x, samples, c)
    ensures |samples| <= TotalLength(c.chunks) <= MAX_BYTES_PER_SAMPLE * |samples|
  {
    IntCandidateSize(a, samples, c);
  }

  // ---------------------------------------------------------------------
  // Negative zero
  // ---------------------------------------------------------------------

  /** Both zeros round to 0, and 0 scales back to the positive one, as in the float
      operations. */
  predicate Zeroes(a: Arith)
  {
    a.round(NegZero, 0) == Some(0) && a.round(Num(0.0), 0) == Some(0) && a.unscale(0, 0) == Num(0.0)
  }

  const NEGATIVE: seq<Sample> := [Sample(0, NegZero)]

  lemma NegativeScales(a: Arith)
    requires Zeroes(a)
    ensures IsScale(a, Values(NEGATIVE), 0)
  {
    assert Values(NEGATIVE) == [NegZero];
  }

  /** Every INT candidate of a lone negative zero decodes to a positive one. */
  lemma NegZeroDecodes(a: Arith, x: Xor, c: Candidate)
    requires Zeroes(a) && IsIntCandidate(a, NEGATIVE, c)
    ensures DecodeChunks(a, x, c.chunks) == Some([Sample(0, Num(0.0))])
  {
    hide Chunks, DecodeChunks;
    var e: nat, dod, body :| IsScale(a, Values(NEGATIVE), e) && c == IntCandidate(a, NEGATIVE, e, dod, body);
    NegativeScales(a);
    assert e == 0;
    var b := IntBlock(a, NEGATIVE, e);
    DecodeIntChunks(a, x, b, dod, body);
    assert Denote(a, b) == [Sample(0, Num(0.0))];
  }

  lemma NegativeSize(a: Arith)
    requires Zeroes(a) && IsScale(a, Values(NEGATIVE), 0)
    ensures TotalLength(IntCandidate(a, NEGATIVE, 0, false, Varints).chunks) == 6
  {
    var b := IntBlock(a, NEGATIVE, 0);
    assert b.ts == [0] && b.ints == [0];
    ChunksStep(b, false, Varints);
    assert ColumnResiduals([0], false) == [] && ColumnResiduals([0], true) == [];
    assert CutEnd(b.ints, false) == 1;
    assert Head(b, 1) == b && Tail(b, 1).ints == [];
    assert Uvarint(1) == [1] && Varint(0) == [0];
    assert Column([0]) == [0] + VarintRun([]);
    assert |ChunkBytes(b, false, Varints)| == 6;
    var c := ChunkBytes(b, false, Varints);
    assert TotalLength([c] + []) == |c| + TotalLength([]);
  }

  /** With such arithmetic, and any XOR codec that spends at least the eight bytes of the
      value on it, the encoder stores a lone negative zero by an INT codec, and it comes
      back positive. */
  method NegZeroExample(a: Arith, x: Xor) returns (best: Option<Candidate>)
    requires Zeroes(a) && (x.encode(NEGATIVE).Some? ==> |x.encode(NEGATIVE).value| >= 8)
    ensures best.Some? && DecodeChunks(a, x, best.value.chunks) == Some([Sample(0, Num(0.0))])
  {
    hide TotalLength, Uvarint;
    NegativeScales(a);
    NegativeSize(a);
    ghost var c := IntCandidate(a, NEGATIVE, 0, false, Varints);
    assert IsIntCandidate(a, NEGATIVE, c);
    best := Encode(a, x, NEGATIVE);
    assert IsCandidate(a, x, NEGATIVE, c);
    IntWins(a, x, best.value, c);
    NegZeroDecodes(a, x, best.value);
  }

  lemma IntWins(a: Arith, x: Xor, best: Candidate, c: Candidate)
    requires x.encode(NEGATIVE).Some? ==> |x.encode(NEGATIVE).value| >= 8
    requires IsCandidate(a, x, NEGATIVE, best) && Beats(best, c) && TotalLength(c.chunks) == 6
    ensures IsIntCandidate(a, NEGATIVE, best)
  {
    var g := EncodeGorilla(x, NEGATIVE);
    if g.Some? {
      assert TotalLength([g.value]) == |g.value| + TotalLength([]);
    }
  }
}
