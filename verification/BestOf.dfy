/**
 The best-of-N block encoder: the decimal exactness guard, the four INT_*
 candidates and the Gorilla XOR candidate, and the choice of the smallest.

 Float multiplication, rounding and division are parameters: what the guard
 guarantees does not depend on how they round.  The XOR chunk of the metrics
 library is a parameter too, any codec that decodes what it encodes.
 */
module BestOf {
  import opened Bits
  import opened Common
  import opened Wire
  import opened IntChunk
  import opened IntChunkCodec

  /** A float64, with the two zeros told apart. */
  datatype Float = NaN | Infinite(negative: bool) | NegZero | Num(value: real) {
    predicate IsFinite()
    {
      NegZero? || Num?
    }
  }

  /** The `==` of float64: NaN equals nothing and the zeros equal each other. */
  predicate NumEq(a: Float, b: Float)
  {
    && a != NaN && b != NaN
    && (if a == NegZero then Num(0.0) else a) == (if b == NegZero then Num(0.0) else b)
  }

  datatype Sample = Sample(t: Int64, v: Float)

  /** `round(v, e)` is `int64(math.Round(v * 10^e))`, or `None` when the rounded
      product leaves the int64 range; `unscale(i, e)` is `float64(i) / 10^e`. */
  datatype Arith = Arith(round: (Float, nat) -> Option<Int64>, unscale: (Int64, nat) -> Float)

  /** The XOR chunk codec. */
  datatype Xor = Xor(encode: seq<Sample> -> Option<Bytes>, decode: Bytes -> Option<seq<Sample>>)

  ghost predicate Lossless(x: Xor)
  {
    forall s :: x.encode(s).Some? ==> x.decode(x.encode(s).value) == Some(s)
  }

  // ---------------------------------------------------------------------
  // The exactness guard
  // ---------------------------------------------------------------------

  const MAX_SCALE_EXP: nat := 15

  predicate Exact(a: Arith, v: Float, e: nat)
  {
    a.round(v, e).Some? && NumEq(a.unscale(a.round(v, e).value, e), v)
  }

  predicate ExactAll(a: Arith, vals: seq<Float>, e: nat)
  {
    forall i :: 0 <= i < |vals| ==> Exact(a, vals[i], e)
  }

  predicate AllFinite(vals: seq<Float>)
  {
    forall i :: 0 <= i < |vals| ==> vals[i].IsFinite()
  }

  function Rounded(a: Arith, vals: seq<Float>, e: nat): (ints: seq<Int64>)
    requires ExactAll(a, vals, e)
    ensures |ints| == |vals|
  {
    seq(|vals|, i requires 0 <= i < |vals| => a.round(vals[i], e).value)
  }

  /** `e` is the smallest exponent that is exact for every value. */
  ghost predicate IsScale(a: Arith, vals: seq<Float>, e: nat)
  {
    && AllFinite(vals)
    && e <= MAX_SCALE_EXP
    && ExactAll(a, vals, e)
    && forall k: nat :: k < e ==> !ExactAll(a, vals, k)
  }

  method TryScale(a: Arith, vals: seq<Float>) returns (r: Option<(nat, seq<Int64>)>)
    ensures r.None? ==> forall e: nat :: !IsScale(a, vals, e)
    ensures r.Some? ==> var (e, ints) := r.value; IsScale(a, vals, e) && ints == Rounded(a, vals, e)
  {
    for i := 0 to |vals|
      invariant AllFinite(vals[..i])
    {
      if !vals[i].IsFinite() {
        return None;
      }
    }
    assert vals[..|vals|] == vals;
    for e := 0 to MAX_SCALE_EXP + 1
      invariant forall k: nat :: k < e ==> !ExactAll(a, vals, k)
    {
      var ints := TryExponent(a, vals, e);
      if ints.Some? {
        return Some((e, ints.value));
      }
    }
    return None;
  }

  method TryExponent(a: Arith, vals: seq<Float>, e: nat) returns (r: Option<seq<Int64>>)
    ensures r.Some? <==> ExactAll(a, vals, e)
    ensures r.Some? ==> r.value == Rounded(a, vals, e)
  {
    var cand: seq<Int64> := [];
    for i := 0 to |vals|
      invariant |cand| == i
      invariant forall j :: 0 <= j < i ==> Exact(a, vals[j], e) && cand[j] == a.round(vals[j], e).value
    {
      var iv := a.round(vals[i], e);
      if iv.None? || !NumEq(a.unscale(iv.value, e), vals[i]) {
        return None;
      }
      cand := cand + [iv.value];
    }
    return Some(cand);
  }

  // ---------------------------------------------------------------------
  // Decoding
  // ---------------------------------------------------------------------

  /** The samples an INT_* block stands for. */
  function Denote(a: Arith, b: Block): (s: seq<Sample>)
    requires |b.ts| == |b.ints|
    ensures |s| == |b.ts|
  {
    seq(|b.ts|, i requires 0 <= i < |b.ts| => Sample(b.ts[i], a.unscale(b.ints[i], b.scaleExp)))
  }

  function DecodeGorilla(x: Xor, s: Bytes): (r: Option<seq<Sample>>)
  {
    var (_, rest) :- GetUvarint(s);
    x.decode(rest)
  }

  function DecodeChunk(a: Arith, x: Xor, chunk: Bytes): (r: Option<seq<Sample>>)
  {
    if chunk == [] then None
    else if chunk[0] == 0 then DecodeGorilla(x, chunk[1..])
    else
      var b :- DecodeInt(chunk);
      Some(Denote(a, b))
  }

  function DecodeChunks(a: Arith, x: Xor, chunks: seq<Bytes>): (r: Option<seq<Sample>>)
  {
    if chunks == [] then Some([])
    else
      var s :- DecodeChunk(a, x, chunks[0]);
      var rest :- DecodeChunks(a, x, chunks[1..]);
      Some(s + rest)
  }

  /** Decodes one chunk by its tag byte. */
  method ReadChunk(a: Arith, x: Xor, chunk: Bytes) returns (r: Option<seq<Sample>>)
    ensures r == DecodeChunk(a, x, chunk)
  {
    hide GetUvarint, ParseChunk;
    var reader := new Reader(chunk);
    var tag := reader.ReadByte();
    if tag.None? {
      return None;
    }
    if tag.value == 0 {
      var n := reader.ReadUvarint();
      if n.None? {
        return None;
      }
      return x.decode(reader.buf[reader.pos..]);
    }
    var form := OfTag(tag.value);
    if form.None? {
      return None;
    }
    var b := DecodeIntChunk(reader, form.value.0, form.value.1);
    r := if b.None? then None else Some(Denote(a, b.value));
  }

  /** Decodes the chunks of a block one after another. */
  method ReadChunks(a: Arith, x: Xor, chunks: seq<Bytes>) returns (r: Option<seq<Sample>>)
    ensures r == DecodeChunks(a, x, chunks)
  {
    hide DecodeChunk;
    var out: seq<Sample> := [];
    assert chunks[0..] == chunks;
    ghost var goal := DecodeChunks(a, x, chunks);
    assert goal.Some? ==> [] + goal.value == goal.value;
    for i := 0 to |chunks|
      invariant goal == Onto(out, DecodeChunks(a, x, chunks[i..]))
    {
      OntoStep(a, x, out, chunks[i..]);
      var s := ReadChunk(a, x, chunks[i]);
      if s.None? {
        return None;
      }
      out := out + s.value;
    }
    assert out + [] == out;
    r := Some(out);
  }

  ghost function Onto(out: seq<Sample>, p: Option<seq<Sample>>): (r: Option<seq<Sample>>)
  {
    if p.None? then None else Some(out + p.value)
  }

  /** No chunk is read without a tag, or under one past 4. */
  lemma TagRefused(a: Arith, x: Xor, c: Bytes)
    requires c == [] || c[0] > 4
    ensures DecodeChunk(a, x, c).None?
  {
  }

  lemma OntoStep(a: Arith, x: Xor, out: seq<Sample>, chunks: seq<Bytes>)
    requires chunks != []
    ensures Onto(out, DecodeChunks(a, x, chunks)) ==
            match DecodeChunk(a, x, chunks[0])
            case None => None
            case Some(s) => Onto(out + s, DecodeChunks(a, x, chunks[1..]))
  {
    hide DecodeChunk;
    var s, rest := DecodeChunk(a, x, chunks[0]), DecodeChunks(a, x, chunks[1..]);
    if s.Some? && rest.Some? {
      Assoc(out, s.value, rest.value);
    }
  }

  lemma DecodeIntChunkExact(a: Arith, x: Xor, b: Block, dod: bool, body: Body)
    requires Encodable(b, dod)
    ensures DecodeChunk(a, x, ChunkBytes(b, dod, body)) == Some(Denote(a, b))
  {
    DecodeIntExact(b, dod, body);
    assert ChunkBytes(b, dod, body)[0] == Tag(dod, body) != 0;
  }

  lemma DenoteSplit(a: Arith, b: Block, e: nat)
    requires e <= |b.ts| == |b.ints|
    ensures Denote(a, Head(b, e)) + Denote(a, Tail(b, e)) == Denote(a, b)
  {
  }

  lemma {:induction false} DecodeIntChunks(a: Arith, x: Xor, b: Block, dod: bool, body: Body)
    requires |b.ts| == |b.ints| < TWO64
    ensures DecodeChunks(a, x, Chunks(b, dod, body)) == Some(Denote(a, b))
    decreases |b.ints|
  {
    if b.ints != [] {
      hide ChunkBytes, Encodable, DecodeChunk, Denote;
      ChunksStep(b, dod, body);
      var e := CutEnd(b.ints, dod);
      DecodeIntChunkExact(a, x, Head(b, e), dod, body);
      DecodeIntChunks(a, x, Tail(b, e), dod, body);
      DenoteSplit(a, b, e);
    }
  }

  // ---------------------------------------------------------------------
  // Encoding
  // ---------------------------------------------------------------------

  const XOR_CHUNK_MAX_SAMPLES: nat := 0x1_0000

  function EncodeGorilla(x: Xor, samples: seq<Sample>): (r: Option<Bytes>)
  {
    if |samples| == 0 || |samples| >= XOR_CHUNK_MAX_SAMPLES then None
    else
      var body :- x.encode(samples);
      Some([0] + (Uvarint(|samples|) + body))
  }

  /** The four INT codecs take their turns by tag, and the XOR codec comes last. */
  lemma XorLast(c: Candidate, d: Candidate)
    requires 1 <= c.tag <= 4
    ensures d.tag == 0 ==> c.Turn() < d.Turn()
    ensures 1 <= d.tag <= 4 ==> (c.Turn() < d.Turn() <==> c.tag < d.tag)
  {
  }

  /** The XOR codec is a candidate for 1 to 65535 samples, whenever it takes them. */
  lemma GorillaOffered(x: Xor, samples: seq<Sample>)
    ensures EncodeGorilla(x, samples).Some? <==> 0 < |samples| < 65536 && x.encode(samples).Some?
    ensures EncodeGorilla(x, samples).Some? ==>
              EncodeGorilla(x, samples).value == [0] + Uvarint(|samples|) + x.encode(samples).value
  {
    if EncodeGorilla(x, samples).Some? {
      Assoc([0], Uvarint(|samples|), x.encode(samples).value);
    }
  }

  lemma GorillaRoundTrip(a: Arith, x: Xor, samples: seq<Sample>)
    requires Lossless(x) && EncodeGorilla(x, samples).Some?
    ensures DecodeChunks(a, x, [EncodeGorilla(x, samples).value]) == Some(samples)
  {
    var body := x.encode(samples).value;
    var c := EncodeGorilla(x, samples).value;
    UvarintRoundTrip(|samples|, body);
    assert c[1..] == Uvarint(|samples|) + body;
    assert DecodeChunk(a, x, c) == Some(samples);
    assert [c] == [c] + [];
    assert samples + [] == samples;
  }

  function TotalLength(chunks: seq<Bytes>): (n: nat)
  {
    if chunks == [] then 0 else |chunks[0]| + TotalLength(chunks[1..])
  }

  datatype Candidate = Candidate(tag: Byte, chunks: seq<Bytes>) {
    /** The order candidates are built in: INT_* by tag, then Gorilla. */
    function Turn(): (n: nat)
    {
      if tag == 0 then 5 else tag
    }
  }

  predicate InTurn(cs: seq<Candidate>)
  {
    forall i, k :: 0 <= i < k < |cs| ==> cs[i].Turn() < cs[k].Turn()
  }

  /** Smaller, or as small and built earlier. */
  predicate Beats(c: Candidate, d: Candidate)
  {
    || TotalLength(c.chunks) < TotalLength(d.chunks)
    || (TotalLength(c.chunks) == TotalLength(d.chunks) && c.Turn() <= d.Turn())
  }

  function Values(samples: seq<Sample>): (vs: seq<Float>)
    ensures |vs| == |samples|
  {
    seq(|samples|, i requires 0 <= i < |samples| => samples[i].v)
  }

  function Times(samples: seq<Sample>): (ts: seq<Int64>)
    ensures |ts| == |samples|
  {
    seq(|samples|, i requires 0 <= i < |samples| => samples[i].t)
  }

  /** Equal as float64 comparison sees it, sample by sample. */
  predicate SameSamples(s: seq<Sample>, t: seq<Sample>)
  {
    |s| == |t| && forall i :: 0 <= i < |s| ==> s[i].t == t[i].t && NumEq(s[i].v, t[i].v)
  }

  /** What decoding may return for `samples`: the samples themselves, or for the
      INT codecs samples that compare equal. */
  predicate Faithful(a: Arith, x: Xor, c: Candidate, samples: seq<Sample>)
  {
    var r := DecodeChunks(a, x, c.chunks);
    r.Some? && (if c.tag == 0 then r.value == samples else SameSamples(r.value, samples))
  }

  function IntBlock(a: Arith, samples: seq<Sample>, e: nat): (b: Block)
    requires e <= MAX_SCALE_EXP && ExactAll(a, Values(samples), e)
  {
    Block(Times(samples), e, Rounded(a, Values(samples), e))
  }

  /** The guard is what makes the INT codecs lossless up to the sign of zero. */
  lemma IntFaithful(a: Arith, x: Xor, samples: seq<Sample>, e: nat, dod: bool, body: Body)
    requires |samples| < TWO64 && e <= MAX_SCALE_EXP && ExactAll(a, Values(samples), e)
    ensures Faithful(a, x, Candidate(Tag(dod, body), Chunks(IntBlock(a, samples, e), dod, body)), samples)
  {
    var b := IntBlock(a, samples, e);
    DecodeIntChunks(a, x, b, dod, body);
    IntSame(a, samples, e);
  }

  lemma IntSame(a: Arith, samples: seq<Sample>, e: nat)
    requires e <= MAX_SCALE_EXP && ExactAll(a, Values(samples), e)
    ensures SameSamples(Denote(a, IntBlock(a, samples, e)), samples)
  {
    var vs, s := Values(samples), Denote(a, IntBlock(a, samples, e));
    forall i | 0 <= i < |samples|
      ensures s[i].t == samples[i].t && NumEq(s[i].v, samples[i].v)
    {
      assert Exact(a, vs[i], e);
    }
  }

  /** Division never yields negative zero, so the INT codecs are bit-exact
      exactly on inputs without one. */
  lemma IntBitExactIff(a: Arith, samples: seq<Sample>, e: nat)
    requires e <= MAX_SCALE_EXP && ExactAll(a, Values(samples), e)
    requires forall i, k :: a.unscale(i, k) != NegZero
    ensures Denote(a, IntBlock(a, samples, e)) == samples <==>
            forall i :: 0 <= i < |samples| ==> samples[i].v != NegZero
  {
    var s := Denote(a, IntBlock(a, samples, e));
    IntSame(a, samples, e);
    forall i | 0 <= i < |samples|
      ensures s[i] == samples[i] <==> samples[i].v != NegZero
    {
      assert s[i].v == a.unscale(Rounded(a, Values(samples), e)[i], e);
    }
  }

  function IntCandidate(a: Arith, samples: seq<Sample>, e: nat, dod: bool, body: Body): (c: Candidate)
    requires |samples| < TWO64 && e <= MAX_SCALE_EXP && ExactAll(a, Values(samples), e)
  {
    Candidate(Tag(dod, body), Chunks(IntBlock(a, samples, e), dod, body))
  }

  ghost predicate IsIntCandidate(a: Arith, samples: seq<Sample>, c: Candidate)
    requires |samples| < TWO64
  {
    exists e: nat, dod, body ::
      IsScale(a, Values(samples), e) && c == IntCandidate(a, samples, e, dod, body)
  }

  /** The encodings that compete for a block. */
  ghost predicate IsCandidate(a: Arith, x: Xor, samples: seq<Sample>, c: Candidate)
    requires |samples| < TWO64
  {
    || (EncodeGorilla(x, samples).Some? && c == Candidate(0, [EncodeGorilla(x, samples).value]))
    || IsIntCandidate(a, samples, c)
  }

  lemma IntCandidateFaithful(a: Arith, x: Xor, samples: seq<Sample>, c: Candidate)
    requires |samples| < TWO64 && IsIntCandidate(a, samples, c)
    ensures Faithful(a, x, c, samples)
  {
    var e: nat, dod, body :|
      IsScale(a, Values(samples), e) && c == IntCandidate(a, samples, e, dod, body);
    IntFaithful(a, x, samples, e, dod, body);
  }

  /** Whichever candidate wins, decoding returns the samples. */
  lemma CandidateFaithful(a: Arith, x: Xor, samples: seq<Sample>, c: Candidate)
    requires |samples| < TWO64 && Lossless(x)
    requires IsCandidate(a, x, samples, c)
    ensures Faithful(a, x, c, samples)
  {
    if IsIntCandidate(a, samples, c) {
      IntCandidateFaithful(a, x, samples, c);
    } else {
      GorillaRoundTrip(a, x, samples);
    }
  }

  lemma ScaleUnique(a: Arith, vals: seq<Float>, e: nat, k: nat)
    requires IsScale(a, vals, e) && IsScale(a, vals, k)
    ensures e == k
  {
    assert !(e < k) && !(k < e);
  }

  method IntCandidates(a: Arith, samples: seq<Sample>) returns (cands: seq<Candidate>)
    requires 0 < |samples| < TWO64
    ensures forall c :: c in cands <==> IsIntCandidate(a, samples, c)
    ensures InTurn(cands) && forall c :: c in cands ==> c.Turn() < 5
  {
    hide IntCandidate, IsIntCandidate, IsScale;
    var scaled := TryScale(a, Values(samples));
    if scaled.None? {
      NoScaleNoCandidate(a, samples);
      return [];
    }
    var (e, ints) := scaled.value;
    var b := Block(Times(samples), e, ints);
    var c0 := EncodeVariant(a, samples, e, b, false, Fixed);
    var c1 := EncodeVariant(a, samples, e, b, true, Fixed);
    var c2 := EncodeVariant(a, samples, e, b, false, Varints);
    var c3 := EncodeVariant(a, samples, e, b, true, Varints);
    cands := [c0, c1, c2, c3];
    IntCandidatesAre(a, samples, e);
  }

  lemma NoScaleNoCandidate(a: Arith, samples: seq<Sample>)
    requires |samples| < TWO64 && forall e: nat :: !IsScale(a, Values(samples), e)
    ensures forall c :: !IsIntCandidate(a, samples, c)
  {
  }

  method EncodeVariant(a: Arith, samples: seq<Sample>, e: nat, b: Block, dod: bool, body: Body)
    returns (c: Candidate)
    requires 0 < |samples| < TWO64 && IsScale(a, Values(samples), e) && b == IntBlock(a, samples, e)
    ensures c == IntCandidate(a, samples, e, dod, body) && c.tag == Tag(dod, body)
  {
    var chunks := EncodeIntChunks(b, dod, body);
    c := Candidate(Tag(dod, body), chunks.value);
  }

  lemma IntCandidateIs(a: Arith, samples: seq<Sample>, e: nat, c: Candidate)
    requires |samples| < TWO64 && IsScale(a, Values(samples), e)
    ensures IsIntCandidate(a, samples, c) <==> exists dod, body :: c == IntCandidate(a, samples, e, dod, body)
  {
    if IsIntCandidate(a, samples, c) {
      var k: nat, dod, body :|
        IsScale(a, Values(samples), k) && c == IntCandidate(a, samples, k, dod, body);
      ScaleUnique(a, Values(samples), e, k);
    }
  }

  lemma IntCandidatesAre(a: Arith, samples: seq<Sample>, e: nat)
    requires |samples| < TWO64 && IsScale(a, Values(samples), e)
    ensures forall c :: IsIntCandidate(a, samples, c) <==>
                        c in [IntCandidate(a, samples, e, false, Fixed), IntCandidate(a, samples, e, true, Fixed),
                              IntCandidate(a, samples, e, false, Varints), IntCandidate(a, samples, e, true, Varints)]
  {
    var all := [IntCandidate(a, samples, e, false, Fixed), IntCandidate(a, samples, e, true, Fixed),
                IntCandidate(a, samples, e, false, Varints), IntCandidate(a, samples, e, true, Varints)];
    hide IntCandidate, IsIntCandidate;
    forall c
      ensures IsIntCandidate(a, samples, c) <==> c in all
    {
      IntCandidateIs(a, samples, e, c);
      if IsIntCandidate(a, samples, c) {
        var dod, body :| c == IntCandidate(a, samples, e, dod, body);
        assert body == Fixed || body == Varints;
        assert dod == true || dod == false;
      }
    }
  }

  /** The first of the smallest candidates. */
  method Smallest(cs: seq<Candidate>) returns (best: Candidate)
    requires cs != [] && InTurn(cs)
    ensures best in cs
    ensures forall c :: c in cs ==> Beats(best, c)
  {
    hide TotalLength;
    best := cs[0];
    for i := 1 to |cs|
      invariant best in cs[..i]
      invariant forall j :: 0 <= j < i ==> Beats(best, cs[j])
    {
      assert best.Turn() < cs[i].Turn();
      if TotalLength(cs[i].chunks) < TotalLength(best.chunks) {
        best := cs[i];
      }
    }
  }

  /** `None` for no samples, or when the values do not scale and the XOR codec
      declines; otherwise the smallest candidate, the first built among equals,
      and decoding it returns the samples. */
  method Encode(a: Arith, x: Xor, samples: seq<Sample>) returns (best: Option<Candidate>)
    requires |samples| < TWO64
    ensures best.None? <==> samples == [] || forall c :: !IsCandidate(a, x, samples, c)
    ensures best.Some? ==> IsCandidate(a, x, samples, best.value)
    ensures best.Some? ==> forall c :: IsCandidate(a, x, samples, c) ==> Beats(best.value, c)
    ensures best.Some? && Lossless(x) ==> Faithful(a, x, best.value, samples)
  {
    hide IsIntCandidate, EncodeGorilla, TotalLength, Faithful;
    if |samples| == 0 {
      return None;
    }
    var cands := IntCandidates(a, samples);
    var g := EncodeGorilla(x, samples);
    if g.Some? {
      cands := cands + [Candidate(0, [g.value])];
    }
    assert forall c :: c in cands <==> IsCandidate(a, x, samples, c);
    if |cands| == 0 {
      return None;
    }
    assert cands[0] in cands;
    var b := Smallest(cands);
    best := Some(b);
    if Lossless(x) {
      CandidateFaithful(a, x, samples, b);
    }
  }
}
