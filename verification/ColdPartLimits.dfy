/**
 Which inputs make a part whose run lengths do not fit their 32-bit fields.
 */
module ColdPartLimits {
  import opened Common
  import opened Wire
  import opened IntChunk
  import opened BestOf
  import opened ChunkSizes
  import opened ColdPartFormat
  import opened ColdPart

  lemma {:induction false} ConcatTotal(chunks: seq<Bytes>)
    ensures |Concat(chunks)| == TotalLength(chunks)
  {
    if chunks != [] {
      ConcatTotal(chunks[1..]);
    }
  }

  lemma RunTotal(a: Arith, x: Xor, im: Image, ss: seq<Series>, cs: seq<Candidate>, i: nat)
    requires Holds(a, x, im, ss, cs) && i < |ss|
    ensures im.entries[i].runLen == TotalLength(cs[i].chunks)
  {
    hide Faithful, Concat, TotalLength;
    assert HoldsAt(a, x, im, i, ss[i], cs[i]);
    ConcatTotal(cs[i].chunks);
  }

  /** A part that holds a series of 2^32 samples or more is never opened again. */
  lemma LongSeriesRefused(crc: Crc, a: Arith, x: Xor, im: Image, ss: seq<Series>, cs: seq<Candidate>, i: nat)
    requires Is32Bit(crc) && |Assemble(crc, im)| < TWO63 && Holds(a, x, im, ss, cs) && i < |ss|
    requires TWO32 <= |ss[i].samples| < TWO64 && IsCandidate(a, x, ss[i].samples, cs[i])
    ensures Open(crc, Assemble(crc, im)) == None
  {
    hide Assemble, Holds, TotalLength, IsCandidate, Open;
    SameCount(a, x, im, ss, cs);
    RunTotal(a, x, im, ss, cs, i);
    LongCandidateSize(a, x, ss[i].samples, cs[i]);
    PartRoundTrip(crc, a, x, im, ss, cs, [], 0, 0);
  }

  const SAFE_SAMPLES: nat := 0x400_0000

  /** A part whose series are INT-coded with at most 2^26 samples each always opens. */
  lemma IntSeriesOpen(crc: Crc, a: Arith, x: Xor, im: Image, ss: seq<Series>, cs: seq<Candidate>)
    requires Is32Bit(crc) && |Assemble(crc, im)| < TWO63 && Holds(a, x, im, ss, cs)
    requires forall i :: 0 <= i < |ss| ==> |ss[i].samples| <= SAFE_SAMPLES && IsIntCandidate(a, ss[i].samples, cs[i])
    ensures Open(crc, Assemble(crc, im)).Some?
  {
    hide Assemble, Holds, TotalLength, IsIntCandidate, Open;
    forall i | 0 <= i < |im.entries|
      ensures im.entries[i].runLen < TWO32
    {
      SameCount(a, x, im, ss, cs);
      RunTotal(a, x, im, ss, cs, i);
      IntCandidateSize(a, ss[i].samples, cs[i]);
    }
    PartRoundTrip(crc, a, x, im, ss, cs, [], 0, 0);
  }

  lemma SameCount(a: Arith, x: Xor, im: Image, ss: seq<Series>, cs: seq<Candidate>)
    requires Holds(a, x, im, ss, cs)
    ensures |im.entries| == |ss| == |cs|
  {
  }

  // ---------------------------------------------------------------------
  // A part that is written and not opened
  // ---------------------------------------------------------------------

  /** 2^32 samples of zero at time 0. */
  function LongRun(): (s: seq<Sample>)
    ensures |s| == TWO32 && forall i :: 0 <= i < |s| ==> s[i] == Sample(0, Num(0.0))
  {
    seq(TWO32, i => Sample(0, Num(0.0)))
  }

  lemma LongRunScales(a: Arith)
    requires Zeroes(a)
    ensures IsScale(a, Values(LongRun()), 0)
  {
    var vs := Values(LongRun());
    forall i | 0 <= i < |vs|
      ensures vs[i] == Num(0.0)
    {
    }
  }

  /** The one series without labels, stored as the chunks of `c`. */
  function LongImage(c: Candidate): (im: Image)
  {
    var run := Concat(c.chunks);
    Image(0, 0, [run], [Entry([], |HeaderWire(0, 0, 1)|, |run|, Lengths(c.chunks), 0, 0)], [])
  }

  lemma LongImageHolds(a: Arith, x: Xor, c: Candidate)
    requires IsIntCandidate(a, LongRun(), c)
    ensures Holds(a, x, LongImage(c), [Series([], LongRun())], [c])
  {
    hide LongImage, Holds, Faithful, LongRun, IsIntCandidate, TotalLength;
    IntCandidateFaithful(a, x, LongRun(), c);
    IntCandidateSize(a, LongRun(), c);
    NoBytes(c.chunks);
    LongEnds();
    ImageHolds(a, x, c, LongRun());
  }

  lemma NoBytes(chunks: seq<Bytes>)
    ensures TotalLength(chunks) > 0 ==> chunks != []
  {
  }

  lemma ImageHolds(a: Arith, x: Xor, c: Candidate, samples: seq<Sample>)
    requires samples != [] && samples[0].t == 0 && samples[|samples| - 1].t == 0
    requires c.chunks != [] && Faithful(a, x, c, samples)
    ensures Holds(a, x, LongImage(c), [Series([], samples)], [c])
  {
    hide Stored, Faithful, LongImage;
    LongImageStored(c);
    assert HoldsAt(a, x, LongImage(c), 0, Series([], samples), c);
  }

  lemma LongImageStored(c: Candidate)
    ensures var im := LongImage(c);
            && |im.entries| == |im.runs| == 1 && im.entries[0].minTs == im.entries[0].maxTs == 0
            && Stored(im, 0, [], c.chunks)
  {
    hide Concat, Lengths, HeaderWire, Names;
    var im := LongImage(c);
    assert im.runs[..0] == [];
    NoRuns();
    NoNames(im.syms, im.entries[0].refs, []);
  }

  lemma NoNames(syms: seq<Str>, refs: seq<nat>, ls: seq<Label>)
    requires |refs| == |ls| == 0
    ensures Names(syms, refs, ls)
  {
  }

  lemma ScaleExact(a: Arith, vals: seq<Float>, e: nat)
    requires IsScale(a, vals, e)
    ensures e <= MAX_SCALE_EXP && ExactAll(a, vals, e)
  {
  }

  lemma LongEnds()
    ensures LongRun()[0].t == 0 && LongRun()[TWO32 - 1].t == 0
  {
  }

  lemma NoRuns()
    ensures Concat([]) == []
  {
  }

  lemma {:induction false} LengthsShort(chunks: seq<Bytes>, n: nat)
    requires TotalLength(chunks) < n
    ensures forall i :: 0 <= i < |chunks| ==> Lengths(chunks)[i] < n
  {
    if chunks != [] {
      LengthsShort(chunks[1..], n);
    }
  }

  lemma LongImageShort(crc: Crc, a: Arith, c: Candidate)
    requires IsIntCandidate(a, LongRun(), c) && |c.chunks| <= TWO32
    ensures |Assemble(crc, LongImage(c))| < TWO63
  {
    hide Concat, Lengths, Uvarint, UvarintRun, LittleEndian, TotalLength, LongRun, IsIntCandidate;
    IntCandidateSize(a, LongRun(), c);
    ConcatTotal(c.chunks);
    LengthsShort(c.chunks, TWO63);
    UvarintRunShort(Lengths(c.chunks));
    UvarintShort(|c.chunks|);
    UvarintShort(0);
    UvarintShort(1);
    var im := LongImage(c);
    var e := im.entries[0];
    NoRefs();
    assert |EntryWire(e)| <= 100 + 10 * TWO32;
    assert IndexWire([e]) == EntryWire(e) + IndexWire([]);
    OneRun(Concat(c.chunks));
    assert |HeaderWire(0, 0, 1)| <= 100;
  }

  lemma NoRefs()
    ensures UvarintRun([]) == [] && SymbolsWire([]) == []
  {
  }

  lemma OneRun(run: Bytes)
    ensures Concat([run]) == run
  {
    assert Concat([run]) == run + [];
  }

  /** What the writer makes of 2^32 zeros in one series: it holds them, and it does not
      open again. */
  lemma LongPartExample(crc: Crc, a: Arith, x: Xor) returns (im: Image, c: Candidate)
    requires Is32Bit(crc) && Zeroes(a)
    ensures IsCandidate(a, x, LongRun(), c) && Holds(a, x, im, [Series([], LongRun())], [c])
    ensures Open(crc, Assemble(crc, im)) == None
  {
    hide Assemble, Holds, LongRun, Chunks, Open;
    LongRunScales(a);
    ScaleExact(a, Values(LongRun()), 0);
    c := IntCandidate(a, LongRun(), 0, false, Fixed);
    assert IsIntCandidate(a, LongRun(), c);
    ChunksSize(IntBlock(a, LongRun(), 0), false, Fixed);
    im := LongImage(c);
    LongImageHolds(a, x, c);
    LongImageShort(crc, a, c);
    LongSeriesRefused(crc, a, x, im, [Series([], LongRun())], [c], 0);
  }
}
