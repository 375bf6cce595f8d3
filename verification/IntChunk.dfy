/**
 The INT_* value chunks: frame of reference, delta or delta-of-delta residuals,
 a fixed-width or varint body, and the cut that starts a new chunk when a
 residual needs more than 56 bits.

 Timestamps and scaled values go through the same transform in wrap-around
 int64 arithmetic.  A chunk is specified by the byte string `ChunkBytes` and
 the parser `ParseChunk`; the loops below are proved to compute exactly these.
 */
module IntChunk {
  import opened Bits
  import opened Common
  import opened Wire
  import opened BitPack

  datatype Body = Fixed | Varints

  /** The decoded content of one INT_* chunk; `ints` are the values times
      ten to the `scaleExp`. */
  datatype Block = Block(ts: seq<Int64>, scaleExp: Byte, ints: seq<Int64>)

  function Tag(dod: bool, body: Body): (t: Byte)
  {
    match body
    case Fixed => if dod then 2 else 1
    case Varints => if dod then 4 else 3
  }

  function OfTag(t: Byte): (r: Option<(bool, Body)>)
  {
    match t
    case 1 => Some((false, Fixed))
    case 2 => Some((true, Fixed))
    case 3 => Some((false, Varints))
    case 4 => Some((true, Varints))
    case _ => None
  }

  // ---------------------------------------------------------------------
  // The residual transform
  // ---------------------------------------------------------------------

  function Residual(prev: Int64, prevDelta: Int64, x: Int64, dod: bool): (r: Int64)
  {
    if dod then Sub(Sub(x, prev), prevDelta) else Sub(x, prev)
  }

  /** Residuals of `xs` behind `prev`, whose own delta was `prevDelta`. */
  function Residuals(prev: Int64, prevDelta: Int64, xs: seq<Int64>, dod: bool): (rs: seq<Int64>)
    ensures |rs| == |xs|
    decreases xs
  {
    if xs == [] then []
    else [Residual(prev, prevDelta, xs[0], dod)]
         + Residuals(xs[0], Sub(xs[0], prev), xs[1..], dod)
  }

  function Step(prevDelta: Int64, r: Int64, dod: bool): (d: Int64)
  {
    if dod then Add(prevDelta, r) else r
  }

  function Rebuild(prev: Int64, prevDelta: Int64, rs: seq<Int64>, dod: bool): (xs: seq<Int64>)
    ensures |xs| == |rs|
    decreases rs
  {
    if rs == [] then []
    else
      var d := Step(prevDelta, rs[0], dod);
      var x := Add(prev, d);
      [x] + Rebuild(x, d, rs[1..], dod)
  }

  /** The residuals of a column behind its own first element. */
  function ColumnResiduals(xs: seq<Int64>, dod: bool): (rs: seq<Int64>)
    requires xs != []
    ensures |rs| == |xs| - 1
  {
    Residuals(xs[0], 0, xs[1..], dod)
  }

  /** Rebuilding inverts the transform for all int64 inputs, overflow included. */
  lemma {:induction false} RebuildInverts(prev: Int64, prevDelta: Int64, xs: seq<Int64>, dod: bool)
    ensures Rebuild(prev, prevDelta, Residuals(prev, prevDelta, xs, dod), dod) == xs
    decreases xs
  {
    if xs != [] {
      var d := Sub(xs[0], prev);
      AddUndoesSub(xs[0], prev);
      AddUndoesSub(d, prevDelta);
      RebuildInverts(xs[0], d, xs[1..], dod);
      var rs := Residuals(prev, prevDelta, xs, dod);
      assert rs[1..] == Residuals(xs[0], d, xs[1..], dod);
      assert xs == [xs[0]] + xs[1..];
    }
  }

  // ---------------------------------------------------------------------
  // Residual width
  // ---------------------------------------------------------------------

  /** `bits.Len64`. */
  function Len64(u: nat): (n: nat)
  {
    if u == 0 then 0 else 1 + Len64(u / 2)
  }

  lemma {:induction false} Len64IsWidth(u: nat, w: nat)
    ensures Len64(u) <= w <==> u < Pow2(w)
    decreases u
  {
    if u != 0 && w != 0 {
      Len64IsWidth(u / 2, w - 1);
    }
  }

  predicate ResidualFits(r: Int64)
  {
    Len64(Zigzag(r)) <= MAX_RESIDUAL_WIDTH
  }

  /** A residual fits just when it lies in the signed 56-bit range. */
  lemma FitsIff(r: Int64)
    ensures ResidualFits(r) <==> -0x80_0000_0000_0000 <= r < 0x80_0000_0000_0000
  {
    hide Len64;
    Len64IsWidth(Zigzag(r), 56);
    Pow2Words();
  }

  predicate AllFit(rs: seq<Int64>)
  {
    forall i :: 0 <= i < |rs| ==> ResidualFits(rs[i])
  }

  function Zigzags(rs: seq<Int64>): (us: seq<U64>)
    ensures |us| == |rs|
  {
    seq(|rs|, i requires 0 <= i < |rs| => Zigzag(rs[i]))
  }

  function MaxLen(us: seq<nat>): (w: nat)
  {
    if us == [] then 0
    else
      var m, k := MaxLen(us[..|us| - 1]), Len64(us[|us| - 1]);
      if k > m then k else m
  }

  lemma {:induction false} MaxLenFits(us: seq<nat>)
    ensures Fit(us, MaxLen(us))
  {
    if us != [] {
      var n := |us| - 1;
      MaxLenFits(us[..n]);
      var m, w := MaxLen(us[..n]), MaxLen(us);
      Pow2Monotone(m, w);
      Len64IsWidth(us[n], w);
      assert forall i :: 0 <= i < n ==> us[..n][i] == us[i];
    }
  }

  lemma {:induction false} MaxLenLeast(us: seq<nat>, w: nat)
    requires forall i :: 0 <= i < |us| ==> Len64(us[i]) <= w
    ensures MaxLen(us) <= w
  {
    if us != [] {
      MaxLenLeast(us[..|us| - 1], w);
    }
  }

  // ---------------------------------------------------------------------
  // Chunk bytes
  // ---------------------------------------------------------------------

  function VarintRun(rs: seq<Int64>): (bs: Bytes)
  {
    if rs == [] then [] else Varint(rs[0]) + VarintRun(rs[1..])
  }

  function ParseVarintRun(s: Bytes, k: nat): (r: Option<(seq<Int64>, Bytes)>)
    ensures r.Some? ==> |r.value.0| == k
    decreases k
  {
    if k == 0 then Some(([], s))
    else
      var (v, rest) :- GetVarint(s);
      var (vs, rest') :- ParseVarintRun(rest, k - 1);
      Some(([v] + vs, rest'))
  }

  lemma {:induction false} VarintRunRoundTrip(rs: seq<Int64>, rest: Bytes)
    ensures ParseVarintRun(VarintRun(rs) + rest, |rs|) == Some((rs, rest))
  {
    if rs == [] {
      assert VarintRun(rs) + rest == rest;
    } else {
      var tail := VarintRun(rs[1..]) + rest;
      Assoc(Varint(rs[0]), VarintRun(rs[1..]), rest);
      VarintRoundTrip(rs[0], tail);
      VarintRunRoundTrip(rs[1..], rest);
      assert rs == [rs[0]] + rs[1..];
    }
  }

  /** Timestamp column: first timestamp, first delta, then delta-of-deltas. */
  function Column(ts: seq<Int64>): (bs: Bytes)
  {
    if ts == [] then [] else Varint(ts[0]) + VarintRun(ColumnResiduals(ts, true))
  }

  function ParseColumn(s: Bytes, n: nat): (r: Option<(seq<Int64>, Bytes)>)
    ensures r.Some? ==> |r.value.0| == n
  {
    if n == 0 then Some(([], s))
    else
      var (t0, s1) :- GetVarint(s);
      var (rs, s2) :- ParseVarintRun(s1, n - 1);
      Some(([t0] + Rebuild(t0, 0, rs, true), s2))
  }

  lemma ColumnRoundTrip(ts: seq<Int64>, rest: Bytes)
    ensures ParseColumn(Column(ts) + rest, |ts|) == Some((ts, rest))
  {
    if ts == [] {
      assert Column(ts) + rest == rest;
    } else {
      assert ts == [ts[0]] + ts[1..];
      var rs := ColumnResiduals(ts, true);
      var run := VarintRun(rs);
      RebuildInverts(ts[0], 0, ts[1..], true);
      Assoc(Varint(ts[0]), run, rest);
      VarintRoundTrip(ts[0], run + rest);
      VarintRunRoundTrip(rs, rest);
    }
  }

  /** The residuals after the first, as the body stores them. */
  function BodyBytes(rs: seq<Int64>, body: Body): (bs: Bytes)
    requires AllFit(rs)
  {
    match body
    case Varints => VarintRun(rs)
    case Fixed =>
      var us := Zigzags(rs);
      WidthIsByte(rs);
      [MaxLen(us)] + Pack(Fields(us, MaxLen(us)))
  }

  lemma WidthIsByte(rs: seq<Int64>)
    requires AllFit(rs)
    ensures MaxLen(Zigzags(rs)) <= MAX_RESIDUAL_WIDTH
    ensures Fit(Zigzags(rs), MaxLen(Zigzags(rs)))
  {
    var us := Zigzags(rs);
    MaxLenFits(us);
    MaxLenLeast(us, MAX_RESIDUAL_WIDTH);
  }

  function ParseBody(s: Bytes, k: nat, body: Body): (r: Option<(seq<Int64>, Bytes)>)
    ensures r.Some? ==> |r.value.0| == k
  {
    match body
    case Varints => ParseVarintRun(s, k)
    case Fixed => if s == [] then None else ParseFixed(s[0], s[1..], k)
  }

  function ParseFixed(w: Byte, s: Bytes, k: nat): (r: Option<(seq<Int64>, Bytes)>)
    ensures r.Some? ==> |r.value.0| == k
  {
    var us :- Unpacked(s, k, w, START);
    UnpackedLength(s, k, w, START);
    Some((Unzigzags(us), s[PackedLength(k, w)..]))
  }

  function Unzigzags(us: seq<U64>): (rs: seq<Int64>)
    ensures |rs| == |us|
  {
    seq(|us|, i requires 0 <= i < |us| => Unzigzag(us[i]))
  }

  lemma ParseFixedRoundTrip(us: seq<U64>, w: Byte, rest: Bytes)
    requires ExactWidth(w) && Fit(us, w)
    ensures ParseFixed(w, Pack(Fields(us, w)) + rest, |us|) == Some((Unzigzags(us), rest))
  {
    hide Unpacked, Unpack;
    var packed := Pack(Fields(us, w));
    assert (packed + rest)[|packed|..] == rest;
    UnpackRoundTrip(us, w, rest);
    UnpackedExact(packed + rest, |us|, w);
  }

  lemma FixedRoundTrip(rs: seq<Int64>, rest: Bytes)
    requires AllFit(rs)
    ensures var us := Zigzags(rs); var w := MaxLen(us);
            w <= MAX_RESIDUAL_WIDTH && ParseFixed(w, Pack(Fields(us, w)) + rest, |rs|) == Some((rs, rest))
  {
    WidthIsByte(rs);
    var us := Zigzags(rs);
    ParseFixedRoundTrip(us, MaxLen(us), rest);
    UnzigzagInverts(rs);
  }

  lemma UnzigzagInverts(rs: seq<Int64>)
    ensures Unzigzags(Zigzags(rs)) == rs
  {
    hide Zigzag, Unzigzag;
    forall i | 0 <= i < |rs|
      ensures Unzigzag(Zigzag(rs[i])) == rs[i]
    {
      UnzigzagOf(rs[i]);
    }
  }

  lemma UnzigzagOf(v: Int64)
    ensures Unzigzag(Zigzag(v)) == v
  {
  }

  lemma BodyRoundTrip(rs: seq<Int64>, body: Body, rest: Bytes)
    requires AllFit(rs)
    ensures ParseBody(BodyBytes(rs, body) + rest, |rs|, body) == Some((rs, rest))
  {
    hide ParseFixed, Fields, Pack, MaxLen, VarintRun, ParseVarintRun;
    match body
    case Varints => VarintRunRoundTrip(rs, rest);
    case Fixed =>
      FixedRoundTrip(rs, rest);
      var us := Zigzags(rs);
      var packed := Pack(Fields(us, MaxLen(us)));
      assert (BodyBytes(rs, body) + rest)[1..] == packed + rest;
  }

  function FirstResidual(ints: seq<Int64>, dod: bool): (r: Int64)
    requires ints != []
  {
    if |ints| == 1 then 0 else ColumnResiduals(ints, dod)[0]
  }

  function RestResiduals(ints: seq<Int64>, dod: bool): (rs: seq<Int64>)
    requires ints != []
    ensures |rs| == if |ints| >= 3 then |ints| - 2 else 0
  {
    if |ints| == 1 then [] else ColumnResiduals(ints, dod)[1..]
  }

  predicate Encodable(b: Block, dod: bool)
  {
    && 0 < |b.ts| == |b.ints| < TWO64
    && AllFit(ColumnResiduals(b.ints, dod))
  }

  function ChunkTail(b: Block, dod: bool, body: Body): (bs: Bytes)
    requires Encodable(b, dod)
  {
    Varint(b.ints[0]) + (Varint(FirstResidual(b.ints, dod)) + BodyBytes(RestResiduals(b.ints, dod), body))
  }

  /** A chunk without its tag byte. */
  function Untagged(b: Block, dod: bool, body: Body): (bs: Bytes)
    requires Encodable(b, dod)
  {
    Uvarint(|b.ts|) + (Column(b.ts) + ([b.scaleExp] + ChunkTail(b, dod, body)))
  }

  function ChunkBytes(b: Block, dod: bool, body: Body): (bs: Bytes)
    requires Encodable(b, dod)
  {
    [Tag(dod, body)] + Untagged(b, dod, body)
  }

  /** The chunk of one sample, byte for byte: tag, count, timestamp, scale, base, first
      residual, and for packed residuals their width. */
  lemma OneSampleBytes(dod: bool)
    ensures var b := Block([0], 2, [-1]);
            && Encodable(b, dod)
            && ChunkBytes(b, dod, Fixed) == [if dod then 2 else 1, 1, 0, 2, 1, 0, 0]
            && ChunkBytes(b, dod, Varints) == [if dod then 4 else 3, 1, 0, 2, 1, 0]
  {
    var b := Block([0], 2, [-1]);
    assert ColumnResiduals([-1], dod) == [] && ColumnResiduals([0], true) == [];
    assert Uvarint(1) == [1] && Varint(0) == [0] && Varint(-1) == [1];
    assert Column([0]) == [0] + VarintRun([]);
    assert BodyBytes([], Varints) == [];
    assert BodyBytes([], Fixed) == [0];
  }

  /** Inverts `intResiduals` for a chunk of `n` samples. */
  function Reconstruct(base: Int64, first: Int64, rs: seq<Int64>, n: nat, dod: bool): (xs: seq<Int64>)
    requires |rs| == if n >= 3 then n - 2 else 0
    ensures |xs| == n
  {
    ([base] + Rebuild(base, 0, [first] + rs, dod))[..n]
  }

  function ParseTail(s: Bytes, n: nat, dod: bool, body: Body): (r: Option<(seq<Int64>, Bytes)>)
    ensures r.Some? ==> |r.value.0| == n
  {
    var (base, s1) :- GetVarint(s);
    var (first, s2) :- GetVarint(s1);
    var (rs, rest) :- ParseBody(s2, if n >= 3 then n - 2 else 0, body);
    Some((Reconstruct(base, first, rs, n, dod), rest))
  }

  /** Decodes a chunk whose tag byte has been consumed; returns what follows it. */
  function ParseChunk(s: Bytes, dod: bool, body: Body): (r: Option<(Block, Bytes)>)
    ensures r.Some? ==> |r.value.0.ts| == |r.value.0.ints|
  {
    var (n, s1) :- GetUvarint(s);
    var (ts, s2) :- ParseColumn(s1, n);
    if s2 == [] then None
    else
      var (ints, rest) :- ParseTail(s2[1..], n, dod, body);
      Some((Block(ts, s2[0], ints), rest))
  }

  lemma ReconstructInverts(ints: seq<Int64>, dod: bool)
    requires ints != []
    ensures Reconstruct(ints[0], FirstResidual(ints, dod), RestResiduals(ints, dod), |ints|, dod) == ints
  {
    if |ints| > 1 {
      var rs := ColumnResiduals(ints, dod);
      assert [rs[0]] + rs[1..] == rs;
      RebuildInverts(ints[0], 0, ints[1..], dod);
    }
    assert ints == [ints[0]] + ints[1..];
  }

  lemma RestFits(ints: seq<Int64>, dod: bool)
    requires ints != [] && AllFit(ColumnResiduals(ints, dod))
    ensures AllFit(RestResiduals(ints, dod))
  {
  }

  lemma TailRoundTrip(b: Block, dod: bool, body: Body, rest: Bytes)
    requires Encodable(b, dod)
    ensures ParseTail(ChunkTail(b, dod, body) + rest, |b.ints|, dod, body) == Some((b.ints, rest))
  {
    RestFits(b.ints, dod);
    var first, rs := FirstResidual(b.ints, dod), RestResiduals(b.ints, dod);
    var bb := BodyBytes(rs, body);
    Assoc(Varint(b.ints[0]), Varint(first) + bb, rest);
    Assoc(Varint(first), bb, rest);
    VarintRoundTrip(b.ints[0], Varint(first) + (bb + rest));
    VarintRoundTrip(first, bb + rest);
    BodyRoundTrip(rs, body, rest);
    ReconstructInverts(b.ints, dod);
  }

  lemma TailOfSnoc(exp: Byte, tail: Bytes, rest: Bytes)
    ensures ([exp] + tail) + rest != []
    ensures (([exp] + tail) + rest)[0] == exp
    ensures (([exp] + tail) + rest)[1..] == tail + rest
  {
  }

  /** Every chunk decodes to its block and leaves exactly the bytes behind it. */
  lemma ChunkRoundTrip(b: Block, dod: bool, body: Body, rest: Bytes)
    requires Encodable(b, dod)
    ensures ParseChunk(Untagged(b, dod, body) + rest, dod, body) == Some((b, rest))
  {
    var tail := ChunkTail(b, dod, body);
    var exp := [b.scaleExp] + tail;
    var col := Column(b.ts);
    Assoc(Uvarint(|b.ts|), col + exp, rest);
    Assoc(col, exp, rest);
    UvarintRoundTrip(|b.ts|, col + (exp + rest));
    ColumnRoundTrip(b.ts, exp + rest);
    TailOfSnoc(b.scaleExp, tail, rest);
    TailRoundTrip(b, dod, body, rest);
  }

  // ---------------------------------------------------------------------
  // The overflow cut
  // ---------------------------------------------------------------------

  /** How many residuals fit before the first that does not. */
  function FitCount(rs: seq<Int64>): (k: nat)
    ensures k <= |rs|
  {
    if rs == [] || !ResidualFits(rs[0]) then 0 else 1 + FitCount(rs[1..])
  }

  function CutEnd(ints: seq<Int64>, dod: bool): (e: nat)
    requires ints != []
    ensures 1 <= e <= |ints|
  {
    1 + FitCount(ColumnResiduals(ints, dod))
  }

  function Head(b: Block, e: nat): (h: Block)
    requires e <= |b.ts| == |b.ints|
  {
    Block(b.ts[..e], b.scaleExp, b.ints[..e])
  }

  function Tail(b: Block, e: nat): (t: Block)
    requires e <= |b.ts| == |b.ints|
  {
    Block(b.ts[e..], b.scaleExp, b.ints[e..])
  }

  /** The chunks a block is cut into. */
  function Cut(b: Block, dod: bool): (bs: seq<Block>)
    requires |b.ts| == |b.ints|
    decreases |b.ints|
  {
    if b.ints == [] then []
    else
      var e := CutEnd(b.ints, dod);
      [Head(b, e)] + Cut(Tail(b, e), dod)
  }

  lemma {:induction false} FitCountIs(rs: seq<Int64>, k: nat)
    requires k <= |rs|
    requires AllFit(rs[..k])
    requires k == |rs| || !ResidualFits(rs[k])
    ensures FitCount(rs) == k
    decreases rs
  {
    if k > 0 {
      assert ResidualFits(rs[..k][0]);
      assert rs[1..][..k - 1] == rs[..k][1..];
      FitCountIs(rs[1..], k - 1);
    }
  }

  lemma {:induction false} FitCountFits(rs: seq<Int64>)
    ensures AllFit(rs[..FitCount(rs)])
    ensures FitCount(rs) < |rs| ==> !ResidualFits(rs[FitCount(rs)])
  {
    if rs != [] && ResidualFits(rs[0]) {
      FitCountFits(rs[1..]);
      var k := FitCount(rs);
      assert rs[..k] == [rs[0]] + rs[1..][..k - 1];
    }
  }

  lemma {:induction false} ResidualsPrefix(prev: Int64, prevDelta: Int64, xs: seq<Int64>, dod: bool, k: nat)
    requires k <= |xs|
    ensures Residuals(prev, prevDelta, xs[..k], dod) == Residuals(prev, prevDelta, xs, dod)[..k]
    decreases xs
  {
    if k > 0 {
      assert xs[..k][1..] == xs[1..][..k - 1];
      ResidualsPrefix(xs[0], Sub(xs[0], prev), xs[1..], dod, k - 1);
    }
  }

  lemma ColumnResidualsPrefix(xs: seq<Int64>, dod: bool, e: nat)
    requires 1 <= e <= |xs|
    ensures ColumnResiduals(xs[..e], dod) == ColumnResiduals(xs, dod)[..e - 1]
  {
    assert xs[..e][1..] == xs[1..][..e - 1];
    ResidualsPrefix(xs[0], 0, xs[1..], dod, e - 1);
  }

  /** The cut and the residual transform agree: the head always encodes, and one
      more sample would not unless the input ended. */
  lemma CutIsForced(b: Block, dod: bool)
    requires 0 < |b.ts| == |b.ints| < TWO64
    ensures var e := CutEnd(b.ints, dod);
            && Encodable(Head(b, e), dod)
            && (e < |b.ints| ==> !Encodable(Head(b, e + 1), dod))
            && (e < |b.ints| ==> !ResidualFits(ColumnResiduals(b.ints, dod)[e - 1]))
  {
    var e := CutEnd(b.ints, dod);
    FitCountFits(ColumnResiduals(b.ints, dod));
    ColumnResidualsPrefix(b.ints, dod, e);
    if e < |b.ints| {
      ColumnResidualsPrefix(b.ints, dod, e + 1);
      assert !ResidualFits(ColumnResiduals(b.ints[..e + 1], dod)[e - 1]);
    }
  }

  function JoinTs(bs: seq<Block>): (ts: seq<Int64>)
  {
    if bs == [] then [] else bs[0].ts + JoinTs(bs[1..])
  }

  function JoinInts(bs: seq<Block>): (xs: seq<Int64>)
  {
    if bs == [] then [] else bs[0].ints + JoinInts(bs[1..])
  }

  /** Cutting covers the input, in order. */
  lemma {:induction false} CutCovers(b: Block, dod: bool)
    requires |b.ts| == |b.ints|
    ensures JoinTs(Cut(b, dod)) == b.ts && JoinInts(Cut(b, dod)) == b.ints
    decreases |b.ints|
  {
    if b.ints != [] {
      var e := CutEnd(b.ints, dod);
      assert b.ts == b.ts[..e] + b.ts[e..] && b.ints == b.ints[..e] + b.ints[e..];
      CutCovers(Tail(b, e), dod);
      var cs := Cut(b, dod);
      assert cs[1..] == Cut(Tail(b, e), dod) && cs[0] == Head(b, e);
    }
  }

  /** Cutting never fails: every piece encodes. */
  lemma {:induction false} CutEncodes(b: Block, dod: bool)
    requires |b.ts| == |b.ints| < TWO64
    ensures forall c :: c in Cut(b, dod) ==> Encodable(c, dod) && c.scaleExp == b.scaleExp
    decreases |b.ints|
  {
    if b.ints != [] {
      CutIsForced(b, dod);
      CutEncodes(Tail(b, CutEnd(b.ints, dod)), dod);
    }
  }

  /** The chunk bytes of every piece of the cut. */
  function Chunks(b: Block, dod: bool, body: Body): (chunks: seq<Bytes>)
    requires |b.ts| == |b.ints| < TWO64
    decreases |b.ints|
  {
    if b.ints == [] then []
    else
      CutIsForced(b, dod);
      var e := CutEnd(b.ints, dod);
      [ChunkBytes(Head(b, e), dod, body)] + Chunks(Tail(b, e), dod, body)
  }

  /** Tag dispatch for the four INT codecs; bytes behind the chunk are ignored. */
  function DecodeInt(chunk: Bytes): (r: Option<Block>)
    ensures r.Some? ==> |r.value.ts| == |r.value.ints|
  {
    if chunk == [] then None
    else
      var (dod, body) :- OfTag(chunk[0]);
      var (b, _) :- ParseChunk(chunk[1..], dod, body);
      Some(b)
  }

  lemma DecodeIntRoundTrip(b: Block, dod: bool, body: Body, rest: Bytes)
    requires Encodable(b, dod)
    ensures DecodeInt(ChunkBytes(b, dod, body) + rest) == Some(b)
  {
    var c := Untagged(b, dod, body);
    ChunkRoundTrip(b, dod, body, rest);
    TailOfSnoc(Tag(dod, body), c, rest);
    assert OfTag(Tag(dod, body)) == Some((dod, body));
  }
}
