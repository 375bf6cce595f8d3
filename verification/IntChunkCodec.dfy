/**
 The loops of the INT_* encoder and decoder, each proved to compute the byte
 string or parse that `IntChunk` specifies.
 */
module IntChunkCodec {
  import opened Bits
  import opened Common
  import opened Wire
  import opened BitPack
  import opened IntChunk

  /** The residual at index `i`, as the loops compute it. */
  function ResidualAt(xs: seq<Int64>, i: nat, dod: bool): (r: Int64)
    requires 1 <= i < |xs|
  {
    if dod && i >= 2 then Sub(Sub(xs[i], xs[i - 1]), Sub(xs[i - 1], xs[i - 2]))
    else Sub(xs[i], xs[i - 1])
  }

  lemma {:induction false} ResidualsIndex(prev: Int64, prevDelta: Int64, xs: seq<Int64>, dod: bool, k: nat)
    requires k < |xs|
    ensures var d := if k == 0 then Sub(xs[0], prev) else Sub(xs[k], xs[k - 1]);
            var pd := if k == 0 then prevDelta
                      else if k == 1 then Sub(xs[0], prev)
                      else Sub(xs[k - 1], xs[k - 2]);
            Residuals(prev, prevDelta, xs, dod)[k] == if dod then Sub(d, pd) else d
    decreases xs
  {
    if k > 0 {
      ResidualsIndex(xs[0], Sub(xs[0], prev), xs[1..], dod, k - 1);
    }
  }

  lemma ResidualIndex(xs: seq<Int64>, i: nat, dod: bool)
    requires 1 <= i < |xs|
    ensures ColumnResiduals(xs, dod)[i - 1] == ResidualAt(xs, i, dod)
  {
    ResidualsIndex(xs[0], 0, xs[1..], dod, i - 1);
  }

  // ---------------------------------------------------------------------
  // Timestamp column
  // ---------------------------------------------------------------------

  /** The bytes still to be written for `ts[i..]`. */
  ghost function ColumnTodo(ts: seq<Int64>, i: nat, prevDelta: Int64): (bs: Bytes)
    requires 1 <= i <= |ts|
  {
    VarintRun(Residuals(ts[i - 1], prevDelta, ts[i..], true))
  }

  lemma ColumnTodoStep(ts: seq<Int64>, i: nat, prevDelta: Int64)
    requires 1 <= i < |ts|
    ensures var delta := Sub(ts[i], ts[i - 1]);
            ColumnTodo(ts, i, prevDelta) == Varint(Sub(delta, prevDelta)) + ColumnTodo(ts, i + 1, delta)
  {
    var delta := Sub(ts[i], ts[i - 1]);
    assert ts[i..][1..] == ts[i + 1..];
    var rs := Residuals(ts[i - 1], prevDelta, ts[i..], true);
    assert rs[1..] == Residuals(ts[i], delta, ts[i + 1..], true);
  }

  method EncodeTimestamps(buf: Bytes, ts: seq<Int64>) returns (out: Bytes)
    ensures out == buf + Column(ts)
  {
    if |ts| == 0 {
      return buf;
    }
    out := buf + Varint(ts[0]);
    Assoc(buf, Varint(ts[0]), ColumnTodo(ts, 1, 0));
    if |ts| == 1 {
      return;
    }
    ColumnTodoStep(ts, 1, 0);
    var prevDelta := Sub(ts[1], ts[0]);
    assert Sub(prevDelta, 0) == prevDelta;
    Assoc(out, Varint(prevDelta), ColumnTodo(ts, 2, prevDelta));
    out := out + Varint(prevDelta);
    var i := 2;
    while i < |ts|
      invariant 2 <= i <= |ts|
      invariant out + ColumnTodo(ts, i, prevDelta) == buf + Column(ts)
    {
      ColumnTodoStep(ts, i, prevDelta);
      var delta := Sub(ts[i], ts[i - 1]);
      var dod := Sub(delta, prevDelta);
      Assoc(out, Varint(dod), ColumnTodo(ts, i + 1, delta));
      out := out + Varint(dod);
      prevDelta := delta;
      i := i + 1;
    }
    assert ts[i..] == [];
    assert out + [] == out;
  }

  /** What the decoder returns once the rest of a residual run is parsed. */
  function Continue(out: seq<Int64>, prev: Int64, prevDelta: Int64, dod: bool,
                    p: Option<(seq<Int64>, Bytes)>): (r: Option<(seq<Int64>, Bytes)>)
  {
    if p.None? then None
    else Some((out + Rebuild(prev, prevDelta, p.value.0, dod), p.value.1))
  }

  lemma ContinueStep(out: seq<Int64>, prev: Int64, prevDelta: Int64, dod: bool, s: Bytes, k: nat)
    requires k > 0
    ensures Continue(out, prev, prevDelta, dod, ParseVarintRun(s, k)) ==
            match GetVarint(s)
            case None => None
            case Some((r, s1)) =>
              var d := Step(prevDelta, r, dod);
              Continue(out + [Add(prev, d)], Add(prev, d), d, dod, ParseVarintRun(s1, k - 1))
  {
    var p := GetVarint(s);
    if p.Some? {
      var q := ParseVarintRun(p.value.1, k - 1);
      if q.Some? {
        var r, vs := p.value.0, q.value.0;
        var d := Step(prevDelta, r, dod);
        var x := Add(prev, d);
        assert ([r] + vs)[1..] == vs;
        Assoc(out, [x], Rebuild(x, d, vs, dod));
      }
    }
  }

  lemma ParseColumnStart(s: Bytes, n: nat)
    requires n > 0
    ensures ParseColumn(s, n) ==
            match GetVarint(s)
            case None => None
            case Some((t0, s1)) => Continue([t0], t0, 0, true, ParseVarintRun(s1, n - 1))
  {
  }

  method DecodeTimestamps(r: Reader, n: nat) returns (out: Option<seq<Int64>>)
    requires r.Valid()
    modifies r
    ensures r.Valid()
    ensures Reads(ParseColumn(old(r.Rest()), n), out, r.Rest())
  {
    if n == 0 {
      return Some([]);
    }
    ParseColumnStart(r.Rest(), n);
    var t0 := r.ReadVarint();
    if t0.None? {
      return None;
    }
    out := DecodeDods(r, n - 1, t0.value);
  }

  /** The first delta is a delta-of-delta against zero, so one loop reads both. */
  method DecodeDods(r: Reader, k: nat, t0: Int64) returns (out: Option<seq<Int64>>)
    requires r.Valid()
    modifies r
    ensures r.Valid()
    ensures Reads(Continue([t0], t0, 0, true, ParseVarintRun(old(r.Rest()), k)), out, r.Rest())
  {
    ghost var goal := Continue([t0], t0, 0, true, ParseVarintRun(r.Rest(), k));
    var prev, prevDelta, ts := t0, 0, [t0];
    var left := k;
    while left > 0
      invariant r.Valid()
      invariant goal == Continue(ts, prev, prevDelta, true, ParseVarintRun(r.Rest(), left))
    {
      ContinueStep(ts, prev, prevDelta, true, r.Rest(), left);
      var dod := r.ReadVarint();
      if dod.None? {
        return None;
      }
      prevDelta := Add(prevDelta, dod.value);
      prev := Add(prev, prevDelta);
      ts := ts + [prev];
      left := left - 1;
    }
    ContinueDone(ts, prev, prevDelta, true, r.Rest());
    out := Some(ts);
  }

  lemma ContinueDone(out: seq<Int64>, prev: Int64, prevDelta: Int64, dod: bool, s: Bytes)
    ensures Continue(out, prev, prevDelta, dod, ParseVarintRun(s, 0)) == Some((out, s))
  {
    assert out + [] == out;
  }

  // ---------------------------------------------------------------------
  // Residuals of the value column
  // ---------------------------------------------------------------------

  method IntResiduals(ints: seq<Int64>, dod: bool)
    returns (base: Int64, first: Int64, residuals: seq<Int64>, ok: bool)
    ensures ok <==> ints != [] && AllFit(ColumnResiduals(ints, dod))
    ensures ok ==> base == ints[0] && first == FirstResidual(ints, dod) && residuals == RestResiduals(ints, dod)
  {
    if |ints| == 0 {
      return 0, 0, [], false;
    }
    base, first, residuals, ok := ints[0], 0, [], true;
    if |ints| == 1 {
      return;
    }
    ghost var all := ColumnResiduals(ints, dod);
    ResidualIndex(ints, 1, dod);
    first := Sub(ints[1], ints[0]);
    if !ResidualFits(first) {
      return base, 0, [], false;
    }
    var i, prevDelta := 2, first;
    while i < |ints|
      invariant 2 <= i <= |ints|
      invariant prevDelta == Sub(ints[i - 1], ints[i - 2])
      invariant [first] + residuals == all[..i - 1] && AllFit(all[..i - 1])
    {
      var delta := Sub(ints[i], ints[i - 1]);
      var d := if dod then Sub(delta, prevDelta) else delta;
      ResidualIndex(ints, i, dod);
      if !ResidualFits(d) {
        return base, 0, [], false;
      }
      assert all[..i] == all[..i - 1] + [d];
      Assoc([first], residuals, [d]);
      residuals := residuals + [d];
      prevDelta := delta;
      i := i + 1;
    }
    assert all[..i - 1] == all;
    assert residuals == ([first] + residuals)[1..];
  }

  method ReconstructInts(base: Int64, first: Int64, residuals: seq<Int64>, n: nat, dod: bool)
    returns (out: seq<Int64>)
    requires |residuals| == if n >= 3 then n - 2 else 0
    ensures |out| >= n && out[..n] == Reconstruct(base, first, residuals, n, dod)
  {
    ghost var goal := [base] + Rebuild(base, 0, [first] + residuals, dod);
    if n == 1 {
      return [base];
    }
    var prevDelta := first;
    var prev := Add(base, prevDelta);
    out := [base, prev];
    assert ([first] + residuals)[1..] == residuals;
    assert Add(0, first) == first;
    assert goal == out + Rebuild(prev, prevDelta, residuals, dod);
    var i := 0;
    while i < |residuals|
      invariant 0 <= i <= |residuals|
      invariant goal == out + Rebuild(prev, prevDelta, residuals[i..], dod)
    {
      assert residuals[i..][1..] == residuals[i + 1..];
      prevDelta := Step(prevDelta, residuals[i], dod);
      prev := Add(prev, prevDelta);
      Assoc(out, [prev], Rebuild(prev, prevDelta, residuals[i + 1..], dod));
      out := out + [prev];
      i := i + 1;
    }
    assert out + [] == out;
  }

  // ---------------------------------------------------------------------
  // Whole chunks
  // ---------------------------------------------------------------------

  method BitPackWidth(us: seq<U64>) returns (w: nat)
    ensures w == MaxLen(us)
  {
    var max := 0;
    var i := 0;
    while i < |us|
      invariant 0 <= i <= |us| && max >= 0
      invariant Len64(max) == MaxLen(us[..i])
    {
      assert us[..i + 1][..i] == us[..i];
      Len64Monotone(if us[i] > max then max else us[i], if us[i] > max then us[i] else max);
      if us[i] > max {
        max := us[i];
      }
      i := i + 1;
    }
    assert us[..i] == us;
    w := Len64(max);
  }

  lemma {:induction false} Len64Monotone(a: nat, b: nat)
    requires a <= b
    ensures Len64(a) <= Len64(b)
    decreases b
  {
    if a > 0 {
      Len64Monotone(a / 2, b / 2);
    }
  }

  method EncodeVarints(buf: Bytes, rs: seq<Int64>) returns (out: Bytes)
    ensures out == buf + VarintRun(rs)
  {
    out := buf;
    var i := 0;
    while i < |rs|
      invariant 0 <= i <= |rs|
      invariant out + VarintRun(rs[i..]) == buf + VarintRun(rs)
    {
      assert rs[i..][1..] == rs[i + 1..];
      Assoc(out, Varint(rs[i]), VarintRun(rs[i + 1..]));
      out := out + Varint(rs[i]);
      i := i + 1;
    }
    assert out + [] == out;
  }

  method EncodeBody(buf: Bytes, rs: seq<Int64>, body: Body) returns (out: Bytes)
    requires AllFit(rs)
    ensures out == buf + BodyBytes(rs, body)
  {
    match body {
      case Varints =>
        out := EncodeVarints(buf, rs);
      case Fixed =>
        var us := Zigzags(rs);
        var width := BitPackWidth(us);
        WidthIsByte(rs);
        AlreadyFit(us, width);
        out := PackFields(buf + [width], us, width);
        Assoc(buf, [width], Pack(Fields(us, width)));
    }
  }

  method EncodeIntChunk(b: Block, dod: bool, body: Body) returns (r: Option<Bytes>)
    requires |b.ts| == |b.ints| < TWO64
    ensures r.Some? <==> Encodable(b, dod)
    ensures r.Some? ==> r.value == ChunkBytes(b, dod, body)
  {
    var base, first, residuals, ok := IntResiduals(b.ints, dod);
    if !ok {
      return None;
    }
    RestFits(b.ints, dod);
    var buf := [Tag(dod, body)] + Uvarint(|b.ts|);
    buf := EncodeTimestamps(buf, b.ts);
    buf := buf + [b.scaleExp];
    buf := buf + Varint(base);
    buf := buf + Varint(first);
    ghost var head := buf;
    buf := EncodeBody(buf, residuals, body);
    ChunkAssoc(b, dod, body);
    r := Some(buf);
  }

  lemma ChunkAssoc(b: Block, dod: bool, body: Body)
    requires Encodable(b, dod)
    requires AllFit(RestResiduals(b.ints, dod))
    ensures ChunkBytes(b, dod, body)
         == ((((([Tag(dod, body)] + Uvarint(|b.ts|)) + Column(b.ts)) + [b.scaleExp]) + Varint(b.ints[0]))
             + Varint(FirstResidual(b.ints, dod))) + BodyBytes(RestResiduals(b.ints, dod), body)
  {
    Assoc6([Tag(dod, body)], Uvarint(|b.ts|), Column(b.ts), [b.scaleExp], Varint(b.ints[0]),
           Varint(FirstResidual(b.ints, dod)), BodyBytes(RestResiduals(b.ints, dod), body));
  }

  lemma Assoc6(a: Bytes, b: Bytes, c: Bytes, d: Bytes, e: Bytes, f: Bytes, g: Bytes)
    ensures (((((a + b) + c) + d) + e) + f) + g == a + (b + (c + (d + (e + (f + g)))))
  {
  }

  method DecodeVarints(r: Reader, k: nat) returns (out: Option<seq<Int64>>)
    requires r.Valid()
    modifies r
    ensures r.Valid()
    ensures Reads(ParseVarintRun(old(r.Rest()), k), out, r.Rest())
  {
    ghost var goal := ParseVarintRun(r.Rest(), k);
    PrependNone(goal);
    var rs: seq<Int64> := [];
    var left := k;
    while left > 0
      invariant r.Valid()
      invariant goal == Prepend(rs, ParseVarintRun(r.Rest(), left))
    {
      PrependStep(rs, r.Rest(), left);
      var d := r.ReadVarint();
      if d.None? {
        return None;
      }
      rs := rs + [d.value];
      left := left - 1;
    }
    assert rs + [] == rs;
    out := Some(rs);
  }

  lemma PrependNone(p: Option<(seq<Int64>, Bytes)>)
    ensures Prepend([], p) == p
  {
    if p.Some? {
      assert [] + p.value.0 == p.value.0;
    }
  }

  ghost function Prepend(rs: seq<Int64>, p: Option<(seq<Int64>, Bytes)>): (r: Option<(seq<Int64>, Bytes)>)
  {
    if p.None? then None else Some((rs + p.value.0, p.value.1))
  }

  lemma PrependStep(rs: seq<Int64>, s: Bytes, k: nat)
    requires k > 0
    ensures Prepend(rs, ParseVarintRun(s, k)) ==
            match GetVarint(s)
            case None => None
            case Some((v, s1)) => Prepend(rs + [v], ParseVarintRun(s1, k - 1))
  {
    var p := GetVarint(s);
    if p.Some? {
      var q := ParseVarintRun(p.value.1, k - 1);
      if q.Some? {
        Assoc(rs, [p.value.0], q.value.0);
      }
    }
  }

  /** Decodes the residual body; the fixed-width path advances the cursor by
      exactly that many bytes. */
  method DecodeBody(r: Reader, k: nat, body: Body) returns (out: Option<seq<Int64>>)
    requires r.Valid()
    modifies r
    ensures r.Valid()
    ensures Reads(ParseBody(old(r.Rest()), k, body), out, r.Rest())
  {
    if body == Varints {
      out := DecodeVarints(r, k);
      return;
    }
    var w := r.ReadByte();
    if w.None? {
      return None;
    }
    var us := UnpackFields(r.Rest(), k, w.value);
    if us.None? {
      return None;
    }
    UnpackedLength(r.Rest(), k, w.value, START);
    var rest := r.Rest()[PackedLength(k, w.value)..];
    out := Some(Unzigzags(us.value));
    r.Advance(rest);
  }

  method DecodeTail(r: Reader, n: nat, dod: bool, body: Body) returns (out: Option<seq<Int64>>)
    requires r.Valid()
    modifies r
    ensures r.Valid()
    ensures Reads(ParseTail(old(r.Rest()), n, dod, body), out, r.Rest())
  {
    hide ParseBody, Reconstruct, GetVarint;
    var base := r.ReadVarint();
    if base.None? {
      return None;
    }
    var first := r.ReadVarint();
    if first.None? {
      return None;
    }
    var k := if n >= 3 then n - 2 else 0;
    var residuals := DecodeBody(r, k, body);
    if residuals.None? {
      return None;
    }
    var ints := ReconstructInts(base.value, first.value, residuals.value, n, dod);
    out := Some(ints[..n]);
  }

  method DecodeIntChunk(r: Reader, dod: bool, body: Body) returns (out: Option<Block>)
    requires r.Valid()
    modifies r
    ensures r.Valid()
    ensures Reads(ParseChunk(old(r.Rest()), dod, body), out, r.Rest())
  {
    hide ParseColumn, ParseTail, GetUvarint;
    var n := r.ReadUvarint();
    if n.None? {
      return None;
    }
    var ts := DecodeTimestamps(r, n.value);
    if ts.None? {
      return None;
    }
    var exp := r.ReadByte();
    if exp.None? {
      return None;
    }
    var ints := DecodeTail(r, n.value, dod, body);
    if ints.None? {
      return None;
    }
    out := Some(Block(ts.value, exp.value, ints.value));
  }

  // ---------------------------------------------------------------------
  // The cut
  // ---------------------------------------------------------------------

  method FindCutEnd(ints: seq<Int64>, dod: bool) returns (e: nat)
    ensures ints == [] ==> e == 0
    ensures ints != [] ==> e == CutEnd(ints, dod)
  {
    if |ints| <= 1 {
      return |ints|;
    }
    ghost var all := ColumnResiduals(ints, dod);
    var prev := ints[0];
    var prevDelta: Int64 := 0;
    var i := 1;
    while i < |ints|
      invariant 1 <= i <= |ints| && prev == ints[i - 1]
      invariant i > 1 ==> prevDelta == Sub(ints[i - 1], ints[i - 2])
      invariant i == 1 ==> prevDelta == 0
      invariant AllFit(all[..i - 1])
    {
      var delta := Sub(ints[i], prev);
      var d := if dod then Sub(delta, prevDelta) else delta;
      ResidualIndex(ints, i, dod);
      if !ResidualFits(d) {
        FitCountIs(all, i - 1);
        return i;
      }
      assert all[..i] == all[..i - 1] + [d];
      prevDelta := delta;
      prev := ints[i];
      i := i + 1;
    }
    assert all[..i - 1] == all;
    FitCountIs(all, i - 1);
    return |ints|;
  }

  lemma ChunksStep(b: Block, dod: bool, body: Body)
    requires 0 < |b.ts| == |b.ints| < TWO64
    ensures var e := CutEnd(b.ints, dod);
            && Encodable(Head(b, e), dod)
            && Chunks(b, dod, body) == [ChunkBytes(Head(b, e), dod, body)] + Chunks(Tail(b, e), dod, body)
  {
    CutIsForced(b, dod);
  }

  /** `rest` is `samples[start:]`. */
  method EncodeIntChunks(b: Block, dod: bool, body: Body) returns (r: Option<seq<Bytes>>)
    requires |b.ts| == |b.ints| < TWO64
    ensures r.None? <==> b.ts == []
    ensures r.Some? ==> r.value == Chunks(b, dod, body)
  {
    if |b.ts| == 0 {
      return None;
    }
    var chunks: seq<Bytes>, rest := [], b;
    hide *;
    while |rest.ts| > 0
      invariant |rest.ts| == |rest.ints| < TWO64
      invariant chunks + Chunks(rest, dod, body) == Chunks(b, dod, body)
      decreases |rest.ts|
    {
      ChunksStep(rest, dod, body);
      var e := FindCutEnd(rest.ints, dod);
      TailLength(rest, e);
      var chunk := EncodeIntChunk(Head(rest, e), dod, body);
      if chunk.None? {
        return None;
      }
      Assoc(chunks, [chunk.value], Chunks(Tail(rest, e), dod, body));
      chunks := chunks + [chunk.value];
      rest := Tail(rest, e);
    }
    NoChunks(rest, dod, body, chunks);
    r := Some(chunks);
  }

  lemma TailLength(b: Block, e: nat)
    requires e <= |b.ts| == |b.ints|
    ensures |Tail(b, e).ts| == |Tail(b, e).ints| == |b.ts| - e
    ensures |Head(b, e).ts| == |Head(b, e).ints| == e
  {
  }

  lemma NoChunks(b: Block, dod: bool, body: Body, chunks: seq<Bytes>)
    requires |b.ts| == |b.ints| == 0
    ensures chunks + Chunks(b, dod, body) == chunks
  {
  }

  /** Decodes a list of chunks, one block each. */
  function DecodeInts(chunks: seq<Bytes>): (r: Option<seq<Block>>)
  {
    if chunks == [] then Some([])
    else
      var b :- DecodeInt(chunks[0]);
      var bs :- DecodeInts(chunks[1..]);
      Some([b] + bs)
  }

  lemma DecodeIntExact(b: Block, dod: bool, body: Body)
    requires Encodable(b, dod)
    ensures DecodeInt(ChunkBytes(b, dod, body)) == Some(b)
  {
    DecodeIntRoundTrip(b, dod, body, []);
    assert ChunkBytes(b, dod, body) + [] == ChunkBytes(b, dod, body);
  }

  lemma {:induction false} DecodeCut(b: Block, dod: bool, body: Body)
    requires |b.ts| == |b.ints| < TWO64
    ensures DecodeInts(Chunks(b, dod, body)) == Some(Cut(b, dod))
    decreases |b.ints|
  {
    if b.ints != [] {
      hide ChunkBytes, Encodable, DecodeInt;
      CutIsForced(b, dod);
      var e := CutEnd(b.ints, dod);
      DecodeIntExact(Head(b, e), dod, body);
      DecodeCut(Tail(b, e), dod, body);
      assert Chunks(b, dod, body)[1..] == Chunks(Tail(b, e), dod, body);
    }
  }

  /** All four codecs, every int64 column: the chunks decode to pieces that
      concatenate to the input under the scale it was given. */
  lemma IntCodecRoundTrip(b: Block, dod: bool, body: Body)
    requires |b.ts| == |b.ints| < TWO64
    ensures var r := DecodeInts(Chunks(b, dod, body));
            && r.Some?
            && JoinTs(r.value) == b.ts
            && JoinInts(r.value) == b.ints
            && forall c :: c in r.value ==> c.scaleExp == b.scaleExp
  {
    hide Encodable, Chunks;
    CutEncodes(b, dod);
    DecodeCut(b, dod, body);
    CutCovers(b, dod);
  }
}
