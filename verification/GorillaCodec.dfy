/**
 The GORILLA1 encoder and decoder objects for values, and a whole series through
 both streams: stable time sort, encode, decode sample by sample.
 */
module GorillaCodec {
  import opened Bits
  import opened Common
  import opened Wire
  import opened GorillaBits
  import opened GorillaTimestamps
  import opened GorillaValues

  // ---------------------------------------------------------------------
  // Value encoder and decoder objects
  // ---------------------------------------------------------------------

  lemma LowBitsOfWord(w: Word, n: nat)
    requires n <= 64
    ensures ToBits(FromBits(w), n) == w[64 - n..]
  {
    ToFromBits(w);
    ToBitsSplit(FromBits(w), 64 - n, n);
    assert ToBits(FromBits(w), 64)[64 - n..] == ToBits(FromBits(w), n);
  }

  lemma ShiftedMiddle(x: Word, lz: nat, tz: nat)
    requires lz + tz <= 64
    ensures ShrWord(x, tz)[lz + tz..] == Middle(x, lz, tz)
  {
  }

  class ValEncoder {
    const bw: BitWriter
    var prev: Word
    var prevSet: bool
    var leading: nat
    var trailing: nat
    var haveWindow: bool

    ghost function Carried(): (st: State)
      reads this
    {
      State(prev, if haveWindow then Some(Window(leading, trailing)) else None)
    }

    ghost predicate Valid()
      reads this, bw
    {
      bw.Valid() && InBounds(Carried())
    }

    constructor ()
      ensures fresh(bw) && Valid() && bw.Written() == [] && !prevSet
    {
      bw := new BitWriter();
      prev, prevSet, leading, trailing, haveWindow := Zeros(64), false, 0, 0, false;
    }

    /** The first value goes to the chunk header, every other to the stream. */
    method Push(v: Word)
      requires Valid()
      modifies this, bw
      ensures Valid() && prevSet
      ensures !old(prevSet) ==> Carried() == State(v, None) && bw.Written() == old(bw.Written())
      ensures old(prevSet) ==>
                && bw.Written() == old(bw.Written()) + EncodeOne(old(Carried()), v).0
                && Carried() == EncodeOne(old(Carried()), v).1
    {
      hide EncodeOne, XorWords, CountLeading, CountTrailing;
      if !prevSet {
        prev, prevSet, leading, trailing, haveWindow := v, true, 0, 0, false;
        return;
      }
      var x := XorWords(prev, v);
      EncodeOneCases(Carried(), v);
      if CountLeading(x) == 64 {
        bw.WriteBit(false);
        prev := v;
        return;
      }
      var lz, tz := CountLeading(x), CountTrailing(x);
      if haveWindow && lz >= leading && tz >= trailing {
        WriteReused(x);
      } else {
        WriteOpened(x, lz, tz);
        leading, trailing, haveWindow := lz, tz, true;
      }
      prev := v;
    }

    method WriteReused(x: Word)
      requires bw.Valid() && leading + trailing <= 64
      modifies bw
      ensures bw.Valid()
      ensures bw.Written() == old(bw.Written()) + ([true, false] + Middle(x, leading, trailing))
    {
      var n := 64 - leading - trailing;
      LowBitsOfWord(ShrWord(x, trailing), n);
      ShiftedMiddle(x, leading, trailing);
      hide *;
      ghost var start, m := bw.Written(), Middle(x, leading, trailing);
      bw.WriteBit(true);
      bw.WriteBit(false);
      bw.WriteBits(FromBits(ShrWord(x, trailing)), n);
      Assoc3(start, [true], [false], m);
      assert [true] + [false] == [true, false];
    }

    method WriteOpened(x: Word, lz: nat, tz: nat)
      requires bw.Valid() && !IsZero(x) && lz == CountLeading(x) && tz == CountTrailing(x)
      modifies bw
      ensures bw.Valid()
      ensures bw.Written() == old(bw.Written()) + ([true, true] + OpenBits(x))
    {
      hide *;
      OpenBitsParts(x);
      var lz5 := if lz > 31 then 31 else lz;
      var sig := 64 - lz - tz;
      ghost var a, b, m := ToBits(lz5, 5), ToBits(sig - 1, 6), Middle(x, lz, tz);
      ghost var start := bw.Written();
      bw.WriteBit(true);
      bw.WriteBit(true);
      WriteField(bw, lz5, 5, sig - 1, 6);
      bw.WriteBits(FromBits(ShrWord(x, tz)), sig);
      Assoc4(start, [true], [true], a, b, m);
      assert [true] + [true] == [true, true];
    }
  }

  lemma OpenBitsParts(x: Word)
    requires !IsZero(x)
    ensures var lz, tz := CountLeading(x), CountTrailing(x);
            && lz + tz < 64
            && OpenBits(x) == ToBits(if lz > 31 then 31 else lz, 5)
                              + (ToBits(64 - lz - tz - 1, 6) + Middle(x, lz, tz))
            && ToBits(FromBits(ShrWord(x, tz)), 64 - lz - tz) == Middle(x, lz, tz)
  {
    Extent(x);
    var lz, tz := CountLeading(x), CountTrailing(x);
    LowBitsOfWord(ShrWord(x, tz), 64 - lz - tz);
    ShiftedMiddle(x, lz, tz);
  }

  lemma EncodeOneCases(st: State, v: Word)
    requires InBounds(st)
    ensures var x := XorWords(st.prev, v);
            && (IsZero(x) ==> EncodeOne(st, v) == ([false], st.(prev := v)))
            && (!IsZero(x) && Reuses(st, x) ==>
                  EncodeOne(st, v) == ([true, false] + Middle(x, st.window.value.lz, st.window.value.tz), st.(prev := v)))
            && (!IsZero(x) && !Reuses(st, x) ==>
                  && CountLeading(x) + CountTrailing(x) < 64
                  && EncodeOne(st, v) == ([true, true] + OpenBits(x),
                                          State(v, Some(Window(CountLeading(x), CountTrailing(x))))))
  {
    var x := XorWords(st.prev, v);
    if !IsZero(x) {
      Extent(x);
    }
  }

  lemma Assoc3(a: seq<bool>, b: seq<bool>, c: seq<bool>, d: seq<bool>)
    ensures ((a + b) + c) + d == a + ((b + c) + d)
  {
  }

  lemma Assoc4(a: seq<bool>, b: seq<bool>, c: seq<bool>, d: seq<bool>, e: seq<bool>, f: seq<bool>)
    ensures (((a + b) + c) + (d + e)) + f == a + ((b + c) + (d + (e + f)))
  {
  }

  class ValState {
    var prev: Word
    var lz: nat
    var tz: nat
    var haveWindow: bool

    ghost function Carried(): (st: State)
      reads this
    {
      State(prev, if haveWindow then Some(Window(lz, tz)) else None)
    }

    constructor (firstVal: Word)
      ensures Carried() == State(firstVal, None)
    {
      prev, lz, tz, haveWindow := firstVal, 0, 0, false;
    }

    /** Reads one value as `DecodeOne` does. */
    method Next(r: BitReader) returns (v: Option<Word>)
      requires r.Valid()
      modifies this, r
      ensures r.Valid()
      ensures v.Some? <==> DecodeOne(old(Carried()), old(r.Rest())).Some?
      ensures v.Some? ==>
                var (st, rest) := DecodeOne(old(Carried()), old(r.Rest())).value;
                Carried() == st && r.Rest() == rest && v.value == st.prev
    {
      ghost var s := r.Rest();
      var c := r.ReadBit();
      if c.None? {
        return None;
      }
      if !c.value {
        return Some(prev);
      }
      var c2 := r.ReadBit();
      if c2.None? {
        return None;
      }
      assert r.Rest() == s[2..];
      if !c2.value {
        v := NextReused(r);
      } else {
        v := NextOpened(r);
      }
    }

    method NextReused(r: BitReader) returns (v: Option<Word>)
      requires r.Valid()
      modifies this, r
      ensures r.Valid()
      ensures v.Some? <==> DecodeReused(old(Carried()), old(r.Rest())).Some?
      ensures v.Some? ==>
                var (st, rest) := DecodeReused(old(Carried()), old(r.Rest())).value;
                Carried() == st && r.Rest() == rest && v.value == st.prev
    {
      if !haveWindow || lz + tz > 64 {
        return None;
      }
      var len := 64 - lz - tz;
      ghost var s := r.Rest();
      var sig := r.ReadBits(len);
      if sig.None? {
        return None;
      }
      BitsBack(s[..len]);
      prev := XorWords(prev, Placed(ToBits(sig.value, len), tz));
      v := Some(prev);
    }

    method NextOpened(r: BitReader) returns (v: Option<Word>)
      requires r.Valid()
      modifies this, r
      ensures r.Valid()
      ensures v.Some? <==> DecodeOpened(old(Carried()), old(r.Rest())).Some?
      ensures v.Some? ==>
                var (st, rest) := DecodeOpened(old(Carried()), old(r.Rest())).value;
                Carried() == st && r.Rest() == rest && v.value == st.prev
    {
      var lz5 := r.ReadBits(5);
      if lz5.None? {
        return None;
      }
      var m1 := r.ReadBits(6);
      if m1.None? {
        return None;
      }
      v := NextWindow(r, lz5.value, m1.value + 1);
    }

    method NextWindow(r: BitReader, lz5: nat, len: nat) returns (v: Option<Word>)
      requires r.Valid()
      modifies this, r
      ensures r.Valid()
      ensures v.Some? <==> DecodeWindow(old(Carried()), lz5, len, old(r.Rest())).Some?
      ensures v.Some? ==>
                var (st, rest) := DecodeWindow(old(Carried()), lz5, len, old(r.Rest())).value;
                Carried() == st && r.Rest() == rest && v.value == st.prev
    {
      ghost var s := r.Rest();
      var sig := r.ReadBits(len);
      if sig.None? || len > 64 || (len != 64 && lz5 + len > 64) {
        return None;
      }
      BitsBack(s[..len]);
      lz := lz5;
      tz := if len == 64 then 0 else 64 - lz5 - len;
      prev := XorWords(prev, Placed(ToBits(sig.value, len), tz));
      haveWindow := true;
      v := Some(prev);
    }
  }

  lemma BitsBack(s: seq<bool>)
    ensures ToBits(FromBits(s), |s|) == s
  {
    ToFromBits(s);
  }

  // ---------------------------------------------------------------------
  // Stable sort by timestamp
  // ---------------------------------------------------------------------

  datatype Point = Point(t: Int64, v: Word)

  predicate SortedByTime(ps: seq<Point>)
  {
    forall i, j :: 0 <= i < j < |ps| ==> ps[i].t <= ps[j].t
  }

  /** Puts `p` behind every point that is not later. */
  function InsertByTime(ps: seq<Point>, p: Point): (r: seq<Point>)
    ensures |r| == |ps| + 1
  {
    if ps == [] || ps[|ps| - 1].t <= p.t then ps + [p]
    else InsertByTime(ps[..|ps| - 1], p) + [ps[|ps| - 1]]
  }

  function StableSort(ps: seq<Point>): (r: seq<Point>)
    ensures |r| == |ps|
  {
    if ps == [] then [] else InsertByTime(StableSort(ps[..|ps| - 1]), ps[|ps| - 1])
  }

  function AtTime(ps: seq<Point>, t: Int64): (r: seq<Point>)
  {
    if ps == [] then []
    else AtTime(ps[..|ps| - 1], t) + (if ps[|ps| - 1].t == t then [ps[|ps| - 1]] else [])
  }

  lemma {:induction false} InsertPermutes(ps: seq<Point>, p: Point)
    ensures multiset(InsertByTime(ps, p)) == multiset(ps) + multiset{p}
  {
    if ps != [] && ps[|ps| - 1].t > p.t {
      var n := |ps| - 1;
      assert ps == ps[..n] + [ps[n]];
      InsertPermutes(ps[..n], p);
    }
  }

  predicate NotAfter(ps: seq<Point>, m: int)
  {
    forall i :: 0 <= i < |ps| ==> ps[i].t <= m
  }

  lemma {:induction false} InsertNotAfter(ps: seq<Point>, p: Point, m: int)
    requires p.t <= m && NotAfter(ps, m)
    ensures NotAfter(InsertByTime(ps, p), m)
  {
    if ps != [] && ps[|ps| - 1].t > p.t {
      InsertNotAfter(ps[..|ps| - 1], p, m);
    }
  }

  lemma {:induction false} InsertSorts(ps: seq<Point>, p: Point)
    requires SortedByTime(ps)
    ensures SortedByTime(InsertByTime(ps, p))
  {
    if ps != [] && ps[|ps| - 1].t > p.t {
      var n := |ps| - 1;
      InsertSorts(ps[..n], p);
      InsertNotAfter(ps[..n], p, ps[n].t);
    }
  }

  lemma {:induction false} InsertStable(ps: seq<Point>, p: Point, t: Int64)
    requires SortedByTime(ps)
    ensures AtTime(InsertByTime(ps, p), t) == AtTime(ps, t) + (if p.t == t then [p] else [])
  {
    var r := InsertByTime(ps, p);
    if ps == [] || ps[|ps| - 1].t <= p.t {
      assert r[..|r| - 1] == ps;
    } else {
      var n := |ps| - 1;
      InsertStable(ps[..n], p, t);
      assert r[..|r| - 1] == InsertByTime(ps[..n], p);
    }
  }

  /** The sort is a permutation, in time order, and stable. */
  lemma {:induction false} StableSortSorts(ps: seq<Point>)
    ensures SortedByTime(StableSort(ps))
    ensures multiset(StableSort(ps)) == multiset(ps)
    ensures forall t: Int64 :: AtTime(StableSort(ps), t) == AtTime(ps, t)
  {
    if ps != [] {
      var n := |ps| - 1;
      assert ps == ps[..n] + [ps[n]];
      StableSortSorts(ps[..n]);
      InsertSorts(StableSort(ps[..n]), ps[n]);
      InsertPermutes(StableSort(ps[..n]), ps[n]);
      forall t: Int64
        ensures AtTime(StableSort(ps), t) == AtTime(ps, t)
      {
        InsertStable(StableSort(ps[..n]), ps[n], t);
      }
    }
  }

  // ---------------------------------------------------------------------
  // One series
  // ---------------------------------------------------------------------

  function TimesOf(ps: seq<Point>): (ts: seq<Int64>)
    ensures |ts| == |ps|
  {
    seq(|ps|, i requires 0 <= i < |ps| => ps[i].t)
  }

  function WordsOf(ps: seq<Point>): (vs: seq<Word>)
    ensures |vs| == |ps|
  {
    seq(|ps|, i requires 0 <= i < |ps| => ps[i].v)
  }

  /** Header fields and bit streams of one encoded series. */
  datatype Encoded = Encoded(firstTs: Int64, firstVal: Word, tsBits: Bytes, valBits: Bytes)

  function Streams(ps: seq<Point>): (e: Encoded)
    requires ps != []
  {
    var ts, vs := TimesOf(ps), WordsOf(ps);
    Encoded(ts[0], vs[0], Pack(TsBits(ts[0], 0, ts[1..])), Pack(EncodeAll(State(vs[0], None), vs[1..])))
  }

  lemma TsBitsSnoc(t0: Int64, d0: Int64, ts: seq<Int64>, t: Int64)
    ensures TsBits(t0, d0, ts + [t])
         == TsBits(t0, d0, ts) + DodBits(Sub(Sub(t, LastTs(t0, ts)), LastDelta(t0, d0, ts)))
    decreases ts
  {
    if ts == [] {
      assert ([] + [t])[1..] == [];
      var dd := DodBits(Sub(Sub(t, t0), d0));
      assert dd + [] == [] + dd;
    } else {
      var delta := Sub(ts[0], t0);
      assert (ts + [t])[1..] == ts[1..] + [t];
      TsBitsSnoc(ts[0], delta, ts[1..], t);
      Assoc(DodBits(Sub(delta, d0)), TsBits(ts[0], delta, ts[1..]),
            DodBits(Sub(Sub(t, LastTs(ts[0], ts[1..])), LastDelta(ts[0], delta, ts[1..]))));
    }
  }

  function LastTs(t0: Int64, ts: seq<Int64>): (t: Int64)
    decreases ts
  {
    if ts == [] then t0 else LastTs(ts[0], ts[1..])
  }

  function LastDelta(t0: Int64, d0: Int64, ts: seq<Int64>): (d: Int64)
    decreases ts
  {
    if ts == [] then d0 else LastDelta(ts[0], Sub(ts[0], t0), ts[1..])
  }

  lemma {:induction false} LastSnoc(t0: Int64, d0: Int64, ts: seq<Int64>, t: Int64)
    ensures LastTs(t0, ts + [t]) == t
    ensures LastDelta(t0, d0, ts + [t]) == Sub(t, LastTs(t0, ts))
    decreases ts
  {
    if ts == [] {
      assert ([] + [t])[1..] == [];
    } else {
      assert (ts + [t])[1..] == ts[1..] + [t];
      LastSnoc(ts[0], Sub(ts[0], t0), ts[1..], t);
    }
  }

  function LastState(st: State, vs: seq<Word>): (r: State)
    requires InBounds(st)
    ensures InBounds(r)
    decreases vs
  {
    if vs == [] then st else LastState(EncodeOne(st, vs[0]).1, vs[1..])
  }

  lemma {:induction false} EncodeAllSnoc(st: State, vs: seq<Word>, v: Word)
    requires InBounds(st)
    ensures EncodeAll(st, vs + [v]) == EncodeAll(st, vs) + EncodeOne(LastState(st, vs), v).0
    ensures LastState(st, vs + [v]) == EncodeOne(LastState(st, vs), v).1
    decreases vs
  {
    hide EncodeOne;
    if vs == [] {
      assert ([] + [v])[1..] == [];
      var b := EncodeOne(st, v).0;
      assert b + [] == [] + b;
    } else {
      var (b, st') := EncodeOne(st, vs[0]);
      assert (vs + [v])[1..] == vs[1..] + [v];
      EncodeAllSnoc(st', vs[1..], v);
      Assoc(b, EncodeAll(st', vs[1..]), EncodeOne(LastState(st', vs[1..]), v).0);
    }
  }

  lemma NoTs(t0: Int64)
    ensures TsBits(t0, 0, []) == [] && LastTs(t0, []) == t0 && LastDelta(t0, 0, []) == 0
  {
  }

  lemma NoValues(v0: Word)
    ensures EncodeAll(State(v0, None), []) == [] && LastState(State(v0, None), []) == State(v0, None)
  {
  }

  method EncodeTimes(ts: seq<Int64>) returns (bits: Bytes)
    requires ts != []
    ensures bits == Pack(TsBits(ts[0], 0, ts[1..]))
  {
    hide *;
    var enc := new TsEncoder();
    enc.Push(ts[0]);
    var i := 1;
    ghost var done: seq<Int64> := [];
    NoTs(ts[0]);
    while i < |ts|
      invariant 1 <= i <= |ts| && done == ts[1..i]
      invariant fresh(enc) && fresh(enc.bw) && enc.bw.Valid() && enc.firstSet
      invariant enc.bw.Written() == TsBits(ts[0], 0, done)
      invariant enc.prevTs == LastTs(ts[0], done) && enc.prevDelta == LastDelta(ts[0], 0, done)
    {
      TsBitsSnoc(ts[0], 0, done, ts[i]);
      LastSnoc(ts[0], 0, done, ts[i]);
      enc.Push(ts[i]);
      done := done + [ts[i]];
      i := i + 1;
    }
    assert done == ts[1..];
    bits := enc.bw.Finish();
  }

  method EncodeValues(vs: seq<Word>) returns (bits: Bytes)
    requires vs != []
    ensures bits == Pack(EncodeAll(State(vs[0], None), vs[1..]))
  {
    hide EncodeOne, EncodeAll, LastState, Pack;
    var enc := new ValEncoder();
    enc.Push(vs[0]);
    NoValues(vs[0]);
    ghost var st := State(vs[0], None);
    ghost var done: seq<Word> := [];
    var i := 1;
    while i < |vs|
      invariant 1 <= i <= |vs| && done == vs[1..i]
      invariant fresh(enc) && fresh(enc.bw) && enc.Valid() && enc.prevSet
      invariant enc.bw.Written() == EncodeAll(st, done) && enc.Carried() == LastState(st, done)
    {
      EncodeAllSnoc(st, done, vs[i]);
      enc.Push(vs[i]);
      done := done + [vs[i]];
      i := i + 1;
    }
    assert done == vs[1..];
    bits := enc.bw.Finish();
  }

  /** Sorts a series by time, keeping the order of equal timestamps, and encodes
      it; the slice is used in that order. */
  method EncodeSeries(samples: seq<Point>) returns (e: Encoded)
    requires samples != []
    ensures e == Streams(StableSort(samples))
  {
    var sorted := StableSort(samples);
    var ts, vs := TimesOf(sorted), WordsOf(sorted);
    var tsBits := EncodeTimes(ts);
    var valBits := EncodeValues(vs);
    e := Encoded(ts[0], vs[0], tsBits, valBits);
  }

  // ---------------------------------------------------------------------
  // Decoding a series
  // ---------------------------------------------------------------------

  /** The timestamps of `n` samples, from the first one and the bits behind it. */
  function DecodeTimes(first: Int64, bits: seq<bool>, n: nat): (r: Option<seq<Int64>>)
  {
    if n == 0 then Some([])
    else
      var ts :- ParseTs(bits, n - 1, first, 0);
      Some([first] + ts)
  }

  function DecodeWords(first: Word, bits: seq<bool>, n: nat): (r: Option<seq<Word>>)
  {
    if n == 0 then Some([])
    else
      var vs :- DecodeAll(State(first, None), bits, n - 1);
      Some([first] + vs)
  }

  /** Timestamps always come back, in stable time order. */
  lemma SeriesTimesRoundTrip(ps: seq<Point>)
    requires ps != []
    ensures DecodeTimes(Streams(ps).firstTs, BytesToBits(Streams(ps).tsBits), |ps|) == Some(TimesOf(ps))
  {
    var ts := TimesOf(ps);
    assert ts == [ts[0]] + ts[1..];
    var s := TsBits(ts[0], 0, ts[1..]);
    PackBits(s);
    TimestampsRoundTrip(ts[0], 0, ts[1..], Zeros(PadLength(|s|)));
  }

  /** Values come back exactly when every opened window is safe. */
  lemma SeriesValuesRoundTripIff(ps: seq<Point>)
    requires ps != []
    ensures DecodeWords(Streams(ps).firstVal, BytesToBits(Streams(ps).valBits), |ps|) == Some(WordsOf(ps)) <==>
            AllSafe(State(WordsOf(ps)[0], None), WordsOf(ps)[1..])
  {
    var vs := WordsOf(ps);
    assert vs == [vs[0]] + vs[1..];
    var st := State(vs[0], None);
    var s := EncodeAll(st, vs[1..]);
    var pad := Zeros(PadLength(|s|));
    PackBits(s);
    ValuesRoundTripIff(st, vs[1..], pad);
    TailDecides(vs[0], DecodeAll(st, s + pad, |vs| - 1), vs);
  }
}
