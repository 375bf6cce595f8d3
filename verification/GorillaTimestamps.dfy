/**
 GORILLA1 timestamps: delta-of-delta in wrap-around int64, prefix-coded in 1, 9,
 12, 16 or 68 bits (section 4.1.1 of the Gorilla paper, with this format's own
 bucket widths), and read back with sign extension.
 */
module GorillaTimestamps {
  import opened Bits
  import opened Common
  import opened Wire
  import opened GorillaBits

  predicate FitsInSignedBits(v: Int64, n: nat)
  {
    if n == 0 || n >= 64 then true else 0 <= v + Pow2(n - 1) && v < Pow2(n - 1)
  }

  /** The `n`-bit field that stores `v`. */
  function FieldOf(v: Int64, n: nat): (s: seq<bool>)
  {
    ToBits(Low(ToU64(v), n), n)
  }

  /** Prefix code of one delta-of-delta. */
  function DodBits(dd: Int64): (s: seq<bool>)
  {
    if dd == 0 then [false]
    else if FitsInSignedBits(dd, 7) then [true, false] + FieldOf(dd, 7)
    else if FitsInSignedBits(dd, 9) then [true, true, false] + FieldOf(dd, 9)
    else if FitsInSignedBits(dd, 12) then [true, true, true, false] + FieldOf(dd, 12)
    else [true, true, true, true] + ToBits(ToU64(dd), 64)
  }

  /** The buckets: 1, 9, 12, 16 or 68 bits, each told by its prefix. */
  lemma DodBuckets(dd: Int64)
    ensures dd == 0 ==> DodBits(dd) == [false]
    ensures dd != 0 && -64 <= dd < 64 ==> |DodBits(dd)| == 9 && DodBits(dd)[..2] == [true, false]
    ensures !(-64 <= dd < 64) && -256 <= dd < 256 ==> |DodBits(dd)| == 12 && DodBits(dd)[..3] == [true, true, false]
    ensures !(-256 <= dd < 256) && -2048 <= dd < 2048 ==>
              |DodBits(dd)| == 16 && DodBits(dd)[..4] == [true, true, true, false]
    ensures !(-2048 <= dd < 2048) ==> |DodBits(dd)| == 68 && DodBits(dd)[..4] == [true, true, true, true]
  {
    assert Pow2(6) == 64 && Pow2(8) == 256 && Pow2(11) == 2048;
  }

  /** `((v << shift) as i64) >> shift` with `shift = 64 - n`. */
  function SignExtend(v: U64, n: nat): (r: int)
  {
    if n == 0 || n >= 64 then ToInt64(v)
    else
      Pow2Words();
      MulNonNegative(v, Pow2(64 - n));
      ToInt64(Low(v * Pow2(64 - n), 64)) / Pow2(64 - n)
  }

  function GetSigned(s: seq<bool>, n: nat): (r: Option<(Int64, seq<bool>)>)
    requires 0 < n <= 64
  {
    var (v, rest) :- GetBits(s, n);
    FromBitsBound(s[..n]); Pow2Monotone(n, 64); Pow2Words();
    SignExtendValue(v, n);
    Some((SignExtend(v, n), rest))
  }

  function ParseDod(s: seq<bool>): (r: Option<(Int64, seq<bool>)>)
  {
    if |s| < 1 then None
    else if !s[0] then Some((0, s[1..]))
    else if |s| < 2 then None
    else if !s[1] then GetSigned(s[2..], 7)
    else if |s| < 3 then None
    else if !s[2] then GetSigned(s[3..], 9)
    else if |s| < 4 then None
    else if !s[3] then GetSigned(s[4..], 12)
    else GetSigned(s[4..], 64)
  }

  // ---------------------------------------------------------------------
  // Sign extension inverts truncation
  // ---------------------------------------------------------------------

  lemma MulBound(a: nat, b: nat, p: nat)
    requires a < b
    ensures a * p <= b * p - p
  {
    MulNonNegative(b - 1 - a, p);
    MulDistribute(b, a + 1, p);
    MulDistribute(a + 1, 1, p);
  }

  /** The shifted word, before and after it is read as signed. */
  lemma ShiftedWord(v: nat, n: nat)
    requires 0 < n < 64 && v < Pow2(n)
    ensures 0 <= v * Pow2(64 - n) < TWO64
    ensures v < Pow2(n - 1) <==> v * Pow2(64 - n) < TWO63
  {
    var p := Pow2(64 - n);
    Pow2Words();
    Pow2Add(n, 64 - n);
    Pow2Add(n - 1, 64 - n);
    assert Pow2(63) == TWO63;
    MulNonNegative(v, p);
    MulBound(v, Pow2(n), p);
    if v < Pow2(n - 1) {
      MulBound(v, Pow2(n - 1), p);
    } else if v > Pow2(n - 1) {
      MulBound(Pow2(n - 1), v, p);
    }
  }

  lemma SignExtendValue(v: U64, n: nat)
    requires 0 < n <= 64 && v < Pow2(n)
    ensures SignExtend(v, n) == if v < Pow2(n - 1) then v else v - Pow2(n)
    ensures -TWO63 <= SignExtend(v, n) < TWO63
  {
    Pow2Words();
    assert Pow2(63) == TWO63;
    if n < 64 {
      var p := Pow2(64 - n);
      ShiftedWord(v, n);
      DivModUnique(v * p, TWO64, 0, v * p);
      Pow2Add(n, 64 - n);
      if v < Pow2(n - 1) {
        DivModUnique(v * p, p, v, 0);
      } else {
        MulDistribute(v, Pow2(n), p);
        DivModUnique(v * p - TWO64, p, v - Pow2(n), 0);
      }
      Pow2Monotone(n, 63);
    }
  }

  /** A value that fits `n` signed bits survives truncation to `n` bits. */
  lemma FieldValue(v: Int64, n: nat)
    requires 0 < n <= 64 && FitsInSignedBits(v, n)
    ensures Low(ToU64(v), n) == if v < 0 then v + Pow2(n) else v
  {
    Pow2Words();
    Pow2Add(64 - n, n);
    Pow2Monotone(n, 64);
    assert Pow2(63) == TWO63;
    if v >= 0 {
      DivModUnique(v, Pow2(n), 0, v);
    } else {
      var q := Pow2(64 - n) - 1;
      MulDistribute(Pow2(64 - n), 1, Pow2(n));
      assert ToU64(v) == q * Pow2(n) + (v + Pow2(n));
      DivModUnique(ToU64(v), Pow2(n), q, v + Pow2(n));
    }
  }

  lemma SignedRoundTrip(v: Int64, n: nat, rest: seq<bool>)
    requires 0 < n <= 64 && FitsInSignedBits(v, n)
    ensures GetSigned(FieldOf(v, n) + rest, n) == Some((v, rest))
  {
    var u := Low(ToU64(v), n);
    FieldValue(v, n);
    GetBitsRoundTrip(u, n, rest);
    Pow2Words();
    Pow2Monotone(n, 64);
    SignExtendValue(u, n);
    assert Pow2(n) == 2 * Pow2(n - 1);
  }

  lemma Word64Field(dd: Int64)
    ensures ToBits(ToU64(dd), 64) == FieldOf(dd, 64)
  {
    Pow2Words();
    DivModUnique(ToU64(dd), Pow2(64), 0, ToU64(dd));
  }

  lemma DropPrefix<T>(p: seq<T>, s: seq<T>, rest: seq<T>)
    ensures ((p + s) + rest)[|p|..] == s + rest
    ensures forall i :: 0 <= i < |p| ==> ((p + s) + rest)[i] == p[i]
  {
  }

  /** Every int64 delta-of-delta decodes, whatever follows it. */
  lemma DodRoundTrip(dd: Int64, rest: seq<bool>)
    ensures ParseDod(DodBits(dd) + rest) == Some((dd, rest))
  {
    if dd == 0 {
      assert ([false] + rest)[1..] == rest;
    } else if FitsInSignedBits(dd, 7) {
      DropPrefix([true, false], FieldOf(dd, 7), rest);
      SignedRoundTrip(dd, 7, rest);
    } else if FitsInSignedBits(dd, 9) {
      DropPrefix([true, true, false], FieldOf(dd, 9), rest);
      SignedRoundTrip(dd, 9, rest);
    } else if FitsInSignedBits(dd, 12) {
      DropPrefix([true, true, true, false], FieldOf(dd, 12), rest);
      SignedRoundTrip(dd, 12, rest);
    } else {
      Word64Field(dd);
      DropPrefix([true, true, true, true], FieldOf(dd, 64), rest);
      SignedRoundTrip(dd, 64, rest);
    }
  }

  // ---------------------------------------------------------------------
  // The stream behind the first timestamp
  // ---------------------------------------------------------------------

  function TsBits(prevTs: Int64, prevDelta: Int64, ts: seq<Int64>): (s: seq<bool>)
    decreases ts
  {
    if ts == [] then []
    else
      var delta := Sub(ts[0], prevTs);
      DodBits(Sub(delta, prevDelta)) + TsBits(ts[0], delta, ts[1..])
  }

  function ParseTs(s: seq<bool>, n: nat, prevTs: Int64, prevDelta: Int64): (r: Option<seq<Int64>>)
    decreases n
  {
    if n == 0 then Some([])
    else
      var (dd, rest) :- ParseDod(s);
      var delta := Add(prevDelta, dd);
      var t := Add(prevTs, delta);
      var ts :- ParseTs(rest, n - 1, t, delta);
      Some([t] + ts)
  }

  /** Decoding inverts encoding for every int64 sequence, wrapping deltas and
      padding bits included. */
  lemma {:induction false} TimestampsRoundTrip(prevTs: Int64, prevDelta: Int64, ts: seq<Int64>, pad: seq<bool>)
    ensures ParseTs(TsBits(prevTs, prevDelta, ts) + pad, |ts|, prevTs, prevDelta) == Some(ts)
    decreases ts
  {
    if ts != [] {
      assert ts == [ts[0]] + ts[1..];
      var delta := Sub(ts[0], prevTs);
      var dd := Sub(delta, prevDelta);
      var tail := TsBits(ts[0], delta, ts[1..]);
      Assoc(DodBits(dd), tail, pad);
      DodRoundTrip(dd, tail + pad);
      AddUndoesSub(ts[0], prevTs);
      AddUndoesSub(delta, prevDelta);
      TimestampsRoundTrip(ts[0], delta, ts[1..], pad);
    }
  }

  // ---------------------------------------------------------------------
  // Encoder and decoder objects
  // ---------------------------------------------------------------------

  class TsEncoder {
    const bw: BitWriter
    var prevTs: Int64
    var prevDelta: Int64
    var firstSet: bool

    constructor ()
      ensures fresh(bw) && bw.Valid() && bw.Written() == [] && !firstSet
    {
      bw := new BitWriter();
      prevTs, prevDelta, firstSet := 0, 0, false;
    }

    /** The first timestamp goes to the chunk header, every other to the stream. */
    method Push(ts: Int64)
      requires bw.Valid()
      modifies this, bw
      ensures bw.Valid() && firstSet && prevTs == ts
      ensures !old(firstSet) ==> prevDelta == 0 && bw.Written() == old(bw.Written())
      ensures old(firstSet) ==>
                && prevDelta == Sub(ts, old(prevTs))
                && bw.Written() == old(bw.Written()) + DodBits(Sub(prevDelta, old(prevDelta)))
    {
      if !firstSet {
        prevTs, prevDelta, firstSet := ts, 0, true;
        return;
      }
      var delta := Sub(ts, prevTs);
      var dd := Sub(delta, prevDelta);
      WriteDod(bw, dd);
      prevTs := ts;
      prevDelta := delta;
    }
  }

  lemma Prefixes()
    ensures ToBits(2, 2) == [true, false]
    ensures ToBits(6, 3) == [true, true, false]
    ensures ToBits(14, 4) == [true, true, true, false]
    ensures ToBits(15, 4) == [true, true, true, true]
  {
    assert ToBits(3, 2) == [true, true];
    assert ToBits(7, 3) == [true, true, true];
  }

  method WriteDod(bw: BitWriter, dd: Int64)
    requires bw.Valid()
    modifies bw
    ensures bw.Valid() && bw.Written() == old(bw.Written()) + DodBits(dd)
  {
    Prefixes();
    if dd == 0 {
      bw.WriteBit(false);
    } else if FitsInSignedBits(dd, 7) {
      WriteField(bw, 2, 2, Low(ToU64(dd), 7), 7);
    } else if FitsInSignedBits(dd, 9) {
      WriteField(bw, 6, 3, Low(ToU64(dd), 9), 9);
    } else if FitsInSignedBits(dd, 12) {
      WriteField(bw, 14, 4, Low(ToU64(dd), 12), 12);
    } else {
      WriteField(bw, 15, 4, ToU64(dd), 64);
    }
  }

  method WriteField(bw: BitWriter, prefix: nat, k: nat, v: nat, n: nat)
    requires bw.Valid()
    modifies bw
    ensures bw.Valid() && bw.Written() == old(bw.Written()) + (ToBits(prefix, k) + ToBits(v, n))
  {
    Assoc(bw.Written(), ToBits(prefix, k), ToBits(v, n));
    bw.WriteBits(prefix, k);
    bw.WriteBits(v, n);
  }

  class TsState {
    var prevTs: Int64
    var prevDelta: Int64

    constructor (firstTs: Int64)
      ensures prevTs == firstTs && prevDelta == 0
    {
      prevTs, prevDelta := firstTs, 0;
    }

    /** Reads one timestamp; a truncated stream reads as `None`. */
    method Next(r: BitReader) returns (ts: Option<Int64>)
      requires r.Valid()
      modifies this, r
      ensures r.Valid()
      ensures ts.Some? <==> ParseDod(old(r.Rest())).Some?
      ensures ts.Some? ==>
                var (dd, rest) := ParseDod(old(r.Rest())).value;
                && r.Rest() == rest
                && prevDelta == Add(old(prevDelta), dd)
                && prevTs == Add(old(prevTs), prevDelta)
                && ts == Some(prevTs)
    {
      var dd := ReadDod(r);
      if dd.None? {
        return None;
      }
      prevDelta := Add(prevDelta, dd.value);
      prevTs := Add(prevTs, prevDelta);
      ts := Some(prevTs);
    }
  }

  method ReadSigned(r: BitReader, n: nat) returns (v: Option<Int64>)
    requires r.Valid() && 0 < n <= 64
    modifies r
    ensures r.Valid()
    ensures if GetSigned(old(r.Rest()), n).None? then v.None?
            else v == Some(GetSigned(old(r.Rest()), n).value.0) && r.Rest() == GetSigned(old(r.Rest()), n).value.1
  {
    ghost var s := r.Rest();
    var u := r.ReadBits(n);
    if u.None? {
      return None;
    }
    FromBitsBound(s[..n]);
    Pow2Monotone(n, 64);
    Pow2Words();
    SignExtendValue(u.value, n);
    v := Some(SignExtend(u.value, n));
  }

  method ReadDod(r: BitReader) returns (dd: Option<Int64>)
    requires r.Valid()
    modifies r
    ensures r.Valid()
    ensures if ParseDod(old(r.Rest())).None? then dd.None?
            else dd == Some(ParseDod(old(r.Rest())).value.0) && r.Rest() == ParseDod(old(r.Rest())).value.1
  {
    ghost var s := r.Rest();
    var b := r.ReadBit();
    if b.None? {
      return None;
    }
    if !b.value {
      return Some(0);
    }
    var b2 := r.ReadBit();
    if b2.None? {
      return None;
    }
    assert r.Rest() == s[2..];
    if !b2.value {
      dd := ReadSigned(r, 7);
      return;
    }
    var b3 := r.ReadBit();
    if b3.None? {
      return None;
    }
    assert r.Rest() == s[3..];
    if !b3.value {
      dd := ReadSigned(r, 9);
      return;
    }
    var b4 := r.ReadBit();
    if b4.None? {
      return None;
    }
    assert r.Rest() == s[4..];
    if !b4.value {
      dd := ReadSigned(r, 12);
      return;
    }
    dd := ReadSigned(r, 64);
  }
}
