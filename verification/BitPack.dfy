/**
 The fixed-width residual packer: every value in `width` bits, most significant
 bit first, zero-padded to whole bytes, through a 64-bit accumulator.

 The reference is a bit string: `Fields` lays the values side by side and
 `Unfields` cuts a bit string back into numbers.  The accumulator agrees with it
 exactly for the widths up to 58, 60 and 64; the format itself stops at 56.
 */
module BitPack {
  import opened Bits
  import opened Common
  import opened Wire

  const MAX_RESIDUAL_WIDTH: nat := 56

  /** The widths at which the bits left over between fields always share a word with
      the next field. */
  predicate ExactWidth(w: nat)
  {
    w <= 58 || w == 60 || w == 64
  }

  /** What the number of bits left over between fields is a multiple of. */
  function Grain(w: nat): (g: nat)
    ensures g in {1, 2, 4, 8}
  {
    if w == 58 then 2 else if w == 60 then 4 else if w == 64 then 8 else 1
  }

  predicate Grained(w: nat, nbits: nat)
  {
    nbits % Grain(w) == 0
  }

  /** Between fields: the next one fits the word, and what it leaves over is again a
      multiple. */
  lemma GrainKeeps(w: nat, nbits: nat)
    requires ExactWidth(w) && nbits < 8 && Grained(w, nbits)
    ensures nbits + w <= 64 && Grained(w, (nbits + w) % 8)
  {
  }

  /** While reading: another byte fits the word as long as the field is not whole. */
  lemma GrainRoom(w: nat, nbits: nat)
    requires ExactWidth(w) && Grained(w, nbits)
    ensures nbits < w ==> nbits + 8 <= 64
    ensures Grained(w, nbits + 8)
    ensures w <= nbits ==> Grained(w, nbits - w)
  {
    if w == 58 {
      assert nbits % 2 == 0;
    } else if w == 60 {
      assert nbits % 4 == 0;
    } else if w == 64 {
      assert nbits % 8 == 0;
    } else {
      assert Grain(w) == 1;
    }
  }

  predicate Fit(us: seq<nat>, w: nat)
  {
    forall i :: 0 <= i < |us| ==> us[i] < Pow2(w)
  }

  function Fields(us: seq<nat>, w: nat): (s: seq<bool>)
  {
    if us == [] then [] else Fields(us[..|us| - 1], w) + ToBits(us[|us| - 1], w)
  }

  function Unfields(s: seq<bool>, n: nat, w: nat): (us: seq<nat>)
    requires n * w <= |s|
    ensures |us| == n
  {
    if n == 0 then []
    else
      LengthStep(n, w);
      Unfields(s, n - 1, w) + [FromBits(s[(n - 1) * w..n * w])]
  }

  /** What a packed body of `n` fields denotes, if the bytes are all there. */
  function Unpack(src: Bytes, n: nat, w: nat): (r: Option<seq<nat>>)
  {
    if n * w > 8 * |src| then None else Some(Unfields(BytesToBits(src), n, w))
  }

  function PackedLength(n: nat, w: nat): (k: nat)
  {
    MulNonNegative(n, w);
    (n * w + 7) / 8
  }

  lemma LengthStep(n: nat, w: nat)
    requires n > 0
    ensures n * w == (n - 1) * w + w
    ensures 0 <= (n - 1) * w <= n * w
  {
    MulNonNegative(n - 1, w);
  }

  lemma {:induction false} FieldsLength(us: seq<nat>, w: nat)
    ensures |Fields(us, w)| == |us| * w
  {
    if us != [] {
      FieldsLength(us[..|us| - 1], w);
      LengthStep(|us|, w);
    }
  }

  // ---------------------------------------------------------------------
  // Round trip of the reference
  // ---------------------------------------------------------------------

  lemma {:induction false} UnfieldsOfFields(us: seq<nat>, w: nat, rest: seq<bool>)
    requires Fit(us, w)
    ensures |us| * w <= |Fields(us, w) + rest|
    ensures Unfields(Fields(us, w) + rest, |us|, w) == us
  {
    FieldsLength(us, w);
    if us != [] {
      var n := |us| - 1;
      assert us == us[..n] + [us[n]];
      var last := ToBits(us[n], w);
      FieldsLength(us[..n], w);
      UnfieldsOfFields(us[..n], w, last + rest);
      Assoc(Fields(us[..n], w), last, rest);
      LengthStep(|us|, w);
      assert (Fields(us, w) + rest)[n * w..(n + 1) * w] == last;
      FromToBits(us[n], w);
    }
  }

  /** Unpacking reads back what packing wrote, whatever follows it. */
  lemma UnpackRoundTrip(us: seq<nat>, w: nat, rest: Bytes)
    requires Fit(us, w)
    ensures |Pack(Fields(us, w))| == PackedLength(|us|, w)
    ensures Unpack(Pack(Fields(us, w)) + rest, |us|, w) == Some(us)
  {
    var bits := Fields(us, w);
    var pad := Zeros(PadLength(|bits|));
    FieldsLength(us, w);
    BytesToBitsConcat(Pack(bits), rest);
    PackBits(bits);
    Assoc(bits, pad, BytesToBits(rest));
    UnfieldsOfFields(us, w, pad + BytesToBits(rest));
  }

  // ---------------------------------------------------------------------
  // The accumulator
  // ---------------------------------------------------------------------

  /** `(cur << w) | u` in a 64-bit word. */
  function ShiftIn(cur: U64, u: nat, w: nat): (r: U64)
  {
    Pow2Words();
    MulNonNegative(cur, Pow2(w));
    Low(cur * Pow2(w) + u, 64)
  }

  lemma ShiftInBits(cur: U64, u: nat, n: nat, w: nat)
    requires u < Pow2(w) && n + w <= 64
    ensures ToBits(ShiftIn(cur, u, w), n + w) == ToBits(cur, n) + ToBits(u, w)
  {
    MulNonNegative(cur, Pow2(w));
    ToBitsLow(cur * Pow2(w) + u, n + w, 64);
    ToBitsJoin(cur, u, n, w);
  }

  /** `(cur >> left) & (1 << w) - 1`. */
  function ShiftOut(cur: nat, left: nat, w: nat): (u: nat)
    ensures u < Pow2(w)
  {
    Low(Shr(cur, left), w)
  }

  lemma ShiftOutBits(cur: nat, left: nat, w: nat)
    ensures ToBits(cur, w + left) == ToBits(ShiftOut(cur, left, w), w) + ToBits(cur, left)
  {
    ToBitsSplit(cur, w, left);
    ToBitsLow(Shr(cur, left), w, w);
  }

  lemma ShiftOutAll(cur: nat, w: nat)
    ensures ShiftOut(cur, 0, w) == Low(cur, w)
  {
    assert Shr(cur, 0) == cur / 1;
  }

  lemma {:induction false} TopBitClear(v: nat, n: nat)
    requires n > 0 && v < Pow2(n - 1)
    ensures !ToBits(v, n)[0]
    decreases n
  {
    if n > 1 {
      TopBitClear(v / 2, n - 1);
    }
  }

  lemma {:induction false} TopBitSet(n: nat)
    requires n > 0
    ensures ToBits(Pow2(n - 1), n)[0]
  {
    if n > 1 {
      TopBitSet(n - 1);
      assert Pow2(n - 1) / 2 == Pow2(n - 2);
    }
  }

  lemma AccumulatorLosesTopBit(n: nat, w: nat) returns (cur: U64)
    requires n <= 64 && w <= 64 && n + w > 64
    ensures cur < Pow2(n)
    ensures ToBits(ShiftIn(cur, 0, w), n + w) != ToBits(cur, n) + ToBits(0, w)
  {
    FieldFits(Pow2(n - 1), n);
    cur := Pow2(n - 1);
    ShiftInSmall(cur, w, n + w - 1);
    TopBitClear(ShiftIn(cur, 0, w), n + w);
    TopBitSet(n);
    assert (ToBits(cur, n) + ToBits(0, w))[0];
  }

  lemma ShiftInSmall(cur: U64, w: nat, m: nat)
    requires m >= 64
    ensures ShiftIn(cur, 0, w) < Pow2(m)
  {
    Pow2Monotone(64, m);
  }

  /** Shifting a `w`-bit field in behind `n` pending bits loses no live bit,
      whatever the bits are, exactly when they fit the word together. */
  lemma AccumulatorExactIff(n: nat, w: nat)
    requires n <= 64 && w <= 64
    ensures (forall cur: U64, u: nat | cur < Pow2(n) && u < Pow2(w) ::
               ToBits(ShiftIn(cur, u, w), n + w) == ToBits(cur, n) + ToBits(u, w))
       <==> n + w <= 64
  {
    if n + w <= 64 {
      forall cur: U64, u: nat | cur < Pow2(n) && u < Pow2(w)
        ensures ToBits(ShiftIn(cur, u, w), n + w) == ToBits(cur, n) + ToBits(u, w)
      {
        ShiftInBits(cur, u, n, w);
      }
    } else {
      var cur := AccumulatorLosesTopBit(n, w);
    }
  }

  lemma FieldFits(u: nat, w: nat)
    requires u < Pow2(w) && w <= 64
    ensures u < TWO64
  {
    Pow2Words();
    Pow2Monotone(w, 64);
  }

  /** `body` and the low `nbits` bits of `cur` together carry `bits`. */
  ghost predicate Holds(body: Bytes, cur: U64, nbits: nat, bits: seq<bool>)
  {
    BytesToBits(body) + ToBits(cur, nbits) == bits
  }

  lemma HoldsAfterShiftIn(body: Bytes, cur: U64, nbits: nat, bits: seq<bool>, u: nat, w: nat)
    requires Holds(body, cur, nbits, bits) && u < Pow2(w) && nbits + w <= 64
    ensures Holds(body, ShiftIn(cur, u, w), nbits + w, bits + ToBits(u, w))
  {
    ShiftInBits(cur, u, nbits, w);
    Assoc(BytesToBits(body), ToBits(cur, nbits), ToBits(u, w));
  }

  lemma HoldsAfterByte(body: Bytes, cur: U64, left: nat, bits: seq<bool>, b: Byte)
    requires Holds(body, cur, 8 + left, bits) && b == ShiftOut(cur, left, 8)
    ensures Holds(body + [b], cur, left, bits)
  {
    ShiftOutBits(cur, left, 8);
    BytesToBitsSnoc(body, b);
    Assoc(BytesToBits(body), ToBits(b, 8), ToBits(cur, left));
  }

  lemma FieldsSnoc(us: seq<nat>, u: nat, w: nat)
    ensures Fields(us + [u], w) == Fields(us, w) + ToBits(u, w)
  {
    assert (us + [u])[..|us|] == us;
  }

  lemma LastByte(body: Bytes, cur: U64, nbits: nat, bits: seq<bool>, b: Byte)
    requires Holds(body, cur, nbits, bits) && 0 < nbits < 8
    requires b == Low(ShiftIn(cur, 0, 8 - nbits), 8)
    ensures body + [b] == Pack(bits)
  {
    var k := 8 - nbits;
    var last := ShiftIn(cur, 0, k);
    HoldsAfterShiftIn(body, cur, nbits, bits, 0, k);
    ToBitsZero(k);
    ShiftOutAll(last, 8);
    HoldsAfterByte(body, last, 0, bits + Zeros(k), b);
    WholeBytes(body + [b], bits, k);
  }

  /** What `PackFields` stores of each value. */
  function Truncated(us: seq<U64>, w: nat): (vs: seq<nat>)
    ensures |vs| == |us| && Fit(vs, w)
  {
    seq(|us|, i requires 0 <= i < |us| => Low(us[i], w))
  }

  // ---------------------------------------------------------------------
  // Packing
  // ---------------------------------------------------------------------

  /** The whole bytes among the low `n` bits. */
  function Drained(cur: U64, n: nat): (bs: Bytes)
    decreases n
  {
    if n < 8 then []
    else
      Pow2Bytes();
      [ShiftOut(cur, n - 8, 8)] + Drained(cur, n - 8)
  }

  /** What the accumulator makes of the values, at any width. */
  function Packed(us: seq<U64>, w: nat, cur: U64, nbits: nat): (bs: Bytes)
    requires nbits < 8
    decreases |us|
  {
    if us == [] then
      Pow2Bytes();
      if nbits == 0 then [] else [Low(ShiftIn(cur, 0, 8 - nbits), 8)]
    else
      var c := ShiftIn(cur, Low(us[0], w), w);
      Drained(c, nbits + w) + Packed(us[1..], w, c, (nbits + w) % 8)
  }

  lemma {:induction false} DrainedHolds(body: Bytes, cur: U64, n: nat, bits: seq<bool>)
    requires Holds(body, cur, n, bits)
    ensures Holds(body + Drained(cur, n), cur, n % 8, bits)
    decreases n
  {
    hide ShiftOut, Holds;
    if n < 8 {
      assert body + [] == body;
    } else {
      EightMore(n - 8);
      Pow2Bytes();
      var b: Byte := ShiftOut(cur, n - 8, 8);
      HoldsAfterByte(body, cur, n - 8, bits, b);
      DrainedHolds(body + [b], cur, n - 8, bits);
      Assoc(body, [b], Drained(cur, n - 8));
    }
  }

  /** Moves every whole byte out of the accumulator. */
  method EmitBytes(body: Bytes, cur: U64, nbits: nat) returns (out: Bytes, left: nat)
    ensures out == body + Drained(cur, nbits) && left == nbits % 8
  {
    hide ShiftOut;
    out, left := body, nbits;
    while left >= 8
      invariant out + Drained(cur, left) == body + Drained(cur, nbits) && left % 8 == nbits % 8
    {
      left := left - 8;
      Pow2Bytes();
      var b: Byte := ShiftOut(cur, left, 8);
      Assoc(out, [b], Drained(cur, left));
      out := out + [b];
    }
    assert out + [] == out;
  }

  /** The bits of the first `i` values. */
  ghost function FieldsUpTo(us: seq<U64>, i: nat, w: nat): (s: seq<bool>)
    requires i <= |us|
  {
    Fields(Truncated(us, w)[..i], w)
  }

  lemma PackStep(us: seq<U64>, i: nat, w: nat, body: Bytes, cur: U64, nbits: nat)
    requires i < |us| && nbits + w <= 64
    requires Holds(body, cur, nbits, FieldsUpTo(us, i, w))
    ensures Holds(body, ShiftIn(cur, Low(us[i], w), w), nbits + w, FieldsUpTo(us, i + 1, w))
  {
    var vs, v := Truncated(us, w), Low(us[i], w);
    assert vs[..i + 1] == vs[..i] + [v];
    HoldsAfterShiftIn(body, cur, nbits, Fields(vs[..i], w), v, w);
    FieldsSnoc(vs[..i], v, w);
  }

  lemma NothingHeld()
    ensures Holds([], 0, 0, [])
    ensures Pack([]) == []
  {
  }

  lemma PackEnds(us: seq<U64>, w: nat)
    ensures FieldsUpTo(us, 0, w) == []
    ensures FieldsUpTo(us, |us|, w) == Fields(Truncated(us, w), w)
    ensures w == 0 ==> Fields(Truncated(us, w), w) == []
  {
    var vs := Truncated(us, w);
    assert vs[..0] == [] && vs[..|us|] == vs;
    FieldsLength(vs, w);
  }

  /** At an exact width nothing is lost, from any point of the run on. */
  lemma {:induction false} PackedFrom(us: seq<U64>, w: nat, i: nat, body: Bytes, cur: U64, nbits: nat)
    requires ExactWidth(w) && i <= |us| && nbits < 8 && Grained(w, nbits)
    requires Holds(body, cur, nbits, FieldsUpTo(us, i, w))
    ensures body + Packed(us[i..], w, cur, nbits) == Pack(FieldsUpTo(us, |us|, w))
    decreases |us| - i
  {
    hide FieldsUpTo, Holds, ShiftIn, Drained, Pack, Low, Grained, ExactWidth;
    GrainKeeps(w, nbits);
    if i == |us| {
      if nbits > 0 {
        Pow2Bytes();
        LastByte(body, cur, nbits, FieldsUpTo(us, i, w), Low(ShiftIn(cur, 0, 8 - nbits), 8));
      } else {
        NothingPending(body, cur, FieldsUpTo(us, i, w));
      }
    } else {
      var c := ShiftIn(cur, Low(us[i], w), w);
      PackStep(us, i, w, body, cur, nbits);
      DrainedHolds(body, c, nbits + w, FieldsUpTo(us, i + 1, w));
      var out := body + Drained(c, nbits + w);
      PackedFrom(us, w, i + 1, out, c, (nbits + w) % 8);
      assert us[i..][0] == us[i] && us[i..][1..] == us[i + 1..];
      Assoc(body, Drained(c, nbits + w), Packed(us[i + 1..], w, c, (nbits + w) % 8));
    }
  }

  lemma NothingPending(body: Bytes, cur: U64, bits: seq<bool>)
    requires Holds(body, cur, 0, bits)
    ensures body + [] == Pack(bits)
  {
    WholeBytes(body, bits, 0);
    assert body + [] == body;
  }

  /** At an exact width the accumulator writes the fields side by side. */
  lemma PackedExact(us: seq<U64>, w: nat)
    requires ExactWidth(w)
    ensures Packed(us, w, 0, 0) == Pack(Fields(Truncated(us, w), w))
  {
    PackEnds(us, w);
    NothingHeld();
    PackedFrom(us, w, 0, [], 0, 0);
    assert us[0..] == us;
    assert [] + Packed(us, w, 0, 0) == Packed(us, w, 0, 0);
  }

  lemma {:induction false} PackedNothing(us: seq<U64>)
    ensures Packed(us, 0, 0, 0) == []
  {
    if us != [] {
      PackedNothing(us[1..]);
    }
  }

  /** The loop over the values, at every width; at an exact one it writes the fields
      side by side. */
  method PackFields(dst: Bytes, us: seq<U64>, width: Byte) returns (out: Bytes)
    ensures out == dst + Packed(us, width, 0, 0)
    ensures ExactWidth(width) ==> out == dst + Pack(Fields(Truncated(us, width), width))
  {
    hide ShiftIn, Drained;
    if ExactWidth(width) {
      PackedExact(us, width);
    }
    if width == 0 {
      PackedNothing(us);
      return dst;
    }
    out := dst;
    var cur: U64, nbits: nat, i := 0, 0, 0;
    assert us[0..] == us;
    while i < |us|
      invariant 0 <= i <= |us| && nbits < 8
      invariant out + Packed(us[i..], width, cur, nbits) == dst + Packed(us, width, 0, 0)
    {
      assert us[i..][0] == us[i] && us[i..][1..] == us[i + 1..];
      cur := ShiftIn(cur, Low(us[i], width), width);
      Assoc(out, Drained(cur, nbits + width), Packed(us[i + 1..], width, cur, (nbits + width) % 8));
      out, nbits := EmitBytes(out, cur, nbits + width);
      i := i + 1;
    }
    if nbits > 0 {
      Pow2Bytes();
      out := out + [Low(ShiftIn(cur, 0, 8 - nbits), 8)];
    } else {
      assert out + [] == out;
    }
  }

  // ---------------------------------------------------------------------
  // Unpacking
  // ---------------------------------------------------------------------

  lemma TooShort(i: nat, n: nat, w: nat, src: Bytes)
    requires i < n && i * w + w > 8 * |src|
    ensures Unpack(src, n, w) == None
  {
    LengthStep(i + 1, w);
    MulNonNegative(n - (i + 1), w);
    MulDistribute(n, i + 1, w);
  }

  lemma FitSnoc(us: seq<nat>, u: nat, w: nat)
    requires Fit(us, w) && u < Pow2(w)
    ensures Fit(us + [u], w)
  {
  }

  lemma NothingConsumed(src: Bytes, w: nat)
    ensures Consumed(src, 0, [], w, 0, 0) && Fit([], w)
  {
  }

  /** The first `pos` bytes are the fields read so far and `nbits` bits held back. */
  ghost predicate Consumed(src: Bytes, pos: nat, us: seq<nat>, w: nat, cur: U64, nbits: nat)
    requires pos <= |src|
  {
    BytesToBits(src[..pos]) == Fields(us, w) + ToBits(cur, nbits)
  }

  lemma ConsumedAfterByte(src: Bytes, pos: nat, us: seq<nat>, w: nat, cur: U64, nbits: nat)
    requires pos < |src| && nbits + 8 <= 64
    requires Consumed(src, pos, us, w, cur, nbits)
    ensures Consumed(src, pos + 1, us, w, ShiftIn(cur, src[pos], 8), nbits + 8)
  {
    var b := src[pos];
    assert src[..pos + 1] == src[..pos] + [b];
    Pow2Bytes();
    ShiftInBits(cur, b, nbits, 8);
    BytesToBitsSnoc(src[..pos], b);
    Assoc(Fields(us, w), ToBits(cur, nbits), ToBits(b, 8));
  }

  lemma ConsumedAfterField(src: Bytes, pos: nat, us: seq<nat>, w: nat, cur: U64, left: nat, u: nat)
    requires pos <= |src| && u == ShiftOut(cur, left, w)
    requires Consumed(src, pos, us, w, cur, w + left)
    ensures Consumed(src, pos, us + [u], w, cur, left)
  {
    ShiftOutBits(cur, left, w);
    FieldsSnoc(us, u, w);
    Assoc(Fields(us, w), ToBits(u, w), ToBits(cur, left));
  }

  lemma ConsumedLength(src: Bytes, us: seq<nat>, w: nat, cur: U64, nbits: nat)
    requires Consumed(src, |src|, us, w, cur, nbits)
    ensures 8 * |src| == |us| * w + nbits
  {
    assert src[..|src|] == src;
    FieldsLength(us, w);
  }

  lemma ConsumedAll(src: Bytes, pos: nat, us: seq<nat>, w: nat, cur: U64, nbits: nat)
    requires pos <= |src| && Fit(us, w)
    requires Consumed(src, pos, us, w, cur, nbits)
    ensures Unpack(src, |us|, w) == Some(us)
  {
    assert src == src[..pos] + src[pos..];
    BytesToBitsConcat(src[..pos], src[pos..]);
    Assoc(Fields(us, w), ToBits(cur, nbits), BytesToBits(src[pos..]));
    UnfieldsOfFields(us, w, ToBits(cur, nbits) + BytesToBits(src[pos..]));
  }

  /** Where the reader stands: the next byte and the bits it holds back. */
  datatype Cursor = Cursor(pos: nat, cur: U64, nbits: nat)

  /** Bytes shifted in until a whole field is live. */
  function Refilled(src: Bytes, c: Cursor, w: nat): (r: Option<Cursor>)
    requires c.pos <= |src|
    ensures r.Some? ==> c.pos <= r.value.pos <= |src| && r.value.nbits >= w
    decreases |src| - c.pos
  {
    if c.nbits >= w then Some(c)
    else if c.pos == |src| then None
    else Refilled(src, Cursor(c.pos + 1, ShiftIn(c.cur, src[c.pos], 8), c.nbits + 8), w)
  }

  lemma ShiftOutSmall(cur: U64, left: nat, w: nat)
    ensures ShiftOut(cur, left, w) < TWO64
    ensures left <= 64 ==> ShiftOut(cur, left, w) < Pow2(64 - left)
  {
    Pow2Words();
    DivSmall(cur, Pow2(left), TWO64);
    ModSmall(Shr(cur, left), Pow2(w));
    if left <= 64 {
      Pow2Add(left, 64 - left);
      DivLess(cur, Pow2(left), Pow2(64 - left));
    }
  }

  lemma DivLess(v: nat, p: nat, q: nat)
    requires p > 0 && v < p * q
    ensures v / p < q
  {
    if v / p >= q {
      MulBoth(q, v / p, p);
    }
  }

  lemma DivSmall(v: nat, p: nat, m: nat)
    requires p > 0 && v < m
    ensures v / p < m
  {
    MulAtLeast(p, m);
    DivLess(v, p, m);
  }

  lemma ModSmall(v: nat, p: nat)
    requires p > 0
    ensures v % p <= v
  {
  }

  lemma MulBoth(a: nat, b: nat, p: nat)
    requires a <= b
    ensures p * a <= p * b
  {
  }

  /** What the accumulator reads, at any width. */
  function Unpacked(src: Bytes, n: nat, w: nat, c: Cursor): (r: Option<seq<U64>>)
    requires c.pos <= |src|
    ensures r.Some? ==> |r.value| == n
    decreases n
  {
    if n == 0 then Some([])
    else
      var d :- Refilled(src, c, w);
      ShiftOutSmall(d.cur, d.nbits - w, w);
      var rest :- Unpacked(src, n - 1, w, d.(nbits := d.nbits - w));
      Some([ShiftOut(d.cur, d.nbits - w, w)] + rest)
  }

  const START: Cursor := Cursor(0, 0, 0)

  lemma {:induction false} RefilledBits(src: Bytes, c: Cursor, w: nat)
    requires c.pos <= |src|
    ensures var r := Refilled(src, c, w);
            if r.Some? then 8 * r.value.pos - r.value.nbits == 8 * c.pos - c.nbits
            else c.nbits + 8 * (|src| - c.pos) < w
    decreases |src| - c.pos
  {
    if c.nbits < w && c.pos < |src| {
      RefilledBits(src, Cursor(c.pos + 1, ShiftIn(c.cur, src[c.pos], 8), c.nbits + 8), w);
    }
  }

  lemma {:induction false} RefilledLeft(src: Bytes, c: Cursor, w: nat)
    requires c.pos <= |src| && c.nbits < w + 8
    ensures var r := Refilled(src, c, w); r.Some? ==> r.value.nbits - w == (c.nbits - w) % 8
    decreases |src| - c.pos
  {
    hide ShiftIn;
    if c.nbits < w && c.pos < |src| {
      EightMore(c.nbits - w);
      RefilledLeft(src, Cursor(c.pos + 1, ShiftIn(c.cur, src[c.pos], 8), c.nbits + 8), w);
    }
  }

  lemma EightMore(x: int)
    ensures (x + 8) % 8 == x % 8
  {
  }

  /** Whatever is read was there: the fields take no more bytes than are left. */
  lemma {:induction false} UnpackedLength(src: Bytes, n: nat, w: nat, c: Cursor)
    requires c.pos <= |src| && Unpacked(src, n, w, c).Some?
    ensures n * w <= c.nbits + 8 * (|src| - c.pos)
    decreases n
  {
    if n > 0 {
      LengthStep(n, w);
      RefilledBits(src, c, w);
      var d := Refilled(src, c, w).value;
      UnpackedLength(src, n - 1, w, d.(nbits := d.nbits - w));
    } else {
      assert n * w == 0;
    }
  }

  lemma {:induction false} RefilledConsumed(src: Bytes, us: seq<nat>, c: Cursor, w: nat)
    requires ExactWidth(w) && c.pos <= |src| && Consumed(src, c.pos, us, w, c.cur, c.nbits)
    requires c.nbits < w + 8 && Grained(w, c.nbits)
    ensures var r := Refilled(src, c, w);
            if r.None? then |us| * w + w > 8 * |src|
            else Consumed(src, r.value.pos, us, w, r.value.cur, r.value.nbits)
                 && w <= r.value.nbits < w + 8 && Grained(w, r.value.nbits)
    decreases |src| - c.pos
  {
    hide Consumed, ShiftIn, Grained, ExactWidth;
    GrainRoom(w, c.nbits);
    if c.nbits < w {
      if c.pos == |src| {
        ConsumedLength(src, us, w, c.cur, c.nbits);
      } else {
        ConsumedAfterByte(src, c.pos, us, w, c.cur, c.nbits);
        RefilledConsumed(src, us, Cursor(c.pos + 1, ShiftIn(c.cur, src[c.pos], 8), c.nbits + 8), w);
      }
    }
  }

  /** At an exact width the rest of the fields follows those already read. */
  lemma {:induction false} UnpackedFrom(src: Bytes, us: seq<nat>, n: nat, w: nat, c: Cursor)
    requires ExactWidth(w) && c.pos <= |src| && Consumed(src, c.pos, us, w, c.cur, c.nbits)
    requires Fit(us, w) && c.nbits < 8 && Grained(w, c.nbits)
    ensures var r := Unpacked(src, n, w, c);
            Unpack(src, |us| + n, w) == if r.None? then None else Some(us + r.value)
    decreases n
  {
    hide Consumed, Refilled, Unpack, ShiftOut, Fit, Grained, ExactWidth;
    if n == 0 {
      ConsumedAll(src, c.pos, us, w, c.cur, c.nbits);
      assert us + [] == us;
    } else {
      RefilledConsumed(src, us, c, w);
      var r := Refilled(src, c, w);
      if r.None? {
        TooShort(|us|, |us| + n, w, src);
      } else {
        var d, left := r.value, r.value.nbits - w;
        var u := ShiftOut(d.cur, left, w);
        GrainRoom(w, d.nbits);
        ConsumedAfterField(src, d.pos, us, w, d.cur, left, u);
        FitSnoc(us, u, w);
        ShiftOutSmall(d.cur, left, w);
        var next := d.(nbits := left);
        UnpackedFrom(src, us + [u], n - 1, w, next);
        var rest := Unpacked(src, n - 1, w, next);
        if rest.Some? {
          Assoc(us, [u], rest.value);
        }
      }
    }
  }

  /** At an exact width the accumulator reads the fields off the bit string. */
  lemma UnpackedExact(src: Bytes, n: nat, w: nat)
    requires ExactWidth(w)
    ensures Unpacked(src, n, w, START) == Unpack(src, n, w)
  {
    hide Unpacked, Unpack, Consumed, Fit, ExactWidth;
    NothingConsumed(src, w);
    UnpackedFrom(src, [], n, w, START);
    var r := Unpacked(src, n, w, START);
    assert r.Some? ==> [] + r.value == r.value;
  }

  /** Reads bytes until the accumulator holds a whole field. */
  method Refill(src: Bytes, c: Cursor, width: Byte) returns (r: Option<Cursor>)
    requires c.pos <= |src|
    ensures r == Refilled(src, c, width)
  {
    var d := c;
    while d.nbits < width
      invariant d.pos <= |src| && Refilled(src, d, width) == Refilled(src, c, width)
    {
      if d.pos >= |src| {
        return None;
      }
      d := Cursor(d.pos + 1, ShiftIn(d.cur, src[d.pos], 8), d.nbits + 8);
    }
    r := Some(d);
  }

  /** The loop over the fields, at every width; at an exact one it reads the bit string
      of the source. */
  method UnpackFields(src: Bytes, n: nat, width: Byte) returns (r: Option<seq<U64>>)
    ensures r == Unpacked(src, n, width, START)
    ensures ExactWidth(width) ==> r == Unpack(src, n, width)
  {
    hide Refilled, ShiftOut;
    if ExactWidth(width) {
      UnpackedExact(src, n, width);
    }
    var out: seq<U64> := [];
    var c := START;
    ghost var goal := Unpacked(src, n, width, START);
    assert goal.Some? ==> [] + goal.value == goal.value;
    for i := 0 to n
      invariant c.pos <= |src|
      invariant goal == Onto(out, Unpacked(src, n - i, width, c))
    {
      var d := Refill(src, c, width);
      if d.None? {
        return None;
      }
      var left := d.value.nbits - width;
      ShiftOutSmall(d.value.cur, left, width);
      var u: U64 := ShiftOut(d.value.cur, left, width);
      c := d.value.(nbits := left);
      OntoStep(out, u, Unpacked(src, n - i - 1, width, c));
      out := out + [u];
    }
    assert out + [] == out;
    return Some(out);
  }

  ghost function Onto(out: seq<U64>, p: Option<seq<U64>>): (r: Option<seq<U64>>)
  {
    if p.None? then None else Some(out + p.value)
  }

  lemma OntoStep(out: seq<U64>, u: U64, p: Option<seq<U64>>)
    ensures p.Some? ==> Onto(out, Some([u] + p.value)) == Onto(out + [u], p)
  {
    if p.Some? {
      Assoc(out, [u], p.value);
    }
  }

  // ---------------------------------------------------------------------
  // Fields wider than a word
  // ---------------------------------------------------------------------

  lemma ModShift(a: nat, q: nat, r: nat, m: nat, b: nat)
    requires m > 0 && a == q * m + r
    ensures (r * 0x100 + b) % m == (a * 0x100 + b) % m
  {
    var x := r * 0x100 + b;
    assert x == (x / m) * m + x % m;
    assert a * 0x100 + b == q * m * 0x100 + x;
    assert q * m * 0x100 == (q * 0x100) * m;
    MulDistribute(q * 0x100 + x / m, x / m, m);
    DivModUnique(a * 0x100 + b, m, q * 0x100 + x / m, x % m);
  }

  /** What a word keeps of a number. */
  function Word(a: nat): (r: U64)
  {
    Pow2Words();
    Low(a, 64)
  }

  /** Shifting a byte in commutes with dropping what is past the word. */
  lemma LowShift(a: nat, b: nat)
    ensures ShiftIn(Word(a), b, 8) == Word(a * 0x100 + b)
  {
    Pow2Words();
    Pow2Bytes();
    assert a == (a / TWO64) * TWO64 + a % TWO64;
    ModShift(a, a / TWO64, a % TWO64, TWO64, b);
  }

  /** The next byte of `u` brings in its next eight bits. */
  lemma NextByte(u: nat, n: nat)
    requires n >= 8
    ensures Shr(u, n) * 0x100 + ShiftOut(u, n - 8, 8) == Shr(u, n - 8)
  {
    Pow2Bytes();
    Pow2Plus8(n - 8);
    DivDiv(u, Pow2(n - 8), 0x100);
  }

  /** The word after all but `n` of the bits of a field of `u` were read behind `k`. */
  function Read(k: nat, u: nat, m: nat, n: nat): (v: nat)
  {
    MulNonNegative(k, Pow2(m));
    k * Pow2(m) + Shr(u, n)
  }

  lemma ReadByte(k: nat, u: nat, m: nat, n: nat)
    requires n >= 8
    ensures ShiftIn(Word(Read(k, u, m, n)), ShiftOut(u, n - 8, 8), 8) == Word(Read(k, u, m + 8, n - 8))
  {
    hide ShiftIn, ShiftOut, Word, Shr;
    LowShift(Read(k, u, m, n), ShiftOut(u, n - 8, 8));
    NextByte(u, n);
    Pow2Plus8(m);
    MulAssociate(k, 0x100, Pow2(m));
    assert k * Pow2(m) * 0x100 == k * Pow2(m + 8);
  }

  /** Reading back the bytes that were drained of a field. */
  lemma {:induction false} ReadDrained(src: Bytes, c: Cursor, k: nat, u: U64, n: nat, w: nat)
    requires n % 8 == 0 && c.nbits + n == w && c.pos <= |src| && Drained(u, n) <= src[c.pos..]
    requires c.cur == Word(Read(k, u, c.nbits, n))
    ensures Refilled(src, c, w) == Some(Cursor(c.pos + n / 8, Word(Read(k, u, w, 0)), w))
    decreases n
  {
    hide Read, Word, ShiftOut, ShiftIn;
    if n > 0 {
      var b := ShiftOut(u, n - 8, 8);
      Pow2Bytes();
      assert Drained(u, n) == [b] + Drained(u, n - 8);
      assert src[c.pos] == src[c.pos..][0] == b;
      assert src[c.pos..][1..] == src[c.pos + 1..];
      ReadByte(k, u, c.nbits, n);
      ReadDrained(src, Cursor(c.pos + 1, ShiftIn(c.cur, b, 8), c.nbits + 8), k, u, n - 8, w);
    }
  }

  /** A field at least a word wide leaves nothing of what was there before. */
  lemma WideRead(k: nat, u: U64, w: nat)
    requires w >= 64
    ensures Word(Read(k, u, w, 0)) == u && Low(u, w) == u
    ensures forall cur: U64 :: ShiftIn(cur, u, w) == u
  {
    Pow2Words();
    Pow2Monotone(64, w);
    ModFits(u, Pow2(w));
    assert Shr(u, 0) == u;
    WideMod(k, u, w);
    forall cur: U64
      ensures ShiftIn(cur, u, w) == u
    {
      WideMod(cur, u, w);
    }
  }

  lemma WideMod(k: nat, u: U64, w: nat)
    requires w >= 64
    ensures k * Pow2(w) + u >= 0 && (k * Pow2(w) + u) % TWO64 == u
  {
    Pow2Words();
    Pow2Add(w - 64, 64);
    MulAssociate(k, Pow2(w - 64), TWO64);
    MulNonNegative(k, Pow2(w));
    DivModUnique(k * Pow2(w) + u, TWO64, k * Pow2(w - 64), u);
  }

  lemma {:induction false} DrainedLength(cur: U64, n: nat)
    ensures |Drained(cur, n)| == n / 8
    decreases n
  {
    if n >= 8 {
      DrainedLength(cur, n - 8);
    }
  }

  /** Whole bytes at least a word wide come back, wherever the run starts. */
  lemma {:induction false} WideRoundTrip(us: seq<U64>, w: nat, src: Bytes, c: Cursor, cur: U64)
    requires w >= 64 && w % 8 == 0 && c.nbits == 0 && c.pos <= |src| && src[c.pos..] == Packed(us, w, cur, 0)
    ensures Unpacked(src, |us|, w, c) == Some(us)
    decreases |us|
  {
    hide Drained, Refilled, ShiftIn, ShiftOut, Low, Word, Read;
    if us != [] {
      var u := us[0];
      WideRead(c.cur, u, w);
      DrainedLength(u, w);
      assert src[c.pos..] == Drained(u, w) + Packed(us[1..], w, u, 0);
      StartRead(c.cur, u, w);
      ReadDrained(src, c, c.cur, u, w, w);
      var d := Cursor(c.pos + w / 8, u, 0);
      assert src[d.pos..] == src[c.pos..][w / 8..] == Packed(us[1..], w, u, 0);
      WideRoundTrip(us[1..], w, src, d, u);
      ShiftOutAll(u, w);
      assert us == [u] + us[1..];
    }
  }

  lemma StartRead(k: U64, u: U64, w: nat)
    requires w >= 64
    ensures k == Word(Read(k, u, 0, w))
  {
    Pow2Words();
    Pow2Monotone(64, w);
    DivModUnique(u, Pow2(w), 0, u);
    assert Pow2(0) == 1;
  }

  // ---------------------------------------------------------------------
  // Exactly these widths
  // ---------------------------------------------------------------------

  /** The widths at which unpacking inverts packing: those where nothing is left over
      that does not fit, and whole bytes from a word on. */
  predicate Invertible(w: nat)
  {
    w <= 58 || w == 60 || (w >= 64 && w % 8 == 0)
  }

  /** A run that no byte string unpacks to: the accumulator has dropped the top bit of
      its last field by the time it is read. */
  function Unreadable(w: nat): (us: seq<U64>)
    requires !Invertible(w)
  {
    var top := if w < 64 then w else 64;
    TopFits(top);
    if w == 59 then [0, 0, Pow2(top - 1)] else if w < 64 then [0, Pow2(top - 1)] else [Pow2(top - 1)]
  }

  lemma TopFits(w: nat)
    requires 0 < w <= 64
    ensures 0 < Pow2(w - 1) < Pow2(w) <= TWO64
  {
    Pow2Words();
    Pow2Monotone(w, 64);
  }

  lemma UnreadableFits(w: nat)
    requires !Invertible(w)
    ensures Fit(Unreadable(w), w)
  {
    hide Pow2;
    var top := if w < 64 then w else 64;
    TopFits(top);
    Pow2Monotone(top, w);
    var us := Unreadable(w);
    assert forall i :: 0 <= i < |us| ==> us[i] == 0 || us[i] == Pow2(top - 1);
  }

  lemma NextLeft(src: Bytes, n: nat, w: nat, c: Cursor)
    requires n > 0 && c.pos <= |src| && c.nbits < 8 && Unpacked(src, n, w, c).Some?
    ensures var left := (c.nbits - w) % 8;
            Unpacked(src, n, w, c).value[0] < Pow2(64 - left)
            && exists d: Cursor :: d.pos <= |src| && d.nbits == left && Unpacked(src, n - 1, w, d).Some?
                                   && Unpacked(src, n, w, c).value[1..] == Unpacked(src, n - 1, w, d).value
  {
    hide ShiftOut, Refilled;
    RefilledLeft(src, c, w);
    var d := Refilled(src, c, w).value;
    ShiftOutSmall(d.cur, d.nbits - w, w);
    var e := d.(nbits := d.nbits - w);
    assert Unpacked(src, n, w, c).value == [ShiftOut(d.cur, d.nbits - w, w)] + Unpacked(src, n - 1, w, e).value;
  }

  lemma UnreadableIs(src: Bytes, w: nat)
    requires !Invertible(w)
    ensures var us := Unreadable(w); Unpacked(src, |us|, w, START) != Some(us)
  {
    hide Unpacked, Pow2;
    if w > 64 {
      UnreadableWide(src, w);
    } else {
      UnreadableNarrow(src, w);
    }
  }

  lemma UnreadableWide(src: Bytes, w: nat)
    requires w > 64 && w % 8 != 0
    ensures Unpacked(src, 1, w, START) != Some(Unreadable(w))
  {
    hide Unpacked, Pow2;
    if Unpacked(src, 1, w, START).Some? {
      NextLeft(src, 1, w, START);
      Pow2Monotone(64 - (0 - w) % 8, 63);
    }
  }

  lemma UnreadableNarrow(src: Bytes, w: nat)
    requires w in {59, 61, 62, 63}
    ensures var us := Unreadable(w); Unpacked(src, |us|, w, START) != Some(us)
  {
    hide Unpacked, Pow2;
    var us := Unreadable(w);
    var n := |us|;
    var r := Unpacked(src, n, w, START);
    if r.Some? {
      NextLeft(src, n, w, START);
      var c: Cursor :| c.pos <= |src| && c.nbits == (0 - w) % 8 && Unpacked(src, n - 1, w, c).Some?
                       && r.value[1..] == Unpacked(src, n - 1, w, c).value;
      NextLeft(src, n - 1, w, c);
      if w == 59 {
        var d: Cursor :| d.pos <= |src| && d.nbits == (c.nbits - w) % 8 && Unpacked(src, n - 2, w, d).Some?
                         && r.value[1..][1..] == Unpacked(src, n - 2, w, d).value;
        NextLeft(src, n - 2, w, d);
        assert r.value[2] == r.value[1..][1..][0] < Pow2(57);
        Pow2Monotone(57, 58);
      } else {
        assert r.value[1] == r.value[1..][0] < Pow2(64 - (c.nbits - w) % 8);
        Pow2Monotone(64 - (c.nbits - w) % 8, w - 1);
      }
    }
  }

  lemma ExactRoundTrip(us: seq<U64>, w: nat)
    requires ExactWidth(w) && Fit(us, w)
    ensures Unpacked(Packed(us, w, 0, 0), |us|, w, START) == Some(us)
  {
    hide Unpacked, Packed, Fit;
    PackedExact(us, w);
    AlreadyFit(us, w);
    UnpackRoundTrip(us, w, []);
    var bs := Pack(Fields(us, w));
    assert bs + [] == bs;
    UnpackedExact(bs, |us|, w);
  }

  /** Unpacking inverts packing for every run of fitting values if and only if the width
      is at most 58, or 60, or a multiple of eight from 64 on. */
  lemma RoundTripIff(w: nat)
    ensures (forall us: seq<U64> | Fit(us, w) :: Unpacked(Packed(us, w, 0, 0), |us|, w, START) == Some(us))
       <==> Invertible(w)
  {
    hide Unpacked, Packed, Fit, Unreadable;
    if Invertible(w) {
      forall us: seq<U64> | Fit(us, w)
        ensures Unpacked(Packed(us, w, 0, 0), |us|, w, START) == Some(us)
      {
        if ExactWidth(w) {
          ExactRoundTrip(us, w);
        } else {
          var bs := Packed(us, w, 0, 0);
          assert bs[0..] == bs;
          WideRoundTrip(us, w, bs, START, 0);
        }
      }
    } else {
      var us := Unreadable(w);
      UnreadableFits(w);
      UnreadableIs(Packed(us, w, 0, 0), w);
    }
  }

  lemma ModFits(v: nat, p: nat)
    requires v < p
    ensures v % p == v
  {
  }

  lemma AlreadyFit(us: seq<U64>, w: nat)
    requires Fit(us, w)
    ensures Truncated(us, w) == us
  {
    forall i | 0 <= i < |us|
      ensures Low(us[i], w) == us[i]
    {
      ModFits(us[i], Pow2(w));
    }
  }
}
