/**
 Unsigned machine words, their bit strings and the byte strings that carry them.

 A bit string is written most significant bit first.  `x >> k` on an unsigned
 word is `x / Pow2(k)`, `x & (1 << k) - 1` is `x % Pow2(k)`, and a 64-bit left
 shift is a multiplication reduced modulo `Pow2(64)`.
 */
module Bits {

  type Byte = b: int | 0 <= b < 256

  function Pow2(n: nat): (p: nat)
    ensures p > 0
  {
    if n == 0 then 1 else 2 * Pow2(n - 1)
  }

  /** `v >> k`. */
  function Shr(v: nat, k: nat): (r: nat)
  {
    DivNonNegative(v, Pow2(k));
    v / Pow2(k)
  }

  /** `v & (1 << k) - 1`. */
  function Low(v: nat, k: nat): (r: nat)
    ensures r < Pow2(k)
  {
    v % Pow2(k)
  }

  /** The low `n` bits of `v`, most significant first. */
  function ToBits(v: nat, n: nat): (s: seq<bool>)
    ensures |s| == n
    decreases n, v
  {
    if n == 0 then [] else ToBits(v / 2, n - 1) + [v % 2 == 1]
  }

  /** The number a bit string denotes. */
  function FromBits(s: seq<bool>): (v: nat)
  {
    if s == [] then 0
    else 2 * FromBits(s[..|s| - 1]) + (if s[|s| - 1] then 1 else 0)
  }

  function Zeros(n: nat): (s: seq<bool>)
    ensures |s| == n
    ensures forall i :: 0 <= i < n ==> !s[i]
  {
    seq(n, _ => false)
  }

  // ---------------------------------------------------------------------
  // Arithmetic
  // ---------------------------------------------------------------------

  lemma {:induction false} Pow2Add(a: nat, b: nat)
    ensures Pow2(a + b) == Pow2(a) * Pow2(b)
  {
    if b == 0 {
    } else {
      Pow2Add(a, b - 1);
      calc {
        Pow2(a + b);
        2 * Pow2(a + (b - 1));
        2 * (Pow2(a) * Pow2(b - 1));
        Pow2(a) * (2 * Pow2(b - 1));
      }
    }
  }

  lemma {:induction false} Pow2Monotone(a: nat, b: nat)
    requires a <= b
    ensures Pow2(a) <= Pow2(b)
  {
    if a < b {
      Pow2Monotone(a, b - 1);
    }
  }

  lemma Pow2Bytes()
    ensures Pow2(7) == 0x80
    ensures Pow2(8) == 0x100
  {
    assert Pow2(4) == 16;
    assert Pow2(7) == 8 * Pow2(4);
  }

  lemma Pow2Plus8(n: nat)
    ensures Pow2(n + 8) == 0x100 * Pow2(n)
  {
    Pow2Add(n, 8);
    Pow2Bytes();
  }

  lemma Pow2Words()
    ensures Pow2(16) == 0x1_0000
    ensures Pow2(32) == 0x1_0000_0000
    ensures Pow2(56) == 0x100_0000_0000_0000
    ensures Pow2(64) == 0x1_0000_0000_0000_0000
  {
    Pow2Bytes();
    Pow2Plus8(8);
    Pow2Plus8(16);
    Pow2Plus8(24);
    Pow2Plus8(32);
    Pow2Plus8(40);
    Pow2Plus8(48);
    Pow2Plus8(56);
  }

  lemma MulAtLeast(k: int, d: int)
    requires k >= 1 && d > 0
    ensures k * d >= d
  {
    assert (k - 1) * d >= 0;
  }

  lemma MulNonNegative(a: int, b: int)
    requires a >= 0 && b >= 0
    ensures a * b >= 0
  {
  }

  lemma DivNonNegative(v: int, d: int)
    requires v >= 0 && d > 0
    ensures v / d >= 0
  {
  }

  lemma MulDistribute(a: int, b: int, d: int)
    ensures a * d - b * d == (a - b) * d
  {
  }

  lemma DivModUnique(x: int, d: int, q: int, r: int)
    requires d > 0 && x == q * d + r && 0 <= r < d
    ensures x / d == q && x % d == r
  {
    var q', r' := x / d, x % d;
    MulDistribute(q, q', d);
    if q > q' {
      MulAtLeast(q - q', d);
    } else if q < q' {
      MulAtLeast(q' - q, d);
      MulDistribute(q', q, d);
    }
  }

  lemma HalfThenDivide(v: nat, p: nat)
    requires p > 0
    ensures v / 2 / p == v / (2 * p)
  {
    var q, r := v / 2 / p, v / 2 % p;
    assert v / 2 == q * p + r;
    assert v == q * (2 * p) + (2 * r + v % 2) by {
      assert v == 2 * (q * p + r) + v % 2;
    }
    DivModUnique(v, 2 * p, q, 2 * r + v % 2);
  }

  // ---------------------------------------------------------------------
  // Bit strings
  // ---------------------------------------------------------------------

  lemma Assoc<T>(a: seq<T>, b: seq<T>, c: seq<T>)
    ensures (a + b) + c == a + (b + c)
  {
  }

  lemma {:induction false} FromToBits(v: nat, n: nat)
    requires v < Pow2(n)
    ensures FromBits(ToBits(v, n)) == v
    decreases n
  {
    if n > 0 {
      FromToBits(v / 2, n - 1);
      var s := ToBits(v, n);
      assert s[..|s| - 1] == ToBits(v / 2, n - 1);
    }
  }

  lemma {:induction false} FromBitsBound(s: seq<bool>)
    ensures FromBits(s) < Pow2(|s|)
  {
    if s != [] {
      FromBitsBound(s[..|s| - 1]);
    }
  }

  lemma {:induction false} ToFromBits(s: seq<bool>)
    ensures ToBits(FromBits(s), |s|) == s
  {
    if s != [] {
      ToFromBits(s[..|s| - 1]);
      assert FromBits(s) / 2 == FromBits(s[..|s| - 1]);
    }
  }

  /** The bits above position `n` do not show in the low `n` bits. */
  lemma {:induction false} ToBitsAddMultiple(v: nat, k: nat, n: nat)
    ensures ToBits(v + k * Pow2(n), n) == ToBits(v, n)
    decreases n
  {
    if n > 0 {
      var p := k * Pow2(n - 1);
      assert k * Pow2(n) == 2 * p;
      assert (v + 2 * p) / 2 == v / 2 + p;
      assert (v + 2 * p) % 2 == v % 2;
      ToBitsAddMultiple(v / 2, k, n - 1);
    }
  }

  lemma MulAssociate(a: int, b: int, c: int)
    ensures a * (b * c) == a * b * c
  {
  }

  lemma ToBitsModStep(v: nat, q: nat, r: nat, n: nat, m: nat)
    requires n <= m && v == r + q * Pow2(m)
    ensures ToBits(r, n) == ToBits(v, n)
  {
    Pow2Add(m - n, n);
    MulAssociate(q, Pow2(m - n), Pow2(n));
    MulNonNegative(q, Pow2(m - n));
    ToBitsAddMultiple(r, q * Pow2(m - n), n);
  }

  /** Reduction modulo `Pow2(m)` keeps the low `n <= m` bits. */
  lemma ToBitsLow(v: nat, n: nat, m: nat)
    requires n <= m
    ensures ToBits(Low(v, m), n) == ToBits(v, n)
  {
    ToBitsModStep(v, Shr(v, m), Low(v, m), n, m);
  }

  /** Splitting a field: the high part is what the right shift leaves. */
  lemma {:induction false} ToBitsSplit(v: nat, a: nat, b: nat)
    ensures ToBits(v, a + b) == ToBits(Shr(v, b), a) + ToBits(v, b)
    decreases b
  {
    if b == 0 {
    } else {
      ToBitsSplit(v / 2, a, b - 1);
      HalfThenDivide(v, Pow2(b - 1));
      assert Shr(v / 2, b - 1) == Shr(v, b);
      var bit := [v % 2 == 1];
      calc {
        ToBits(v, a + b);
        ToBits(v / 2, a + (b - 1)) + bit;
        (ToBits(Shr(v, b), a) + ToBits(v / 2, b - 1)) + bit;
        ToBits(Shr(v, b), a) + (ToBits(v / 2, b - 1) + bit);
      }
    }
  }

  /** Joining two fields: shift the first left and or in the second. */
  lemma ToBitsJoin(x: nat, y: nat, a: nat, b: nat)
    requires y < Pow2(b)
    ensures ToBits(x * Pow2(b) + y, a + b) == ToBits(x, a) + ToBits(y, b)
  {
    var v := x * Pow2(b) + y;
    ToBitsSplit(v, a, b);
    DivModUnique(v, Pow2(b), x, y);
    ToBitsAddMultiple(y, x, b);
  }

  lemma {:induction false} FromBitsConcat(s: seq<bool>, t: seq<bool>)
    ensures FromBits(s + t) == FromBits(s) * Pow2(|t|) + FromBits(t)
  {
    if t == [] {
      assert s + t == s;
    } else {
      var t' := t[..|t| - 1];
      assert (s + t)[..|s + t| - 1] == s + t';
      FromBitsConcat(s, t');
      assert FromBits(s) * Pow2(|t|) == 2 * (FromBits(s) * Pow2(|t'|));
    }
  }

  lemma {:induction false} ToBitsZero(n: nat)
    ensures ToBits(0, n) == Zeros(n)
  {
    if n > 0 {
      ToBitsZero(n - 1);
    }
  }

  // ---------------------------------------------------------------------
  // Bytes
  // ---------------------------------------------------------------------

  /** The bits of a byte string, eight per byte. */
  function BytesToBits(bs: seq<Byte>): (s: seq<bool>)
    ensures |s| == 8 * |bs|
  {
    if bs == [] then [] else BytesToBits(bs[..|bs| - 1]) + ToBits(bs[|bs| - 1], 8)
  }

  /** The bytes a bit string of whole bytes denotes. */
  function BitsToBytes(s: seq<bool>): (bs: seq<Byte>)
    requires |s| % 8 == 0
    ensures 8 * |bs| == |s|
    decreases |s|
  {
    if s == [] then []
    else
      var n := |s| - 8;
      FromBitsBound(s[n..]); Pow2Bytes();
      BitsToBytes(s[..n]) + [FromBits(s[n..])]
  }

  function PadLength(n: nat): (k: nat)
    ensures k < 8 && (n + k) % 8 == 0
  {
    (8 - n % 8) % 8
  }

  lemma PadLengthUnique(n: nat, k: nat, m: nat)
    requires n + k == 8 * m && k < 8
    ensures PadLength(n) == k
  {
    var j := PadLength(n);
    assert (n + j) % 8 == 0 && (n + k) % 8 == 0;
    assert n + j == 8 * ((n + j) / 8);
    assert j - k == 8 * ((n + j) / 8 - m);
  }

  /** Zero-pads a bit string to whole bytes and packs it. */
  function Pack(s: seq<bool>): (bs: seq<Byte>)
    ensures |bs| == (|s| + 7) / 8
  {
    BitsToBytes(s + Zeros(PadLength(|s|)))
  }

  lemma {:induction false} BytesToBitsConcat(a: seq<Byte>, b: seq<Byte>)
    ensures BytesToBits(a + b) == BytesToBits(a) + BytesToBits(b)
  {
    if b == [] {
      assert a + b == a;
    } else {
      var b' := b[..|b| - 1];
      assert (a + b)[..|a + b| - 1] == a + b';
      BytesToBitsConcat(a, b');
    }
  }

  lemma BytesToBitsSnoc(bs: seq<Byte>, b: Byte)
    ensures BytesToBits(bs + [b]) == BytesToBits(bs) + ToBits(b, 8)
  {
    assert (bs + [b])[..|bs|] == bs;
  }

  lemma {:induction false} BitsBytesBits(s: seq<bool>)
    requires |s| % 8 == 0
    ensures BytesToBits(BitsToBytes(s)) == s
    decreases |s|
  {
    if s != [] {
      var n := |s| - 8;
      assert s == s[..n] + s[n..];
      BitsBytesBits(s[..n]);
      FromBitsBound(s[n..]);
      Pow2Bytes();
      BytesToBitsSnoc(BitsToBytes(s[..n]), FromBits(s[n..]));
      ToFromBits(s[n..]);
    }
  }

  /** Packing loses nothing but the position of the end: what comes back is the
      bit string followed by fewer than eight zero bits. */
  lemma PackBits(s: seq<bool>)
    ensures BytesToBits(Pack(s)) == s + Zeros(PadLength(|s|))
  {
    BitsBytesBits(s + Zeros(PadLength(|s|)));
  }

  /** A byte string is the only one with its bits. */
  lemma {:induction false} BytesFromTheirBits(bs: seq<Byte>)
    ensures BitsToBytes(BytesToBits(bs)) == bs
  {
    if bs != [] {
      var n := |bs| - 1;
      assert bs == bs[..n] + [bs[n]];
      var s := BytesToBits(bs);
      BytesFromTheirBits(bs[..n]);
      assert s[..|s| - 8] == BytesToBits(bs[..n]);
      assert s[|s| - 8..] == ToBits(bs[n], 8);
      Pow2Bytes();
      FromToBits(bs[n], 8);
    }
  }

  lemma WholeBytes(body: seq<Byte>, bits: seq<bool>, k: nat)
    requires 8 * |body| == |bits| + k && k < 8
    requires BytesToBits(body) == bits + Zeros(k)
    ensures body == Pack(bits)
  {
    PadLengthUnique(|bits|, k, |body|);
    BytesFromTheirBits(body);
  }
}
