/**
 The bit writer and bit reader of the GORILLA1 codec.  The writer packs one bit
 at a time into a partial byte; the reader indexes bytes and shifts.  Both are
 specified by the bit string they have written or have left to read.
 */
module GorillaBits {
  import opened Bits
  import opened Common
  import opened Wire

  lemma {:induction false} SetBit(v: nat, n: nat, k: nat)
    requires k < n && !ToBits(v, n)[k]
    ensures ToBits(v + Pow2(n - 1 - k), n) == ToBits(v, n)[k := true]
    decreases n
  {
    if k == n - 1 {
      assert (v + 1) / 2 == v / 2;
    } else {
      var p := Pow2(n - 2 - k);
      assert Pow2(n - 1 - k) == 2 * p;
      assert (v + 2 * p) / 2 == v / 2 + p && (v + 2 * p) % 2 == v % 2;
      SetBit(v / 2, n - 1, k);
    }
  }

  lemma {:induction false} ClearBelow(v: nat, n: nat, k: nat)
    requires k < n && v < Pow2(n) && !ToBits(v, n)[k]
    ensures v + Pow2(n - 1 - k) < Pow2(n)
    decreases n
  {
    if k == n - 1 {
      assert v % 2 == 0 && Pow2(n) % 2 == 0;
    } else {
      ClearBelow(v / 2, n - 1, k);
    }
  }

  /** The bit that `(v >> i) & 1` selects. */
  lemma {:induction false} BitAt(v: nat, n: nat, i: nat)
    requires i < n
    ensures ToBits(v, n)[n - 1 - i] <==> Shr(v, i) % 2 == 1
    decreases i
  {
    if i == 0 {
      assert Shr(v, 0) == v / 1;
    } else {
      BitAt(v / 2, n - 1, i - 1);
      HalfThenDivide(v, Pow2(i - 1));
    }
  }

  lemma {:induction false} BytesToBitsIndex(bs: Bytes, k: nat)
    requires k < 8 * |bs|
    ensures BytesToBits(bs)[k] == ToBits(bs[k / 8], 8)[k % 8]
  {
    var n := |bs| - 1;
    if k < 8 * n {
      BytesToBitsIndex(bs[..n], k);
    }
  }

  class BitWriter {
    var buf: Bytes
    var curByte: Byte
    var nbits: nat

    ghost predicate Valid()
      reads this
    {
      && nbits < 8
      && forall i :: nbits <= i < 8 ==> !ToBits(curByte, 8)[i]
    }

    /** Everything written so far. */
    ghost function Written(): (s: seq<bool>)
      reads this
      requires Valid()
    {
      BytesToBits(buf) + ToBits(curByte, 8)[..nbits]
    }

    constructor ()
      ensures Valid() && Written() == []
    {
      buf, curByte, nbits := [], 0, 0;
      ToBitsZero(8);
    }

    method WriteBit(bit: bool)
      requires Valid()
      modifies this
      ensures Valid() && Written() == old(Written()) + [bit]
    {
      ghost var c := curByte;
      ghost var k := nbits;
      if bit {
        Pow2Bytes();
        ClearBelow(curByte, 8, nbits);
        SetBit(curByte, 8, nbits);
        curByte := curByte + Pow2(7 - nbits);
      }
      assert ToBits(curByte, 8) == ToBits(c, 8)[k := bit];
      nbits := nbits + 1;
      assert ToBits(curByte, 8)[..nbits] == ToBits(c, 8)[..k] + [bit];
      if nbits == 8 {
        BytesToBitsSnoc(buf, curByte);
        assert ToBits(curByte, 8)[..8] == ToBits(curByte, 8);
        buf, curByte, nbits := buf + [curByte], 0, 0;
        ToBitsZero(8);
      }
    }

    method WriteBits(v: nat, n: nat)
      requires Valid()
      modifies this
      ensures Valid() && Written() == old(Written()) + ToBits(v, n)
    {
      ghost var start := Written();
      var i := n;
      while i > 0
        invariant Valid() && 0 <= i <= n
        invariant Written() == start + ToBits(v, n)[..n - i]
      {
        i := i - 1;
        BitAt(v, n, i);
        Assoc(start, ToBits(v, n)[..n - i - 1], [ToBits(v, n)[n - 1 - i]]);
        assert ToBits(v, n)[..n - i] == ToBits(v, n)[..n - i - 1] + [ToBits(v, n)[n - 1 - i]];
        WriteBit(Shr(v, i) % 2 == 1);
      }
      assert ToBits(v, n)[..n] == ToBits(v, n);
    }

    /** Flushes the partial byte with trailing zero bits. */
    method Finish() returns (bs: Bytes)
      requires Valid()
      ensures bs == Pack(Written())
    {
      var w := ToBits(curByte, 8);
      ghost var k := if nbits == 0 then 0 else 8 - nbits;
      bs := if nbits != 0 then buf + [curByte] else buf;
      BytesToBitsSnoc(buf, curByte);
      if nbits != 0 {
        assert w == w[..nbits] + Zeros(k);
        Assoc(BytesToBits(buf), w[..nbits], Zeros(k));
      }
      WholeBytes(bs, Written(), k);
    }
  }

  /** Reads `n` bits as a number. */
  function GetBits(s: seq<bool>, n: nat): (r: Option<(nat, seq<bool>)>)
  {
    if n > |s| then None else Some((FromBits(s[..n]), s[n..]))
  }

  lemma GetBitsRoundTrip(v: nat, n: nat, rest: seq<bool>)
    requires v < Pow2(n)
    ensures GetBits(ToBits(v, n) + rest, n) == Some((v, rest))
  {
    var s := ToBits(v, n) + rest;
    assert s[..n] == ToBits(v, n) && s[n..] == rest;
    FromToBits(v, n);
  }

  class BitReader {
    const bytes: Bytes
    const bitLen: nat
    var off: nat

    ghost predicate Valid()
      reads this
    {
      off <= bitLen <= 8 * |bytes|
    }

    ghost function Rest(): (s: seq<bool>)
      reads this
      requires Valid()
    {
      BytesToBits(bytes)[off..bitLen]
    }

    constructor (bytes: Bytes, bitLen: nat)
      requires bitLen <= 8 * |bytes|
      ensures Valid() && Rest() == BytesToBits(bytes)[..bitLen]
    {
      this.bytes, this.bitLen, off := bytes, bitLen, 0;
    }

    method ReadBit() returns (r: Option<bool>)
      requires Valid()
      modifies this
      ensures Valid()
      ensures r.Some? <==> old(Rest()) != []
      ensures r.Some? ==> old(Rest())[0] == r.value && Rest() == old(Rest())[1..]
      ensures r.None? ==> off == old(off)
    {
      if off >= bitLen {
        return None;
      }
      var byteIdx, bitIdx := off / 8, off % 8;
      BytesToBitsIndex(bytes, off);
      BitAt(bytes[byteIdx], 8, 7 - bitIdx);
      r := Some(Shr(bytes[byteIdx], 7 - bitIdx) % 2 == 1);
      off := off + 1;
    }

    method ReadBits(n: nat) returns (r: Option<nat>)
      requires Valid()
      modifies this
      ensures Valid()
      ensures if GetBits(old(Rest()), n).None? then r.None?
              else r == Some(GetBits(old(Rest()), n).value.0) && Rest() == GetBits(old(Rest()), n).value.1
    {
      ghost var s := Rest();
      var v := 0;
      for i := 0 to n
        invariant Valid() && i <= |s|
        invariant v == FromBits(s[..i]) && Rest() == s[i..]
      {
        var bit := ReadBit();
        if bit.None? {
          return None;
        }
        assert s[..i + 1][..i] == s[..i];
        v := 2 * v + (if bit.value then 1 else 0);
      }
      r := Some(v);
    }
  }
}
