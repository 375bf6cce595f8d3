/**
 Integers on the wire: two's complement wrap-around, zigzag, base-128 varints
 and fixed-width little- and big-endian fields, with the reader that walks them.

 Every `Get` function parses a field off the front of a byte string and returns
 what is left, so a round trip is stated with arbitrary bytes behind the field.
 */
module Wire {
  import opened Bits
  import opened Common

  const TWO63: int := 0x8000_0000_0000_0000
  const TWO64: int := 0x1_0000_0000_0000_0000

  type Int64 = x: int | -TWO63 <= x < TWO63
  type U64 = x: int | 0 <= x < TWO64
  type Bytes = seq<Byte>

  /** Two's complement wrap-around of an exact result. */
  function Wrap(x: int): (r: Int64)
  {
    (x + TWO63) % TWO64 - TWO63
  }

  function Sub(a: Int64, b: Int64): (r: Int64) { Wrap(a - b) }

  function Add(a: Int64, b: Int64): (r: Int64) { Wrap(a + b) }

  /** Modular addition undoes modular subtraction, whatever overflowed. */
  lemma AddUndoesSub(a: Int64, b: Int64)
    ensures Add(b, Sub(a, b)) == a
    ensures Add(Sub(a, b), b) == a
  {
    var d := a - b;
    assert Sub(a, b) == d || Sub(a, b) == d + TWO64 || Sub(a, b) == d - TWO64;
  }

  function ToU64(v: Int64): (u: U64) { if v < 0 then v + TWO64 else v }

  function ToInt64(u: U64): (v: Int64) { if u < TWO63 then u else u - TWO64 }

  /** `uint64((v << 1) ^ (v >> 63))`. */
  function Zigzag(v: Int64): (u: U64) { if v >= 0 then 2 * v else -2 * v - 1 }

  /** Small magnitudes stay small, and the lowest bit is the sign. */
  lemma ZigzagIs(v: Int64)
    ensures Zigzag(v) / 2 == (if v >= 0 then v else -(v + 1)) && (Zigzag(v) % 2 == 1 <==> v < 0)
    ensures Unzigzag(Zigzag(v)) == v
  {
  }

  /** `int64(u >> 1) ^ -int64(u & 1)`. */
  function Unzigzag(u: U64): (v: Int64) { if u % 2 == 0 then u / 2 else -(u / 2) - 1 }

  // ---------------------------------------------------------------------
  // Base-128 varints
  // ---------------------------------------------------------------------

  const MAX_VARINT_LEN: nat := 10

  function Uvarint(v: nat): (bs: Bytes)
    ensures bs != []
  {
    if v < 0x80 then [v] else [v % 0x80 + 0x80] + Uvarint(v / 0x80)
  }

  /** One more than the largest value that still fits at byte `i`. */
  function UvarintRoom(i: nat): (m: nat)
    requires i < MAX_VARINT_LEN
    decreases MAX_VARINT_LEN - i
  {
    if i == MAX_VARINT_LEN - 1 then 2 else 0x80 * UvarintRoom(i + 1)
  }

  /** `binary.Uvarint` from byte `i` on: at most ten bytes, the tenth at most 1. */
  function GetUvarintFrom(s: Bytes, i: nat): (r: Option<(nat, Bytes)>)
    ensures r.Some? ==> i < MAX_VARINT_LEN && r.value.0 < UvarintRoom(i)
    decreases |s|
  {
    if s == [] || i >= MAX_VARINT_LEN then None
    else if s[0] < 0x80 then
      RoomForOneByte(i);
      if i == MAX_VARINT_LEN - 1 && s[0] > 1 then None else Some((s[0], s[1..]))
    else
      var (v, rest) :- GetUvarintFrom(s[1..], i + 1);
      Some((s[0] - 0x80 + 0x80 * v, rest))
  }

  lemma {:induction false} RoomForOneByte(i: nat)
    requires i < MAX_VARINT_LEN
    ensures i < MAX_VARINT_LEN - 1 ==> UvarintRoom(i) >= 0x80
    ensures UvarintRoom(i) >= 2
    decreases MAX_VARINT_LEN - i
  {
    if i < MAX_VARINT_LEN - 1 {
      RoomForOneByte(i + 1);
    }
  }

  function GetUvarint(s: Bytes): (r: Option<(nat, Bytes)>)
    ensures r.Some? ==> r.value.0 < TWO64
  {
    RoomAtStart();
    GetUvarintFrom(s, 0)
  }

  lemma RoomAtStart()
    ensures UvarintRoom(0) == TWO64
  {
    assert UvarintRoom(7) == 0x80 * UvarintRoom(8);
    assert UvarintRoom(5) == 0x80 * UvarintRoom(6);
    assert UvarintRoom(3) == 0x80 * UvarintRoom(4);
    assert UvarintRoom(1) == 0x80 * UvarintRoom(2);
  }

  lemma {:induction false} UvarintFromRoundTrip(v: nat, rest: Bytes, i: nat)
    requires i < MAX_VARINT_LEN && v < UvarintRoom(i)
    ensures GetUvarintFrom(Uvarint(v) + rest, i) == Some((v, rest))
    decreases v
  {
    var s := Uvarint(v) + rest;
    if v < 0x80 {
      assert s[1..] == rest;
    } else {
      assert s[1..] == Uvarint(v / 0x80) + rest;
      UvarintFromRoundTrip(v / 0x80, rest, i + 1);
    }
  }

  lemma {:induction false} UvarintSuffix(s: Bytes, i: nat)
    requires GetUvarintFrom(s, i).Some?
    ensures var rest := GetUvarintFrom(s, i).value.1; |rest| < |s| && rest == s[|s| - |rest|..]
    decreases |s|
  {
    if s[0] >= 0x80 {
      UvarintSuffix(s[1..], i + 1);
    }
  }

  lemma {:induction false} UvarintLength(v: nat, k: nat)
    requires k >= 1 && v < Pow2(7 * k)
    ensures |Uvarint(v)| <= k
    decreases k
  {
    Pow2Bytes();
    if v >= 0x80 {
      Pow2Add(7, 7 * (k - 1));
      assert v / 0x80 < Pow2(7 * (k - 1));
      UvarintLength(v / 0x80, k - 1);
    }
  }

  /** A 64-bit value takes at most ten bytes. */
  lemma UvarintShort(v: nat)
    requires v < TWO64
    ensures 1 <= |Uvarint(v)| <= MAX_VARINT_LEN
  {
    Pow2Words();
    Pow2Monotone(64, 70);
    UvarintLength(v, 10);
  }

  lemma UvarintRoundTrip(v: nat, rest: Bytes)
    requires v < TWO64
    ensures GetUvarint(Uvarint(v) + rest) == Some((v, rest))
  {
    RoomAtStart();
    UvarintFromRoundTrip(v, rest, 0);
  }

  function Varint(v: Int64): (bs: Bytes) { Uvarint(Zigzag(v)) }

  function GetVarint(s: Bytes): (r: Option<(Int64, Bytes)>)
  {
    var (u, rest) :- GetUvarint(s);
    Some((Unzigzag(u), rest))
  }

  lemma VarintRoundTrip(v: Int64, rest: Bytes)
    ensures GetVarint(Varint(v) + rest) == Some((v, rest))
  {
    UvarintRoundTrip(Zigzag(v), rest);
  }

  // ---------------------------------------------------------------------
  // Fixed-width fields
  // ---------------------------------------------------------------------

  function Take(s: Bytes, n: nat): (r: Option<(Bytes, Bytes)>)
  {
    if n > |s| then None else Some((s[..n], s[n..]))
  }

  lemma TakeRoundTrip(a: Bytes, rest: Bytes)
    ensures Take(a + rest, |a|) == Some((a, rest))
  {
  }

  /** The low `n` bytes of `v`, least significant first. */
  function LittleEndian(v: nat, n: nat): (bs: Bytes)
    ensures |bs| == n
    decreases n, v
  {
    if n == 0 then [] else [v % 0x100] + LittleEndian(v / 0x100, n - 1)
  }

  /** Byte `i` holds bits `8 * i` and up. */
  lemma {:induction false} LittleEndianAt(v: nat, n: nat, i: nat)
    requires i < n
    ensures LittleEndian(v, n)[i] == v / Pow2(8 * i) % 0x100
    decreases n
  {
    if i > 0 {
      LittleEndianAt(v / 0x100, n - 1, i - 1);
      Pow2Plus8(8 * (i - 1));
      DivDiv(v, 0x100, Pow2(8 * (i - 1)));
    } else {
      assert Pow2(0) == 1;
    }
  }

  lemma DivDiv(v: nat, a: nat, b: nat)
    requires a > 0 && b > 0
    ensures a * b > 0 && v / a / b == v / (a * b)
  {
    var q, r := v / a, v % a;
    var h, l := q / b, q % b;
    MulAtLeast(a, b);
    Regroup(h, b, l, a);
    MulLess(l, b, a, r);
    DivModUnique(v, a * b, h, l * a + r);
  }

  lemma Regroup(h: nat, b: nat, l: nat, a: nat)
    ensures (h * b + l) * a == h * (a * b) + l * a
  {
    MulDistribute(h * b + l, l, a);
    MulAssociate(h, b, a);
  }

  lemma MulLess(l: nat, k: nat, p: nat, r: nat)
    requires l < k && r < p
    ensures 0 <= l * p + r < k * p
  {
    MulDistribute(k, l, p);
    MulAtLeast(k - l, p);
    MulNonNegative(l, p);
  }

  function FromLittleEndian(bs: Bytes): (v: nat)
  {
    if bs == [] then 0 else bs[0] + 0x100 * FromLittleEndian(bs[1..])
  }

  lemma {:induction false} LittleEndianRoundTrip(v: nat, n: nat)
    requires v < Pow2(8 * n)
    ensures FromLittleEndian(LittleEndian(v, n)) == v
    decreases n
  {
    if n > 0 {
      Pow2Plus8(8 * (n - 1));
      LittleEndianRoundTrip(v / 0x100, n - 1);
      assert LittleEndian(v, n)[1..] == LittleEndian(v / 0x100, n - 1);
    }
  }

  lemma {:induction false} FromLittleEndianBound(bs: Bytes)
    ensures FromLittleEndian(bs) < Pow2(8 * |bs|)
  {
    if bs != [] {
      FromLittleEndianBound(bs[1..]);
      Pow2Plus8(8 * (|bs| - 1));
    }
  }

  function GetLittleEndian(s: Bytes, n: nat): (r: Option<(nat, Bytes)>)
    ensures r.Some? ==> |r.value.1| == |s| - n
  {
    var (a, rest) :- Take(s, n);
    Some((FromLittleEndian(a), rest))
  }

  lemma GetLittleEndianRoundTrip(v: nat, n: nat, rest: Bytes)
    requires v < Pow2(8 * n)
    ensures GetLittleEndian(LittleEndian(v, n) + rest, n) == Some((v, rest))
  {
    TakeRoundTrip(LittleEndian(v, n), rest);
    LittleEndianRoundTrip(v, n);
  }

  /** A 64-bit field always holds a 64-bit word. */
  function GetU64(s: Bytes): (r: Option<(U64, Bytes)>)
    ensures r.Some? ==> |r.value.1| == |s| - 8
  {
    var (a, rest) :- Take(s, 8);
    FromLittleEndianBound(a); Pow2Words();
    Some((FromLittleEndian(a), rest))
  }

  function GetInt64(s: Bytes): (r: Option<(Int64, Bytes)>)
  {
    var (u, rest) :- GetU64(s);
    Some((ToInt64(u), rest))
  }

  lemma U64RoundTrip(v: U64, rest: Bytes)
    ensures GetU64(LittleEndian(v, 8) + rest) == Some((v, rest))
  {
    Pow2Words();
    TakeRoundTrip(LittleEndian(v, 8), rest);
    LittleEndianRoundTrip(v, 8);
  }

  lemma Int64RoundTrip(v: Int64, rest: Bytes)
    ensures GetInt64(LittleEndian(ToU64(v), 8) + rest) == Some((v, rest))
  {
    U64RoundTrip(ToU64(v), rest);
  }

  /** The low `n` bytes of `v`, most significant first. */
  function BigEndian(v: nat, n: nat): (bs: Bytes)
    ensures |bs| == n
    decreases n, v
  {
    if n == 0 then [] else BigEndian(v / 0x100, n - 1) + [v % 0x100]
  }

  /** The same from the other end. */
  lemma {:induction false} BigEndianAt(v: nat, n: nat, i: nat)
    requires i < n
    ensures BigEndian(v, n)[n - 1 - i] == v / Pow2(8 * i) % 0x100
    decreases n
  {
    if i > 0 {
      BigEndianAt(v / 0x100, n - 1, i - 1);
      Pow2Plus8(8 * (i - 1));
      DivDiv(v, 0x100, Pow2(8 * (i - 1)));
    } else {
      assert Pow2(0) == 1;
    }
  }

  lemma {:induction false} BigEndianInjective(v: nat, w: nat, n: nat)
    requires v < Pow2(8 * n) && w < Pow2(8 * n)
    requires BigEndian(v, n) == BigEndian(w, n)
    ensures v == w
    decreases n
  {
    if n > 0 {
      Pow2Plus8(8 * (n - 1));
      var a, b := BigEndian(v, n), BigEndian(w, n);
      assert a[..n - 1] == BigEndian(v / 0x100, n - 1) && a[n - 1] == v % 0x100;
      assert b[..n - 1] == BigEndian(w / 0x100, n - 1) && b[n - 1] == w % 0x100;
      BigEndianInjective(v / 0x100, w / 0x100, n - 1);
    }
  }

  // ---------------------------------------------------------------------
  // The cursor both decoders read through
  // ---------------------------------------------------------------------

  /** A read that returned `out` and left `rest` did what the parse `p` says. */
  predicate Reads<T(==)>(p: Option<(T, Bytes)>, out: Option<T>, rest: Bytes)
  {
    if p.None? then out.None? else out.Some? && p.value.0 == out.value && p.value.1 == rest
  }

  class Reader {
    const buf: Bytes
    var pos: nat

    ghost predicate Valid()
      reads this
    {
      pos <= |buf|
    }

    function Rest(): (s: Bytes)
      reads this
      requires Valid()
    {
      buf[pos..]
    }

    constructor (b: Bytes)
      ensures Valid() && buf == b && pos == 0 && Rest() == b
    {
      buf := b;
      pos := 0;
    }

    constructor At(b: Bytes, p: nat)
      requires p <= |b|
      ensures Valid() && buf == b && pos == p && Rest() == b[p..]
    {
      buf := b;
      pos := p;
    }

    /** Moves the cursor over the bytes a parse consumed. */
    method Advance(rest: Bytes)
      requires Valid()
      requires |rest| <= |Rest()| && rest == Rest()[|Rest()| - |rest|..]
      modifies this
      ensures Valid() && Rest() == rest && pos >= old(pos)
    {
      pos := |buf| - |rest|;
    }

    method ReadByte() returns (r: Option<Byte>)
      requires Valid()
      modifies this
      ensures Valid()
      ensures r.Some? <==> old(Rest()) != []
      ensures r.Some? ==> r.value == old(Rest())[0] && Rest() == old(Rest())[1..]
      ensures r.None? ==> pos == old(pos)
    {
      if pos >= |buf| {
        return None;
      }
      r := Some(buf[pos]);
      Advance(buf[pos + 1..]);
    }

    method ReadUvarint() returns (r: Option<nat>)
      requires Valid()
      modifies this
      ensures Valid()
      ensures Reads(GetUvarint(old(Rest())), r, Rest())
    {
      var p := GetUvarint(Rest());
      if p.None? {
        return None;
      }
      UvarintSuffix(Rest(), 0);
      r := Some(p.value.0);
      Advance(p.value.1);
    }

    method ReadVarint() returns (r: Option<Int64>)
      requires Valid()
      modifies this
      ensures Valid()
      ensures Reads(GetVarint(old(Rest())), r, Rest())
    {
      var u := ReadUvarint();
      r := if u.None? then None else Some(Unzigzag(u.value));
    }

    /** A length the check of the source lets through although the bytes are not there
        (see `TakePassesIff`) is refused here. */
    method ReadTake(n: nat) returns (r: Option<Bytes>)
      requires Valid()
      modifies this
      ensures Valid()
      ensures Reads(Take(old(Rest()), n), r, Rest())
    {
      if pos + n > |buf| {
        return None;
      }
      r := Some(buf[pos..pos + n]);
      assert Rest()[..n] == buf[pos..pos + n];
      Advance(buf[pos + n..]);
    }

    method ReadLittleEndian(n: nat) returns (r: Option<nat>)
      requires Valid()
      modifies this
      ensures Valid()
      ensures Reads(GetLittleEndian(old(Rest()), n), r, Rest())
    {
      var b := ReadTake(n);
      r := if b.None? then None else Some(FromLittleEndian(b.value));
    }

    method ReadU64() returns (r: Option<U64>)
      requires Valid()
      modifies this
      ensures Valid()
      ensures Reads(GetU64(old(Rest())), r, Rest())
    {
      var b := ReadTake(8);
      if b.None? {
        return None;
      }
      FromLittleEndianBound(b.value);
      Pow2Words();
      r := Some(FromLittleEndian(b.value));
    }

    method ReadInt64() returns (r: Option<Int64>)
      requires Valid()
      modifies this
      ensures Valid()
      ensures Reads(GetInt64(old(Rest())), r, Rest())
    {
      var u := ReadU64();
      r := if u.None? then None else Some(ToInt64(u.value));
    }
  }

  /** The bound check of `take` in 64-bit arithmetic: the length is read as an int and
      added to the position. */
  predicate TakePasses(pos: nat, n: U64, size: nat)
    requires pos < TWO63
  {
    ToInt64(n) >= 0 && Add(pos, ToInt64(n)) <= size
  }

  /** It is right about every length but those just below 2^63, whose sum wraps. */
  lemma TakePassesIff(pos: nat, n: U64, size: nat)
    requires pos <= size < TWO63
    ensures TakePasses(pos, n, size) <==> pos + n <= size || n < TWO63 <= pos + n
  {
    var sum := pos + ToInt64(n);
    assert Wrap(sum) == if sum < TWO63 then sum else sum - TWO64;
  }
}
