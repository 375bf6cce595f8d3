/**
 GORILLA1 values: XOR with the previous 64-bit pattern, stored in a window of
 significant bits that is reused while it still covers them.

 A 64-bit pattern is the string of its bits, so a shift is a slice.  The encoder
 writes the leading-zero count clamped to 31 but remembers the unclamped count;
 the decoder knows only the clamped one.  Decoding therefore inverts encoding
 exactly when no window is opened with more than 31 leading zeros.
 */
module GorillaValues {
  import opened Bits
  import opened Common
  import opened GorillaBits

  type Word = w: seq<bool> | |w| == 64 witness Zeros(64)

  function XorWords(a: Word, b: Word): (x: Word)
    ensures forall i :: 0 <= i < 64 ==> x[i] == (a[i] != b[i])
  {
    seq(64, i requires 0 <= i < 64 => a[i] != b[i])
  }

  /** `x >> k` and `x << k` on a 64-bit word. */
  function ShrWord(x: Word, k: nat): (y: Word)
    requires k <= 64
  {
    Zeros(k) + x[..64 - k]
  }

  function ShlWord(x: Word, k: nat): (y: Word)
    requires k <= 64
  {
    x[k..] + Zeros(k)
  }

  function CountLeading(s: seq<bool>): (n: nat)
    ensures n <= |s|
  {
    if s == [] || s[0] then 0 else 1 + CountLeading(s[1..])
  }

  function CountTrailing(s: seq<bool>): (n: nat)
    ensures n <= |s|
  {
    if s == [] || s[|s| - 1] then 0 else 1 + CountTrailing(s[..|s| - 1])
  }

  lemma {:induction false} LeadingZeros(s: seq<bool>)
    ensures forall i :: 0 <= i < CountLeading(s) ==> !s[i]
    ensures CountLeading(s) < |s| ==> s[CountLeading(s)]
  {
    if s != [] && !s[0] {
      LeadingZeros(s[1..]);
      var t := s[1..];
      assert forall i :: 1 <= i < |s| ==> s[i] == t[i - 1];
    }
  }

  lemma {:induction false} TrailingZeros(s: seq<bool>)
    ensures forall i :: |s| - CountTrailing(s) <= i < |s| ==> !s[i]
    ensures CountTrailing(s) < |s| ==> s[|s| - 1 - CountTrailing(s)]
  {
    if s != [] && !s[|s| - 1] {
      TrailingZeros(s[..|s| - 1]);
    }
  }

  datatype Window = Window(lz: nat, tz: nat)

  /** What encoder and decoder carry from one value to the next. */
  datatype State = State(prev: Word, window: Option<Window>)

  predicate InBounds(st: State)
  {
    st.window.Some? ==> st.window.value.lz + st.window.value.tz < 64
  }

  const MAX_STORED_LEADING: nat := 31

  predicate Reuses(st: State, x: Word)
  {
    && st.window.Some?
    && CountLeading(x) >= st.window.value.lz
    && CountTrailing(x) >= st.window.value.tz
  }

  predicate IsZero(x: Word)
  {
    CountLeading(x) == 64
  }

  // ---------------------------------------------------------------------
  // One value
  // ---------------------------------------------------------------------

  lemma Extent(x: Word)
    requires !IsZero(x)
    ensures CountLeading(x) + CountTrailing(x) < 64
  {
    LeadingZeros(x);
    TrailingZeros(x);
    assert x[CountLeading(x)];
  }

  /** The bits of `x` between `lz` leading and `tz` trailing ones left out. */
  function Middle(x: Word, lz: nat, tz: nat): (s: seq<bool>)
    requires lz + tz <= 64
    ensures |s| == 64 - lz - tz
  {
    x[lz..64 - tz]
  }

  function Clamp(lz: nat): (n: nat)
    ensures n <= MAX_STORED_LEADING
  {
    if lz > MAX_STORED_LEADING then MAX_STORED_LEADING else lz
  }

  /** Leading zeros in 5 bits, length less one in 6, then the significant bits. */
  function OpenBits(x: Word): (s: seq<bool>)
    requires !IsZero(x)
  {
    Extent(x);
    var lz, tz := CountLeading(x), CountTrailing(x);
    ToBits(Clamp(lz), 5) + (ToBits(64 - lz - tz - 1, 6) + Middle(x, lz, tz))
  }

  /** The bits written for `v`, and the state after it. */
  function EncodeOne(st: State, v: Word): (r: (seq<bool>, State))
    requires InBounds(st)
    ensures InBounds(r.1)
  {
    var x := XorWords(st.prev, v);
    if IsZero(x) then ([false], st.(prev := v))
    else if Reuses(st, x) then
      var w := st.window.value;
      ([true, false] + Middle(x, w.lz, w.tz), st.(prev := v))
    else
      Extent(x);
      ([true, true] + OpenBits(x), State(v, Some(Window(CountLeading(x), CountTrailing(x)))))
  }

  // ---------------------------------------------------------------------
  // What is written, bit by bit
  // ---------------------------------------------------------------------

  /** No bit of `x` is set outside the window. */
  predicate Within(x: Word, w: Window)
  {
    forall i :: 0 <= i < 64 && x[i] ==> w.lz <= i < 64 - w.tz
  }

  /** `w` is the least window around the bits of `x`. */
  predicate Spans(x: Word, w: Window)
  {
    w.lz + w.tz < 64 && Within(x, w) && x[w.lz] && x[63 - w.tz]
  }

  lemma ZeroIff(x: Word)
    ensures IsZero(x) <==> forall i :: 0 <= i < 64 ==> !x[i]
  {
    LeadingZeros(x);
  }

  lemma ReusesIff(st: State, x: Word)
    requires !IsZero(x)
    ensures Reuses(st, x) <==> st.window.Some? && Within(x, st.window.value)
  {
    LeadingZeros(x);
    TrailingZeros(x);
    Extent(x);
    assert x[CountLeading(x)] && x[63 - CountTrailing(x)];
  }

  function ExtentOf(x: Word): (w: Window)
    requires exists i :: 0 <= i < 64 && x[i]
    ensures Spans(x, w)
  {
    ZeroIff(x);
    Extent(x);
    LeadingZeros(x);
    TrailingZeros(x);
    Window(CountLeading(x), CountTrailing(x))
  }

  lemma OneSpan(x: Word, v: Window, w: Window)
    requires Spans(x, v) && Spans(x, w)
    ensures v == w
  {
  }

  lemma LeadingIs(x: Word, w: Window)
    requires Spans(x, w)
    ensures !IsZero(x) && CountLeading(x) == w.lz && CountTrailing(x) == w.tz
  {
    ZeroIff(x);
    Extent(x);
    LeadingZeros(x);
    TrailingZeros(x);
    assert x[CountLeading(x)] && x[63 - CountTrailing(x)];
  }

  /** What the encoder writes for `v`, and the window it goes on with: one bit for a
      repeated value; the bits inside the window if no other differs; and otherwise the
      least window that holds them, its leading zeros cut to 31. */
  lemma WritesExactly(st: State, v: Word)
    requires InBounds(st)
    ensures var x := XorWords(st.prev, v);
            var (bits, after) := EncodeOne(st, v);
            && after.prev == v
            && (v == st.prev ==> bits == [false] && after.window == st.window)
            && (v != st.prev && st.window.Some? && Within(x, st.window.value) ==>
                  && bits == [true, false] + x[st.window.value.lz..64 - st.window.value.tz]
                  && after.window == st.window)
            && (v != st.prev && !(st.window.Some? && Within(x, st.window.value)) ==>
                  && after.window.Some? && Spans(x, after.window.value)
                  && var w := after.window.value;
                     bits == [true, true] + (ToBits(if w.lz < 32 then w.lz else 31, 5)
                                             + (ToBits(63 - w.lz - w.tz, 6) + x[w.lz..64 - w.tz])))
  {
    hide CountLeading, CountTrailing, Within, Spans;
    var x := XorWords(st.prev, v);
    SameIff(st.prev, v);
    if v != st.prev {
      ReusesIff(st, x);
      if !Reuses(st, x) {
        ZeroIff(x);
        var w := ExtentOf(x);
        LeadingIs(x, w);
      }
    }
  }

  lemma SameIff(a: Word, b: Word)
    ensures a == b <==> IsZero(XorWords(a, b))
  {
    ZeroIff(XorWords(a, b));
  }

  /** `v` repeats, fits the window, or differs in one of the first 32 bits. */
  predicate OpensSafely(st: State, v: Word)
  {
    var x := XorWords(st.prev, v);
    v == st.prev || (st.window.Some? && Within(x, st.window.value)) || exists i :: 0 <= i < 32 && x[i]
  }

  lemma SafelyIff(st: State, v: Word)
    ensures var x := XorWords(st.prev, v);
            OpensSafely(st, v) <==> IsZero(x) || Reuses(st, x) || CountLeading(x) <= MAX_STORED_LEADING
  {
    hide CountLeading, Reuses, Within;
    var x := XorWords(st.prev, v);
    SameIff(st.prev, v);
    if !IsZero(x) {
      ReusesIff(st, x);
      LeadingZeros(x);
      assert x[CountLeading(x)];
    }
  }

  /** `sig << tz`, for `sig` the number the bits `s` denote. */
  function Placed(s: seq<bool>, tz: nat): (x: Word)
    requires |s| <= 64 && tz <= 64
  {
    ShlWord(Zeros(64 - |s|) + s, tz)
  }

  /** Reads one value; `None` for a truncated stream, a window reused before one
      was opened, or a window whose bounds overflow eight-bit arithmetic. */
  function DecodeOne(st: State, s: seq<bool>): (r: Option<(State, seq<bool>)>)
  {
    if |s| < 1 then None
    else if !s[0] then Some((st, s[1..]))
    else if |s| < 2 then None
    else if !s[1] then DecodeReused(st, s[2..])
    else DecodeOpened(st, s[2..])
  }

  function DecodeReused(st: State, s: seq<bool>): (r: Option<(State, seq<bool>)>)
  {
    if st.window.None? || st.window.value.lz + st.window.value.tz > 64 then None
    else
      var w := st.window.value;
      var len := 64 - w.lz - w.tz;
      if len > |s| then None
      else Some((st.(prev := XorWords(st.prev, Placed(s[..len], w.tz))), s[len..]))
  }

  function DecodeOpened(st: State, s: seq<bool>): (r: Option<(State, seq<bool>)>)
  {
    var (lz, s1) :- GetBits(s, 5);
    var (m1, s2) :- GetBits(s1, 6);
    DecodeWindow(st, lz, m1 + 1, s2)
  }

  function DecodeWindow(st: State, lz: nat, len: nat, s: seq<bool>): (r: Option<(State, seq<bool>)>)
  {
    if len > |s| || len > 64 || (len != 64 && lz + len > 64) then None
    else
      var tz := if len == 64 then 0 else 64 - lz - len;
      Some((State(XorWords(st.prev, Placed(s[..len], tz)), Some(Window(lz, tz))), s[len..]))
  }

  lemma XorInverts(a: Word, b: Word)
    ensures XorWords(a, XorWords(a, b)) == b
  {
  }

  lemma XorDistinct(a: Word, x: Word, y: Word, i: nat)
    requires i < 64 && x[i] != y[i]
    ensures XorWords(a, x) != XorWords(a, y)
  {
    assert XorWords(a, x)[i] != XorWords(a, y)[i];
  }

  lemma PlacedIs(s: seq<bool>, lz: nat, tz: nat)
    requires lz + |s| + tz == 64
    ensures Placed(s, tz) == Zeros(lz) + s + Zeros(tz)
  {
  }

  /** Significant bits put back at their window's trailing zeros are the word. */
  lemma WindowRestores(x: Word, lz: nat, tz: nat)
    requires lz <= CountLeading(x) && tz <= CountTrailing(x) && lz + tz <= 64
    ensures Placed(Middle(x, lz, tz), tz) == x
  {
    PlacedIs(Middle(x, lz, tz), lz, tz);
    LeadingZeros(x);
    TrailingZeros(x);
  }

  lemma Prefix2(a: bool, b: bool, s: seq<bool>, rest: seq<bool>)
    ensures |([a, b] + s) + rest| >= 2
    ensures (([a, b] + s) + rest)[0] == a && (([a, b] + s) + rest)[1] == b
    ensures (([a, b] + s) + rest)[2..] == s + rest
  {
  }

  lemma TakePrefix(s: seq<bool>, rest: seq<bool>)
    ensures (s + rest)[..|s|] == s && (s + rest)[|s|..] == rest
  {
  }

  lemma SmallFields(lz5: nat, m1: nat, s: seq<bool>, rest: seq<bool>)
    requires lz5 < 32 && m1 < 64
    ensures var t := (ToBits(lz5, 5) + (ToBits(m1, 6) + s)) + rest;
            GetBits(t, 5) == Some((lz5, (ToBits(m1, 6) + s) + rest))
    ensures GetBits((ToBits(m1, 6) + s) + rest, 6) == Some((m1, s + rest))
  {
    assert Pow2(5) == 32 && Pow2(6) == 64;
    Assoc(ToBits(lz5, 5), ToBits(m1, 6) + s, rest);
    Assoc(ToBits(m1, 6), s, rest);
    GetBitsRoundTrip(lz5, 5, (ToBits(m1, 6) + s) + rest);
    GetBitsRoundTrip(m1, 6, s + rest);
  }

  /** What the decoder makes of a freshly opened window. */
  lemma OpenedWindow(st: State, x: Word, rest: seq<bool>)
    requires !IsZero(x)
    ensures CountLeading(x) + CountTrailing(x) < 64
    ensures var lz, tz := CountLeading(x), CountTrailing(x);
            DecodeOne(st, ([true, true] + OpenBits(x)) + rest)
            == DecodeWindow(st, Clamp(lz), 64 - lz - tz, Middle(x, lz, tz) + rest)
  {
    Extent(x);
    var lz, tz := CountLeading(x), CountTrailing(x);
    Prefix2(true, true, OpenBits(x), rest);
    SmallFields(Clamp(lz), 64 - lz - tz - 1, Middle(x, lz, tz), rest);
  }

  /** The word a window read back stands for. */
  lemma WindowRead(st: State, lz: nat, tz: nat, sig: seq<bool>, rest: seq<bool>)
    requires lz + |sig| + tz == 64 && 0 < |sig|
    ensures DecodeWindow(st, lz, |sig|, sig + rest)
         == Some((State(XorWords(st.prev, Placed(sig, tz)), Some(Window(lz, tz))), rest))
  {
    TakePrefix(sig, rest);
  }

  lemma ReusedWindow(st: State, x: Word, rest: seq<bool>)
    requires InBounds(st) && Reuses(st, x)
    ensures var w := st.window.value;
            DecodeOne(st, ([true, false] + Middle(x, w.lz, w.tz)) + rest)
            == Some((st.(prev := XorWords(st.prev, x)), rest))
  {
    var w := st.window.value;
    var sig := Middle(x, w.lz, w.tz);
    Prefix2(true, false, sig, rest);
    TakePrefix(sig, rest);
    WindowRestores(x, w.lz, w.tz);
  }

  lemma ZeroXor(a: Word, b: Word)
    requires IsZero(XorWords(a, b))
    ensures a == b
  {
    LeadingZeros(XorWords(a, b));
    assert forall i :: 0 <= i < 64 ==> a[i] == b[i];
  }

  /** While windows open safely, encoder and decoder stay in step. */
  lemma StepInSync(st: State, v: Word, rest: seq<bool>)
    requires InBounds(st) && OpensSafely(st, v)
    ensures DecodeOne(st, EncodeOne(st, v).0 + rest) == Some((EncodeOne(st, v).1, rest))
  {
    SafelyIff(st, v);
    var x := XorWords(st.prev, v);
    XorInverts(st.prev, v);
    if IsZero(x) {
      ZeroXor(st.prev, v);
      assert ([false] + rest)[1..] == rest;
    } else if Reuses(st, x) {
      ReusedWindow(st, x, rest);
    } else {
      OpenedInSync(st, x, rest);
    }
  }

  lemma OpenedInSync(st: State, x: Word, rest: seq<bool>)
    requires !IsZero(x) && CountLeading(x) <= MAX_STORED_LEADING
    ensures DecodeOne(st, ([true, true] + OpenBits(x)) + rest)
         == Some((State(XorWords(st.prev, x), Some(Window(CountLeading(x), CountTrailing(x)))), rest))
  {
    var lz, tz := CountLeading(x), CountTrailing(x);
    OpenedWindow(st, x, rest);
    WindowRead(st, lz, tz, Middle(x, lz, tz), rest);
    WindowRestores(x, lz, tz);
  }

  /** An unsafe window makes the decoder return a different value at once. */
  lemma StepOutOfSync(st: State, v: Word, rest: seq<bool>)
    requires InBounds(st) && !OpensSafely(st, v)
    ensures var r := DecodeOne(st, EncodeOne(st, v).0 + rest);
            r.None? || r.value.0.prev != v
  {
    SafelyIff(st, v);
    var x := XorWords(st.prev, v);
    XorInverts(st.prev, v);
    OpenedOutOfSync(st, x, rest);
  }

  lemma OpenedOutOfSync(st: State, x: Word, rest: seq<bool>)
    requires !IsZero(x) && CountLeading(x) > MAX_STORED_LEADING
    ensures var r := DecodeOne(st, ([true, true] + OpenBits(x)) + rest);
            r.Some? && r.value.0.prev != XorWords(st.prev, x)
  {
    hide DecodeOne, OpenBits, CountLeading, CountTrailing, XorWords, Placed;
    var lz, tz := CountLeading(x), CountTrailing(x);
    OpenedWindow(st, x, rest);
    var sig := Middle(x, lz, tz);
    var tz' := 64 - MAX_STORED_LEADING - |sig|;
    WindowRead(st, MAX_STORED_LEADING, tz', sig, rest);
    PlacedIs(sig, MAX_STORED_LEADING, tz');
    LeadingZeros(x);
    assert Placed(sig, tz')[MAX_STORED_LEADING] == x[lz];
    XorDistinct(st.prev, x, Placed(sig, tz'), MAX_STORED_LEADING);
  }

  // ---------------------------------------------------------------------
  // The stream behind the first value
  // ---------------------------------------------------------------------

  function EncodeAll(st: State, vs: seq<Word>): (s: seq<bool>)
    requires InBounds(st)
    decreases vs
  {
    if vs == [] then [] else EncodeOne(st, vs[0]).0 + EncodeAll(EncodeOne(st, vs[0]).1, vs[1..])
  }

  function DecodeAll(st: State, s: seq<bool>, n: nat): (r: Option<seq<Word>>)
    decreases n
  {
    if n == 0 then Some([])
    else
      var (st', rest) :- DecodeOne(st, s);
      var vs :- DecodeAll(st', rest, n - 1);
      Some([st'.prev] + vs)
  }

  /** What each value differs in from the one before. */
  function Differences(prev: Word, vs: seq<Word>): (xs: seq<Word>)
    decreases vs
  {
    if vs == [] then [] else [XorWords(prev, vs[0])] + Differences(vs[0], vs[1..])
  }

  /** Over the differences, with `w` the window so far: whenever one leaves the window,
      it starts within the first 32 bits. */
  predicate SafeRun(w: Option<Window>, xs: seq<Word>)
    decreases xs
  {
    if xs == [] then true
    else
      var x := xs[0];
      if !(exists i :: 0 <= i < 64 && x[i]) || (w.Some? && Within(x, w.value)) then SafeRun(w, xs[1..])
      else (exists i :: 0 <= i < 32 && x[i]) && SafeRun(Some(ExtentOf(x)), xs[1..])
  }

  /** Every window opened over `vs` is safe. */
  predicate AllSafe(st: State, vs: seq<Word>)
  {
    SafeRun(st.window, Differences(st.prev, vs))
  }

  lemma SafeStep(st: State, vs: seq<Word>)
    requires InBounds(st) && vs != []
    ensures AllSafe(st, vs) <==> OpensSafely(st, vs[0]) && AllSafe(EncodeOne(st, vs[0]).1, vs[1..])
  {
    hide EncodeOne, IsZero, Within, Spans, XorWords;
    var v := vs[0];
    var x := XorWords(st.prev, v);
    var (bits, after) := EncodeOne(st, v);
    WritesExactly(st, v);
    SameIff(st.prev, v);
    ZeroIff(x);
    var xs := Differences(st.prev, vs);
    assert xs[0] == x && xs[1..] == Differences(v, vs[1..]);
    if v != st.prev && !(st.window.Some? && Within(x, st.window.value)) {
      OneSpan(x, after.window.value, ExtentOf(x));
    }
  }

  lemma EncodedPrev(st: State, v: Word)
    requires InBounds(st)
    ensures EncodeOne(st, v).1.prev == v
  {
  }

  /** The value stream decodes to its input if and only if every difference that does
      not fit the window so far starts within the first 32 bits. */
  lemma {:induction false} ValuesRoundTripIff(st: State, vs: seq<Word>, pad: seq<bool>)
    requires InBounds(st)
    ensures DecodeAll(st, EncodeAll(st, vs) + pad, |vs|) == Some(vs) <==> AllSafe(st, vs)
    decreases vs
  {
    if vs != [] {
      hide EncodeOne, DecodeOne, OpensSafely, AllSafe;
      var v := vs[0];
      SafeStep(st, vs);
      assert vs == [v] + vs[1..];
      var (bits, st') := EncodeOne(st, v);
      var tail := EncodeAll(st', vs[1..]);
      EncodedPrev(st, v);
      Assoc(bits, tail, pad);
      if OpensSafely(st, v) {
        StepInSync(st, v, tail + pad);
        ValuesRoundTripIff(st', vs[1..], pad);
        TailDecides(v, DecodeAll(st', tail + pad, |vs| - 1), vs);
      } else {
        StepOutOfSync(st, v, tail + pad);
      }
    }
  }

  lemma TailDecides(v: Word, p: Option<seq<Word>>, vs: seq<Word>)
    requires vs != [] && vs[0] == v
    ensures (p.Some? && [v] + p.value == vs) <==> p == Some(vs[1..])
  {
    assert [v] + vs[1..] == vs;
    if p.Some? && [v] + p.value == vs {
      assert vs[1..] == p.value;
    }
  }

  /** Two nearly equal values already open a window with 63 leading zeros. */
  lemma UnsafeExample()
    ensures var z: Word := Zeros(64);
            var one: Word := Zeros(63) + [true];
            && InBounds(State(z, None))
            && DecodeAll(State(z, None), EncodeAll(State(z, None), [one]), 1) != Some([one])
  {
    var z: Word := Zeros(64);
    var one: Word := Zeros(63) + [true];
    var x := XorWords(z, one);
    LeadingZeros(x);
    assert forall i :: 0 <= i < 63 ==> !x[i];
    assert x[63];
    assert !OpensSafely(State(z, None), one);
    SafeStep(State(z, None), [one]);
    var s := EncodeAll(State(z, None), [one]);
    assert s + [] == s;
    ValuesRoundTripIff(State(z, None), [one], []);
  }
}
