/**
 Window bounds: lazy alignment, timestamp validation and rotation.  A step of
 zero is an unsized (batch) window.  Times are 64-bit, and so is the sum that
 gives a window its end: it wraps.
 */
module WindowBounds {
  import opened Bits
  import opened Wire

  /** Milliseconds as the runtime counts them. */
  type Millis = U64

  const MAX_MILLIS: Millis := 0xFFFF_FFFF_FFFF_FFFF

  datatype Bounds = Bounds(start: Millis, end: Millis)

  datatype Timing = InTime | Late | Future

  /** The 64-bit sum. */
  function Plus(a: Millis, b: Millis): (r: Millis)
  {
    (a + b) % TWO64
  }

  function Bucket(ts: Millis, step: Millis): (start: Millis)
    requires step > 0
    ensures start <= ts < start + step && start % step == 0
  {
    BucketOf(ts, step);
    (ts / step) * step
  }

  function InitBounds(refMs: Millis, step: Millis): (b: Bounds)
  {
    if step == 0 then Bounds(refMs, refMs)
    else Bounds(Bucket(refMs, step), Plus(Bucket(refMs, step), step))
  }

  /** In time is before the end, and no more than the lateness before the start. */
  function Validate(b: Bounds, ts: Millis, lateness: nat): (r: Timing)
    ensures r == Future <==> b.end <= ts
    ensures r == Late <==> ts < b.end && ts + lateness < b.start
    ensures r == InTime <==> ts < b.end && b.start <= ts + lateness
  {
    if ts >= b.end then Future
    else if ts < b.start && b.start - ts > lateness then Late
    else InTime
  }

  /** Where the window after `b` starts. */
  function NextStart(b: Bounds, nowMs: Millis, step: Millis): (start: Millis)
    requires step > 0
  {
    if Bucket(nowMs, step) <= b.start then b.end else Bucket(nowMs, step)
  }

  function Advance(b: Bounds, nowMs: Millis, step: Millis): (r: Bounds)
  {
    if step == 0 then Bounds(nowMs, nowMs)
    else Bounds(NextStart(b, nowMs, step), Plus(NextStart(b, nowMs, step), step))
  }

  /** The first window's end does not fit 64 bits. */
  predicate InitWraps(refMs: Millis, step: Millis)
  {
    step > 0 && Bucket(refMs, step) + step >= TWO64
  }

  /** The next window's end does not fit 64 bits. */
  predicate AdvanceWraps(b: Bounds, nowMs: Millis, step: Millis)
  {
    step > 0 && NextStart(b, nowMs, step) + step >= TWO64
  }

  lemma PlusIs(a: Millis, b: Millis)
    ensures Plus(a, b) == if a + b < TWO64 then a + b else a + b - TWO64
    ensures Plus(a, b) == a <==> b == 0
    ensures a + b >= TWO64 ==> Plus(a, b) < a
  {
  }

  predicate Due(b: Bounds, nowMs: Millis, step: Millis)
  {
    step == 0 || nowMs >= b.end
  }

  /** One whole step, ending where it should. */
  predicate Aligned(b: Bounds, step: Millis)
    requires step > 0
  {
    b.start % step == 0 && b.end == b.start + step
  }

  lemma BucketOf(x: nat, step: nat)
    requires step > 0
    ensures (x / step) * step <= x < (x / step) * step + step
    ensures ((x / step) * step) % step == 0
  {
    assert x == step * (x / step) + x % step;
    MultipleOf(x / step, step);
  }

  lemma MultipleOf(q: nat, step: nat)
    requires step > 0
    ensures (q * step) % step == 0
  {
    DivModUnique(q * step, step, q, 0);
  }

  /** A sized window opens aligned around its first reference time if and only if its
      end fits. */
  lemma InitAligned(refMs: Millis, step: Millis)
    requires step > 0
    ensures var b := InitBounds(refMs, step);
            Aligned(b, step) && b.start <= refMs < b.end <==> !InitWraps(refMs, step)
  {
    PlusIs(Bucket(refMs, step), step);
  }

  lemma MultiplesApart(a: nat, b: nat, step: nat)
    requires step > 0 && a % step == 0 && b % step == 0 && a < b
    ensures a + step <= b
  {
    assert a == step * (a / step) && b == step * (b / step);
    if b / step <= a / step {
      MulLe(b / step, a / step, step);
    } else {
      MulLe(a / step + 1, b / step, step);
      assert step * (a / step + 1) == step * (a / step) + step;
    }
  }

  lemma MulLe(x: nat, y: nat, k: nat)
    requires x <= y
    ensures k * x <= k * y
  {
  }

  /** With one fixed step the next window starts no earlier than the closed one ended,
      on a boundary; it is aligned if and only if its end fits. */
  lemma AdvanceAligned(b: Bounds, nowMs: Millis, step: Millis)
    requires step > 0 && Aligned(b, step)
    ensures var r := Advance(b, nowMs, step);
            b.end <= r.start && r.start % step == 0 && (Aligned(r, step) <==> !AdvanceWraps(b, nowMs, step))
  {
    var bucket := Bucket(nowMs, step);
    EndAligned(b, step);
    if bucket > b.start {
      MultiplesApart(b.start, bucket, step);
    }
    PlusIs(NextStart(b, nowMs, step), step);
  }

  /** The next window follows on without a gap if and only if the rotation came before
      a whole step had passed since the end of the last one. */
  lemma AdvanceMeetsIff(b: Bounds, nowMs: Millis, step: Millis)
    requires step > 0 && Aligned(b, step)
    ensures Advance(b, nowMs, step).start == b.end <==> nowMs < b.end + step
  {
    var bucket := Bucket(nowMs, step);
    if b.start < bucket {
      MultiplesApart(b.start, bucket, step);
    }
    if b.end < bucket {
      EndAligned(b, step);
      MultiplesApart(b.end, bucket, step);
    }
  }

  lemma EndAligned(b: Bounds, step: Millis)
    requires step > 0 && Aligned(b, step)
    ensures b.end % step == 0
  {
    assert b.start == step * (b.start / step);
    assert b.end == (b.start / step + 1) * step;
    MultipleOf(b.start / step + 1, step);
  }

  /** No end wraps at a time a whole step before the greatest. */
  lemma NoWrapBefore(b: Bounds, nowMs: Millis, step: Millis)
    requires nowMs + step < TWO64
    ensures !InitWraps(nowMs, step) && (Due(b, nowMs, step) ==> !AdvanceWraps(b, nowMs, step))
  {
  }

  /** Whether rotating for a sample beyond the window makes room for it: the window is
      sized, its end fits, and bounds left behind by an end that did not fit are not in
      the way. */
  predicate MakesRoom(b: Bounds, ts: Millis, step: Millis)
  {
    && step > 0 && !AdvanceWraps(b, ts, step)
    && (b.start <= b.end || b.start < Bucket(ts, step) || ts < b.end + step)
  }

  /** From any bounds, whichever step they were made with, the retry after a rotation for
      the sample's own time ends in time exactly then; otherwise it is future data
      again, and never late. */
  lemma RetryAccepted(b: Bounds, ts: Millis, step: Millis, lateness: nat)
    requires Validate(b, ts, lateness) == Future
    ensures Validate(Advance(b, ts, step), ts, lateness) == if MakesRoom(b, ts, step) then InTime else Future
  {
    if step > 0 {
      PlusIs(NextStart(b, ts, step), step);
    }
  }

  /** Rotating makes room for every sample up to `last`, from all ordered bounds, if and
      only if the window is sized and a step from `last` fits 64 bits. */
  lemma RetryNeverFutureIff(step: Millis, last: Millis)
    ensures (forall b: Bounds, ts: Millis, lateness ::
               b.start <= b.end && ts <= last && Validate(b, ts, lateness) == Future ==>
               Validate(Advance(b, ts, step), ts, lateness) != Future)
            <==> step > 0 && last + step < TWO64
  {
    if step > 0 && last + step < TWO64 {
      forall b: Bounds, ts: Millis, lateness | b.start <= b.end && ts <= last && Validate(b, ts, lateness) == Future
        ensures Validate(Advance(b, ts, step), ts, lateness) != Future
      {
        RetryAccepted(b, ts, step, lateness);
      }
    } else {
      RetryAccepted(Bounds(last, last), last, step, 0);
    }
  }

  /** A minute window told of the greatest time ends before it starts: the sample is
      future data again, so is the next ordinary one, and the window falls back to the
      first minutes of the epoch.  A fresh window opened there is no better. */
  lemma WrapExample()
    ensures var minute, ts, ordinary: Millis := 60000, MAX_MILLIS, 1700000100001;
            var b := Bounds(1700000040000, 1700000100000);
            var c := Bounds(18446744073709500000, 8384);
            && Aligned(b, minute) && Validate(b, ts, 0) == Future
            && Advance(b, ts, minute) == c && Validate(c, ts, 0) == Future
            && Validate(c, ordinary, 0) == Future && Advance(c, ordinary, minute) == Bounds(8384, 68384)
            && Validate(Bounds(8384, 68384), ordinary, 0) == Future
            && InitBounds(ts, minute) == c && Advance(c, ts, minute) == Bounds(8384, 68384)
  {
  }

  /** A step installed between windows can make ranges overlap: the window 10..20
      is followed by 15..30. */
  lemma StepChangeOverlaps()
    ensures Aligned(Bounds(10, 20), 10) && Due(Bounds(10, 20), 20, 15)
    ensures Advance(Bounds(10, 20), 20, 15) == Bounds(15, 30)
  {
  }

  /** Whatever the step was, the next window starts before the closed one did only if the
      closed one ended before it started; it starts after the closed one ended unless
      the new step's bucket falls inside it. */
  lemma AdvanceForwardIff(b: Bounds, nowMs: Millis, step: Millis)
    requires step > 0
    ensures var r, bucket := Advance(b, nowMs, step), Bucket(nowMs, step);
            && (b.start <= r.start <==> b.start <= b.end || b.start < bucket)
            && (b.end <= r.start <==> !(b.start < bucket < b.end))
  {
  }
}
