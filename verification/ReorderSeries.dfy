/**
 One series of the watermark reorder engine: points wait in a min-heap until the
 watermark passes them, are then appended to the open chunk in timestamp order,
 and a full chunk is shipped.
 */
module ReorderSeries {
  import opened Bits
  import opened Common
  import opened MinHeap

  type Key = string
  type Point = Item<int>

  datatype Series = Series(key: Key, pending: seq<Point>, open: seq<Point>, last: Option<int>,
                           lastActive: int, inEvict: bool)

  /** Reorder grace and idle threshold in milliseconds; `idle == 0` disables
      eviction. */
  datatype Config = Config(grace: int, cap: nat, idle: nat)

  const MIN_INT64: int := -0x8000_0000_0000_0000
  const MAX_INT64: int := 0x7fff_ffff_ffff_ffff

  /** Millisecond times whose nanoseconds fit in 64 bits. */
  const MAX_MS: int := 9_223_372_036_854

  predicate IsMs(t: int)
  {
    -MAX_MS <= t <= MAX_MS
  }

  function Fresh(key: Key): (s: Series)
  {
    Series(key, [], [], None, MIN_INT64, false)
  }

  // ---------------------------------------------------------------------
  // Draining
  // ---------------------------------------------------------------------

  predicate HasReady(s: Series, w: int)
  {
    s.pending != [] && s.pending[0].t <= w
  }

  /** The root does not come after what was already appended. */
  predicate Late(s: Series)
    requires s.pending != []
  {
    s.last.Some? && s.pending[0].t <= s.last.value
  }

  function Appended(s: Series): (r: Series)
    requires s.pending != []
  {
    s.(pending := Pop(s.pending), open := s.open + [s.pending[0]], last := Some(s.pending[0].t))
  }

  function Flushed(c: Config, s: Series): (r: Series)
  {
    s.(open := [], inEvict := s.inEvict || c.idle > 0)
  }

  /** What happens to the root of the pending heap. */
  function Step(c: Config, s: Series): (r: Series)
    requires s.pending != []
    ensures |r.pending| == |s.pending| - 1
  {
    if Late(s) then s.(pending := Pop(s.pending))
    else if |s.open| + 1 >= c.cap then Flushed(c, Appended(s))
    else Appended(s)
  }

  function Drained(c: Config, s: Series, w: int): (r: Series)
    ensures !HasReady(r, w)
    decreases |s.pending|
  {
    if HasReady(s, w) then Drained(c, Step(c, s), w) else s
  }

  /** The points a drain appends, in order. */
  function Kept(c: Config, s: Series, w: int): (r: seq<Point>)
    decreases |s.pending|
  {
    if !HasReady(s, w) then []
    else (if Late(s) then [] else [s.pending[0]]) + Kept(c, Step(c, s), w)
  }

  /** The points a drain drops, in order. */
  function Lost(c: Config, s: Series, w: int): (r: seq<Point>)
    decreases |s.pending|
  {
    if !HasReady(s, w) then []
    else (if Late(s) then [s.pending[0]] else []) + Lost(c, Step(c, s), w)
  }

  lemma LateStepOpen(c: Config, s: Series)
    requires s.pending != [] && Late(s)
    ensures Step(c, s).open == s.open
  {
  }

  lemma DrainedStep(c: Config, s: Series, w: int)
    requires HasReady(s, w)
    ensures Drained(c, s, w) == Drained(c, Step(c, s), w)
    ensures Kept(c, s, w) == (if Late(s) then [] else [s.pending[0]]) + Kept(c, Step(c, s), w)
    ensures Lost(c, s, w) == (if Late(s) then [s.pending[0]] else []) + Lost(c, Step(c, s), w)
  {
    hide Step;
  }

  lemma DrainedDone(c: Config, s: Series, w: int)
    requires !HasReady(s, w)
    ensures Drained(c, s, w) == s && Kept(c, s, w) == [] && Lost(c, s, w) == []
  {
  }

  lemma {:induction false} DrainedIdentity(c: Config, s: Series, w: int)
    ensures var r := Drained(c, s, w); r.key == s.key && r.lastActive == s.lastActive
    decreases |s.pending|
  {
    if HasReady(s, w) {
      DrainedIdentity(c, Step(c, s), w);
    }
  }

  // ---------------------------------------------------------------------
  // What one incarnation of a series has seen
  // ---------------------------------------------------------------------

  /** A point with the highest watermark its series had been drained to. */
  datatype Arrival = Arrival(p: Point, mark: int)

  datatype Log = Log(accepted: seq<Arrival>, lost: seq<Point>, mark: int)

  function Points(arrivals: seq<Arrival>): (r: seq<Point>)
    ensures |r| == |arrivals|
  {
    seq(|arrivals|, i requires 0 <= i < |arrivals| => arrivals[i].p)
  }

  /** Distinct timestamps, each newer than the watermark at its arrival. */
  predicate Timely(arrivals: seq<Arrival>)
  {
    && (forall i :: 0 <= i < |arrivals| ==> arrivals[i].p.t > arrivals[i].mark)
    && (forall i, j :: 0 <= i < j < |arrivals| ==> arrivals[i].p.t != arrivals[j].p.t)
  }

  predicate AllMs(arrivals: seq<Arrival>)
  {
    forall i :: 0 <= i < |arrivals| ==> IsMs(arrivals[i].p.t)
  }

  function LastActivity(arrivals: seq<Arrival>): (t: int)
  {
    if arrivals == [] then MIN_INT64
    else
      var prev := LastActivity(arrivals[..|arrivals| - 1]);
      var t := arrivals[|arrivals| - 1].p.t;
      if t > prev then t else prev
  }

  predicate Increasing(ps: seq<Point>)
  {
    forall i, j :: 0 <= i < j < |ps| ==> ps[i].t < ps[j].t
  }

  function LastOf(ps: seq<Point>): (r: Option<int>)
  {
    if ps == [] then None else Some(ps[|ps| - 1].t)
  }

  ghost predicate Distinct(m: multiset<Point>)
  {
    && (forall p :: p in m ==> m[p] == 1)
    && (forall p, q :: p in m && q in m && p.t == q.t ==> p == q)
  }

  ghost predicate AllAfter(m: multiset<Point>, t: int)
  {
    forall p :: p in m ==> p.t > t
  }

  /** Accepted points are pending, appended or lost, and nothing else is. */
  ghost predicate Conserved(s: Series, l: Log, stream: seq<Point>)
  {
    multiset(Points(l.accepted)) == multiset(s.pending) + multiset(stream) + multiset(l.lost)
  }

  /** Appended timestamps strictly increase and stay within the watermark. */
  ghost predicate InOrder(s: Series, l: Log, stream: seq<Point>)
  {
    Increasing(stream) && s.last == LastOf(stream) && (s.last.Some? ==> s.last.value <= l.mark)
  }

  /** As long as every arrival was timely, nothing is lost. */
  ghost predicate Lossless(s: Series, l: Log)
  {
    Timely(l.accepted) ==>
      && l.lost == [] && Distinct(multiset(s.pending))
      && (s.last.Some? ==> AllAfter(multiset(s.pending), s.last.value))
  }

  /** `shipped` are the points of the fragments this incarnation has produced. */
  ghost predicate Sound(c: Config, s: Series, l: Log, shipped: seq<Point>)
  {
    && IsHeap(s.pending) && (s.open != [] ==> |s.open| < c.cap)
    && s.lastActive == LastActivity(l.accepted) && AllMs(l.accepted)
    && Conserved(s, l, shipped + s.open) && InOrder(s, l, shipped + s.open) && Lossless(s, l)
  }

  // ---------------------------------------------------------------------
  // Every transition keeps it
  // ---------------------------------------------------------------------

  lemma FreshSound(c: Config, key: Key)
    ensures Sound(c, Fresh(key), Log([], [], MIN_INT64), [])
  {
    assert Points([]) == [];
  }

  lemma MarkSound(c: Config, s: Series, l: Log, shipped: seq<Point>, mark: int)
    requires Sound(c, s, l, shipped) && mark >= l.mark
    ensures Sound(c, s, l.(mark := mark), shipped)
  {
  }

  lemma PointsSnoc(arrivals: seq<Arrival>, a: Arrival)
    ensures multiset(Points(arrivals + [a])) == multiset(Points(arrivals)) + multiset{a.p}
  {
    assert Points(arrivals + [a]) == Points(arrivals) + [a.p];
  }

  lemma TimelyPrefix(arrivals: seq<Arrival>, a: Arrival)
    requires Timely(arrivals + [a])
    ensures Timely(arrivals) && a.p.t > a.mark
    ensures forall p :: p in multiset(Points(arrivals)) ==> p.t != a.p.t
  {
    var all := arrivals + [a];
    assert forall i :: 0 <= i < |arrivals| ==> all[i] == arrivals[i];
    assert all[|arrivals|] == a;
    forall p | p in multiset(Points(arrivals))
      ensures p.t != a.p.t
    {
      var i :| 0 <= i < |arrivals| && Points(arrivals)[i] == p;
      assert all[i].p == p;
    }
  }

  function Arrived(s: Series, p: Point): (r: Series)
  {
    s.(pending := Push(s.pending, p), lastActive := if p.t > s.lastActive then p.t else s.lastActive)
  }

  lemma DistinctPlus(m: multiset<Point>, p: Point)
    requires Distinct(m) && forall q :: q in m ==> q.t != p.t
    ensures Distinct(m + multiset{p})
  {
  }

  lemma ArriveLossless(s: Series, l: Log, stream: seq<Point>, p: Point)
    requires Lossless(s, l) && Conserved(s, l, stream) && InOrder(s, l, stream)
    ensures Lossless(Arrived(s, p), l.(accepted := l.accepted + [Arrival(p, l.mark)]))
  {
    hide Push, Distinct, Timely;
    var a := Arrival(p, l.mark);
    if Timely(l.accepted + [a]) {
      TimelyPrefix(l.accepted, a);
      var m := multiset(s.pending);
      assert forall q :: q in m ==> q in multiset(Points(l.accepted));
      DistinctPlus(m, p);
      assert multiset(Arrived(s, p).pending) == m + multiset{p};
    }
  }

  lemma ArriveSound(c: Config, s: Series, l: Log, shipped: seq<Point>, p: Point)
    requires Sound(c, s, l, shipped) && IsMs(p.t)
    ensures Sound(c, Arrived(s, p), l.(accepted := l.accepted + [Arrival(p, l.mark)]), shipped)
  {
    hide Lossless, Increasing, Push;
    var a := Arrival(p, l.mark);
    var all := l.accepted + [a];
    PushHeap(s.pending, p);
    PointsSnoc(l.accepted, a);
    assert all[..|all| - 1] == l.accepted;
    ArriveLossless(s, l, shipped + s.open, p);
  }

  lemma LateSound(c: Config, s: Series, l: Log, shipped: seq<Point>)
    requires Sound(c, s, l, shipped) && s.pending != [] && Late(s)
    ensures !Timely(l.accepted)
    ensures Sound(c, s.(pending := Pop(s.pending)), l.(lost := l.lost + [s.pending[0]]), shipped)
  {
    PopHeap(s.pending);
    assert s.pending[0] in multiset(s.pending);
  }

  lemma AppendInOrder(s: Series, l: Log, stream: seq<Point>)
    requires InOrder(s, l, stream) && s.pending != [] && !Late(s) && s.pending[0].t <= l.mark
    ensures InOrder(Appended(s), l, stream + [s.pending[0]])
  {
  }

  lemma DistinctMinus(m: multiset<Point>, rest: multiset<Point>, p: Point)
    requires Distinct(m) && m == rest + multiset{p}
    requires forall q :: q in m ==> p.t <= q.t
    ensures Distinct(rest) && AllAfter(rest, p.t)
  {
    assert m[p] == rest[p] + 1;
    forall q | q in rest
      ensures q.t > p.t && rest[q] == 1
    {
      assert q in m && p in m && q != p;
    }
  }

  lemma AppendLossless(s: Series, l: Log)
    requires Lossless(s, l) && IsHeap(s.pending) && s.pending != [] && !Late(s)
    ensures Lossless(Appended(s), l)
  {
    if Timely(l.accepted) {
      var m, p := multiset(s.pending), s.pending[0];
      var rest := multiset(Pop(s.pending));
      RootLeastAll(s.pending);
      DistinctMinus(m, rest, p);
    }
  }

  lemma AppendSound(c: Config, s: Series, l: Log, shipped: seq<Point>)
    requires Sound(c, s, l, shipped) && s.pending != [] && !Late(s) && s.pending[0].t <= l.mark
    requires |s.open| + 1 < c.cap
    ensures Sound(c, Appended(s), l, shipped)
  {
    hide Lossless, InOrder;
    Assoc(shipped, s.open, [s.pending[0]]);
    PopHeap(s.pending);
    AppendInOrder(s, l, shipped + s.open);
    AppendLossless(s, l);
  }

  /** Appending the point that fills the chunk, and shipping it. */
  lemma FillSound(c: Config, s: Series, l: Log, shipped: seq<Point>)
    requires Sound(c, s, l, shipped) && s.pending != [] && !Late(s) && s.pending[0].t <= l.mark
    ensures Sound(c, Flushed(c, Appended(s)), l, shipped + (s.open + [s.pending[0]]))
  {
    hide Conserved, InOrder, Lossless, IsHeap, LastActivity, AllMs, Late, Pop;
    var roomier := c.(cap := |s.open| + 2);
    assert Sound(roomier, s, l, shipped);
    AppendSound(roomier, s, l, shipped);
    FlushSound(roomier, Appended(s), l, shipped);
    assert Flushed(roomier, Appended(s)) == Flushed(c, Appended(s));
  }

  lemma FlushLossless(c: Config, s: Series, l: Log)
    requires Lossless(s, l)
    ensures Lossless(Flushed(c, s), l)
  {
  }

  lemma FlushSound(c: Config, s: Series, l: Log, shipped: seq<Point>)
    requires Sound(c, s, l, shipped)
    ensures Sound(c, Flushed(c, s), l, shipped + s.open)
  {
    hide Lossless;
    FlushLossless(c, s, l);
    assert (shipped + s.open) + [] == shipped + s.open;
  }

  /** Every pending point is a real time, so the forced watermark passes it. */
  lemma PendingMs(c: Config, s: Series, l: Log, shipped: seq<Point>)
    requires Sound(c, s, l, shipped) && s.pending != []
    ensures s.pending[0].t < MAX_INT64
  {
    var p := s.pending[0];
    assert p in multiset(s.pending);
    assert p in multiset(Points(l.accepted));
    var i :| 0 <= i < |l.accepted| && Points(l.accepted)[i] == p;
    assert IsMs(l.accepted[i].p.t);
  }

  /** A forced drain also ships the open chunk. */
  function Closed(c: Config, s: Series): (r: Series)
  {
    if s.open == [] then s else Flushed(c, s)
  }

  /** Bounded disorder loses nothing: once a timely series has been drained and
      flushed, what it shipped is exactly what it accepted, in timestamp order. */
  lemma TimelyShipsSorted(c: Config, s: Series, l: Log, shipped: seq<Point>)
    requires Sound(c, s, l, shipped) && Timely(l.accepted)
    requires s.pending == [] && s.open == []
    ensures l.lost == []
    ensures Increasing(shipped) && multiset(shipped) == multiset(Points(l.accepted))
  {
    assert shipped + [] == shipped;
  }
}
