/**
 The additive Sum aggregate of one series in one window: what it accumulates,
 what a sub-window or boundary emit ships against the cached base, and how the
 shipped payloads add up.
 */
module SumDelta {
  import opened Common
  import opened WindowBounds

  datatype Amount = Amount(sum: real, count: int) {
    function Plus(b: Amount): (r: Amount)
    {
      Amount(sum + b.sum, count + b.count)
    }

    function Minus(b: Amount): (r: Amount)
    {
      Amount(sum - b.sum, count - b.count)
    }
  }

  const ZERO: Amount := Amount(0.0, 0)

  /** `delta` is whether the window emits deltas; `step` 0 is an unsized window. */
  datatype Config = Config(id: nat, step: Millis, lateness: nat, maxSeries: nat, evictOldest: bool, delta: bool)

  /** A scalar sample, an upstream summary covering `from..to`, or one whose payload
      does not parse. */
  datatype Input =
    | Scalar(ts: Millis, v: real)
    | Summary(ts: Millis, amount: Amount, reported: nat, isDelta: bool, from: nat, to: nat)
    | Broken(ts: Millis, isDelta: bool, from: nat, to: nat)

  /** History the code does not keep: which incarnation the entry is, the config
      that admitted it, and every input since. */
  datatype Past = Past(id: nat, cfg: Config, inputs: seq<Input>)

  datatype Entry = Entry(total: Amount, lastSeen: nat, samples: nat, from: nat, to: nat, past: Past)

  function Blank(id: nat, cfg: Config, ts: nat): (e: Entry)
  {
    Entry(ZERO, ts, 0, 0, 0, Past(id, cfg, []))
  }

  function Max(a: nat, b: nat): (r: nat)
  {
    if a > b then a else b
  }

  /** What is left when an upstream summary arrives: a delta for another upstream
      window replaces what was there. */
  function Kept(e: Entry, isDelta: bool, from: nat, to: nat): (a: Amount)
  {
    if isDelta && e.to != 0 && (e.from != from || e.to != to) then ZERO else e.total
  }

  /** A payload that does not parse still makes room for itself; everything else adds. */
  function Fed(e: Entry, i: Input): (r: Entry)
  {
    var past := e.past.(inputs := e.past.inputs + [i]);
    match i
    case Scalar(ts, v) =>
      Entry(e.total.Plus(Amount(v, 1)), Max(e.lastSeen, ts), e.samples + 1, e.from, e.to, past)
    case Summary(ts, a, reported, isDelta, from, to) =>
      Entry(Kept(e, isDelta, from, to).Plus(a), Max(e.lastSeen, ts), e.samples + reported,
            if isDelta then from else e.from, if isDelta then to else e.to, past)
    case Broken(_, isDelta, from, to) =>
      e.(total := Kept(e, isDelta, from, to), past := past)
  }

  /** The entry recomputed from its inputs. */
  function Rebuilt(p: Past, ts: nat): (e: Entry)
    decreases |p.inputs|
  {
    if p.inputs == [] then Blank(p.id, p.cfg, ts)
    else
      var n := |p.inputs| - 1;
      Fed(Rebuilt(p.(inputs := p.inputs[..n]), ts), p.inputs[n])
  }

  function FirstSeen(p: Past): (ts: nat)
  {
    if p.inputs == [] then 0 else p.inputs[0].ts
  }

  /** The entry is what its inputs make it. */
  predicate Faithful(e: Entry)
  {
    e.past.inputs != [] && e == Rebuilt(e.past, FirstSeen(e.past))
  }

  lemma FedFaithful(e: Entry, i: Input)
    requires Faithful(e)
    ensures Faithful(Fed(e, i))
  {
    var p := Fed(e, i).past;
    assert p.inputs[..|p.inputs| - 1] == e.past.inputs;
    assert p.(inputs := e.past.inputs) == e.past;
  }

  lemma FirstFaithful(id: nat, cfg: Config, i: Input)
    ensures Faithful(Fed(Blank(id, cfg, i.ts), i))
  {
    var p := Past(id, cfg, [i]);
    assert p.inputs[..0] == [];
    assert Rebuilt(p.(inputs := []), i.ts) == Blank(id, cfg, i.ts);
  }

  function ScalarSum(inputs: seq<Input>): (s: real)
    requires forall i :: 0 <= i < |inputs| ==> inputs[i].Scalar?
  {
    if inputs == [] then 0.0 else ScalarSum(inputs[..|inputs| - 1]) + inputs[|inputs| - 1].v
  }

  /** Fed with samples only, an entry holds their sum and their number. */
  lemma {:induction false} ScalarTotal(p: Past, ts: nat)
    requires forall i :: 0 <= i < |p.inputs| ==> p.inputs[i].Scalar?
    ensures Rebuilt(p, ts).total == Amount(ScalarSum(p.inputs), |p.inputs|)
    ensures Rebuilt(p, ts).samples == |p.inputs|
    decreases |p.inputs|
  {
    if p.inputs != [] {
      ScalarTotal(p.(inputs := p.inputs[..|p.inputs| - 1]), ts);
    }
  }

  // ---------------------------------------------------------------------
  // What an entry holds, from its inputs alone
  // ---------------------------------------------------------------------

  /** What one input is worth. */
  function Worth(i: Input): (a: Amount)
  {
    match i
    case Scalar(_, v) => Amount(v, 1)
    case Summary(_, a, _, _, _, _) => a
    case Broken(_, _, _, _) => Amount(0.0, 0)
  }

  function Worths(inputs: seq<Input>): (a: Amount)
  {
    if inputs == [] then Amount(0.0, 0)
    else
      var n := |inputs| - 1;
      Amount(Worths(inputs[..n]).sum + Worth(inputs[n]).sum, Worths(inputs[..n]).count + Worth(inputs[n]).count)
  }

  /** The samples reported for it. */
  function Reports(inputs: seq<Input>): (n: nat)
  {
    if inputs == [] then 0
    else
      var i := inputs[|inputs| - 1];
      Reports(inputs[..|inputs| - 1]) + if i.Scalar? then 1 else if i.Summary? then i.reported else 0
  }

  /** The upstream window of the last delta that parsed, or 0 to 0. */
  function LastRange(inputs: seq<Input>): (r: (nat, nat))
  {
    if inputs == [] then (0, 0)
    else
      var i := inputs[|inputs| - 1];
      if i.Summary? && i.isDelta then (i.from, i.to) else LastRange(inputs[..|inputs| - 1])
  }

  /** Input `k` is a delta for another upstream window than the one before it. */
  predicate Replaces(inputs: seq<Input>, k: nat)
    requires k < |inputs|
  {
    var i := inputs[k];
    && !i.Scalar? && i.isDelta
    && LastRange(inputs[..k]).1 != 0 && LastRange(inputs[..k]) != (i.from, i.to)
  }

  lemma ReplacesBefore(inputs: seq<Input>, n: nat)
    requires n <= |inputs|
    ensures forall j :: 0 <= j < n ==> (Replaces(inputs[..n], j) <==> Replaces(inputs, j))
  {
    forall j | 0 <= j < n
      ensures Replaces(inputs[..n], j) <==> Replaces(inputs, j)
    {
      assert inputs[..n][..j] == inputs[..j];
    }
  }

  /** The last input that replaced what was there, or the first. */
  function Since(inputs: seq<Input>): (k: nat)
    ensures k <= |inputs|
    ensures k == 0 || (k < |inputs| && Replaces(inputs, k))
    ensures forall j :: k < j < |inputs| ==> !Replaces(inputs, j)
  {
    if inputs == [] then 0
    else
      var n := |inputs| - 1;
      ReplacesBefore(inputs, n);
      if Replaces(inputs, n) then n else Since(inputs[..n])
  }

  /** The latest time of an input that was taken in. */
  function Latest(inputs: seq<Input>, ts: nat): (t: nat)
    ensures ts <= t && (forall k :: 0 <= k < |inputs| && !inputs[k].Broken? ==> inputs[k].ts <= t)
    ensures t == ts || exists k :: 0 <= k < |inputs| && !inputs[k].Broken? && inputs[k].ts == t
  {
    if inputs == [] then ts
    else
      var n := |inputs| - 1;
      var t := Latest(inputs[..n], ts);
      if !inputs[n].Broken? && inputs[n].ts > t then inputs[n].ts else t
  }

  /** An entry holds the sum of its inputs since the last delta for another upstream
      window, counts every sample reported, and was last seen at the latest of them. */
  lemma {:induction false} HoldsSum(p: Past, ts: nat)
    ensures var e := Rebuilt(p, ts);
            && e.total == Worths(p.inputs[Since(p.inputs)..])
            && e.samples == Reports(p.inputs) && e.lastSeen == Latest(p.inputs, ts)
            && (e.from, e.to) == LastRange(p.inputs)
    decreases |p.inputs|
  {
    hide Since, Worths, Latest, LastRange, Reports, Replaces, Fed;
    if p.inputs == [] {
      NoInputs(p, ts);
    } else {
      var n := |p.inputs| - 1;
      var q, i := p.(inputs := p.inputs[..n]), p.inputs[n];
      HoldsSum(q, ts);
      FedSum(Rebuilt(q, ts), p.inputs);
      FedRest(Rebuilt(q, ts), p.inputs, ts);
    }
  }

  lemma NoInputs(p: Past, ts: nat)
    requires p.inputs == []
    ensures var e := Rebuilt(p, ts);
            && e.total == Worths(p.inputs[Since(p.inputs)..])
            && e.samples == Reports(p.inputs) && e.lastSeen == Latest(p.inputs, ts)
            && (e.from, e.to) == LastRange(p.inputs)
  {
    assert p.inputs[Since(p.inputs)..] == [];
  }

  lemma FedSum(e: Entry, inputs: seq<Input>)
    requires inputs != []
    requires var init := inputs[..|inputs| - 1]; e.total == Worths(init[Since(init)..]) && (e.from, e.to) == LastRange(init)
    ensures Fed(e, inputs[|inputs| - 1]).total == Worths(inputs[Since(inputs)..])
  {
    hide *;
    var n := |inputs| - 1;
    var init, i, k := inputs[..n], inputs[n], Since(inputs);
    FedTotal(e, inputs);
    SinceStep(inputs);
    if Replaces(inputs, n) {
      assert inputs[n..] == [] + [i];
      WorthSnoc([], i);
      WorthNone();
    } else {
      assert inputs[k..] == init[k..] + [i];
      WorthSnoc(init[k..], i);
    }
  }

  lemma FedTotal(e: Entry, inputs: seq<Input>)
    requires inputs != [] && (e.from, e.to) == LastRange(inputs[..|inputs| - 1])
    ensures var n := |inputs| - 1;
            Fed(e, inputs[n]).total == (if Replaces(inputs, n) then ZERO else e.total).Plus(Worth(inputs[n]))
  {
    hide LastRange;
  }

  lemma SinceStep(inputs: seq<Input>)
    requires inputs != []
    ensures var n := |inputs| - 1; Since(inputs) == if Replaces(inputs, n) then n else Since(inputs[..n])
  {
    hide Replaces;
  }

  lemma WorthNone()
    ensures Worths([]) == ZERO
  {
  }

  lemma WorthSnoc(inputs: seq<Input>, i: Input)
    ensures Worths(inputs + [i]) == Worths(inputs).Plus(Worth(i))
  {
    hide Worth;
    var all := inputs + [i];
    assert all[..|inputs|] == inputs && all[|inputs|] == i;
  }

  lemma FedRest(e: Entry, inputs: seq<Input>, ts: nat)
    requires inputs != []
    requires var init := inputs[..|inputs| - 1];
             e.samples == Reports(init) && e.lastSeen == Latest(init, ts) && (e.from, e.to) == LastRange(init)
    ensures var f := Fed(e, inputs[|inputs| - 1]);
            f.samples == Reports(inputs) && f.lastSeen == Latest(inputs, ts) && (f.from, f.to) == LastRange(inputs)
  {
  }

  /** Without such a delta everything adds up. */
  lemma AllAdd(p: Past, ts: nat)
    requires forall k :: 0 <= k < |p.inputs| ==> !Replaces(p.inputs, k)
    ensures Rebuilt(p, ts).total == Worths(p.inputs)
  {
    HoldsSum(p, ts);
    assert p.inputs[0..] == p.inputs;
  }

  /** An upstream amount without samples is empty. */
  predicate WellFormed(i: Input)
  {
    i.Summary? ==> i.amount.count >= 0 && (i.amount.count == 0 ==> i.amount.sum == 0.0)
  }

  predicate AllWellFormed(inputs: seq<Input>)
  {
    forall k :: 0 <= k < |inputs| ==> WellFormed(inputs[k])
  }

  lemma {:induction false} EmptyTotal(p: Past, ts: nat)
    requires AllWellFormed(p.inputs)
    ensures var t := Rebuilt(p, ts).total; t.count >= 0 && (t.count == 0 ==> t == ZERO)
    decreases |p.inputs|
  {
    if p.inputs != [] {
      EmptyTotal(p.(inputs := p.inputs[..|p.inputs| - 1]), ts);
      assert WellFormed(p.inputs[|p.inputs| - 1]);
    }
  }

  // ---------------------------------------------------------------------
  // Payloads
  // ---------------------------------------------------------------------

  /** Nothing is shipped for an aggregate without samples. */
  function Snapshot(a: Amount): (p: Option<Amount>)
  {
    if a.count == 0 then None else Some(a)
  }

  /** What the cache keeps of a snapshot; an empty one reads back as zero. */
  function CachedSnapshot(a: Amount): (b: Amount)
  {
    if a.count == 0 then ZERO else a
  }

  /** The first emit is full, later ones are the difference to the base. */
  function Delta(base: Option<Amount>, a: Amount): (p: Option<Amount>)
  {
    if base.None? then Snapshot(a)
    else
      var d := a.Minus(base.value);
      if d == ZERO then None else Some(d)
  }

  function Shipped(p: Option<Amount>): (a: Amount)
  {
    if p.None? then ZERO else p.value
  }

  function BaseAt(cache: map<string, Amount>, k: string): (b: Amount)
  {
    if k in cache then cache[k] else ZERO
  }

  function Cached(cache: map<string, Amount>, k: string): (b: Option<Amount>)
  {
    if k in cache then Some(cache[k]) else None
  }

  /** What an emit ships brings the base up to the current total. */
  lemma DeltaReaches(cache: map<string, Amount>, k: string, a: Amount)
    requires a.count == 0 ==> a == ZERO
    ensures BaseAt(cache, k).Plus(Shipped(Delta(Cached(cache, k), a))) == a
    ensures CachedSnapshot(a) == a
  {
  }

  /** Nothing is shipped exactly when the total has not moved from the base, or, without
      one, when there are no samples. */
  lemma SilentIff(cache: map<string, Amount>, k: string, a: Amount)
    ensures Delta(Cached(cache, k), a).None? <==> if k in cache then a == cache[k] else a.count == 0
    ensures Snapshot(a).None? <==> a.count == 0
    ensures Snapshot(a).Some? ==> Snapshot(a).value == a
  {
  }

  // ---------------------------------------------------------------------
  // Envelopes
  // ---------------------------------------------------------------------

  datatype Envelope = Envelope(key: string, start: nat, end: nat, payload: Amount, full: bool, samples: nat, cfg: Config)

  /** An envelope and the incarnation that shipped it. */
  datatype Made = Made(id: nat, env: Envelope)

  /** Folding an incarnation's payloads with the additive `ApplyDelta`. */
  function Folded(made: seq<Made>, id: nat): (a: Amount)
  {
    if made == [] then ZERO
    else
      var m := made[|made| - 1];
      Folded(made[..|made| - 1], id).Plus(if m.id == id then m.env.payload else ZERO)
  }

  lemma FoldedSnoc(made: seq<Made>, m: Made)
    ensures forall id :: Folded(made + [m], id) == Folded(made, id).Plus(if m.id == id then m.env.payload else ZERO)
  {
    assert (made + [m])[..|made|] == made;
  }

  lemma {:induction false} FoldedUnknown(made: seq<Made>, id: nat)
    requires forall k :: 0 <= k < |made| ==> made[k].id != id
    ensures Folded(made, id) == ZERO
  {
    if made != [] {
      FoldedUnknown(made[..|made| - 1], id);
    }
  }
}
