/** The sender of summary frames: lineages, gapless sequences and checkpoints. */
module FrameSequencer {
  import opened Common
  import opened FrameWire

  datatype Error =
    | InvalidLineage | UnknownRule | FullRequired
    | InvalidField(name: string) | Incomplete | Checksum | Gap | Base | Conflict | InvalidKind

  datatype Result<+T> = Ok(value: T) | Err(error: Error)

  datatype Mode = FullMode | DeltaMode

  datatype Rule = Rule(materialization: nat, producer: string, schema: string, encoding: string,
                       mode: Mode, fullEveryMs: Option<nat>)

  datatype Plan = Plan(planId: nat, planVersion: nat, compat: string, collector: string, rules: seq<Rule>)

  datatype Lineage = Lineage(planId: nat, planVersion: nat, materialization: nat,
                             series: string, producer: string, epoch: string)

  datatype Frame = Frame(key: Lineage, compat: string, schema: string, encoding: string,
                         windowStart: nat, windowEnd: nat, sequence: nat, full: bool,
                         checkpoint: string, base: string)

  datatype Progress = Progress(sequence: nat, checkpoint: string, checkpointAtMs: nat)

  type Lineages = map<Lineage, Progress>

  /** An envelope awaiting identity; `emitted` is whether it holds full state, or
      `None` when the caller leaves the choice to the sequencer. */
  datatype Emission = Emission(series: string, windowStart: nat, windowEnd: nat, nowMs: nat, emitted: Option<bool>)

  function CheckpointId(producer: string, epoch: string, windowStart: nat, sequence: nat): (id: string)
    ensures id != ""
  {
    producer + ":" + epoch + ":" + Decimal(windowStart) + ":" + Decimal(sequence)
  }

  function LineageOf(plan: Plan, rule: Rule, epoch: string, e: Emission): (k: Lineage)
  {
    Lineage(plan.planId, plan.planVersion, rule.materialization, e.series, rule.producer, epoch)
  }

  function StateOf(m: Lineages, k: Lineage): (p: Progress)
  {
    if k in m then m[k] else Progress(0, "", 0)
  }

  predicate CheckpointDue(rule: Rule, p: Progress, nowMs: nat)
  {
    rule.fullEveryMs.Some? && nowMs >= p.checkpointAtMs && nowMs - p.checkpointAtMs >= rule.fullEveryMs.value
  }

  predicate MustBeFull(rule: Rule, p: Progress, nowMs: nat)
  {
    p.sequence == 0 || rule.mode == FullMode || CheckpointDue(rule, p, nowMs)
  }

  function Next(m: Lineages, plan: Plan, rule: Rule, epoch: string, e: Emission): (r: Result<(Frame, Lineages)>)
  {
    if epoch == "" || e.series == "" || e.windowStart >= e.windowEnd || rule.producer != plan.collector then
      Err(InvalidLineage)
    else if rule !in plan.rules then Err(UnknownRule)
    else
      var k := LineageOf(plan, rule, epoch, e);
      var p := StateOf(m, k);
      if MustBeFull(rule, p, e.nowMs) && e.emitted == Some(false) then Err(FullRequired)
      else
        var full := if e.emitted.Some? then e.emitted.value else MustBeFull(rule, p, e.nowMs);
        var seqNo := p.sequence + 1;
        var id := if full then CheckpointId(rule.producer, epoch, e.windowStart, seqNo) else p.checkpoint;
        var f := Frame(k, plan.compat, rule.schema, rule.encoding, e.windowStart, e.windowEnd, seqNo, full,
                       if full then id else "", if full then "" else id);
        Ok((f, m[k := Progress(seqNo, id, if full then e.nowMs else p.checkpointAtMs)]))
  }

  /** The frames of a batch, or the first error. */
  function NextBatch(m: Lineages, plan: Plan, rule: Rule, epoch: string, es: seq<Emission>)
    : (r: Result<(seq<Frame>, Lineages)>)
    ensures r.Ok? ==> |r.value.0| == |es|
  {
    if es == [] then Ok(([], m))
    else
      var n := |es| - 1;
      var init := NextBatch(m, plan, rule, epoch, es[..n]);
      if init.Err? then Err(init.error)
      else
        var last := Next(init.value.1, plan, rule, epoch, es[n]);
        if last.Err? then Err(last.error)
        else Ok((init.value.0 + [last.value.0], last.value.1))
  }

  /** When a full frame is owed: at the start of a lineage, under a rule for full frames,
      and once the interval since the last checkpoint has passed.  A delta is then
      refused; where the choice is left open a full frame is issued exactly then; and
      only a full frame moves the checkpoint. */
  lemma FullOwed(m: Lineages, plan: Plan, rule: Rule, epoch: string, e: Emission)
    requires epoch != "" && e.series != "" && e.windowStart < e.windowEnd && rule.producer == plan.collector
    requires rule in plan.rules
    ensures var k := LineageOf(plan, rule, epoch, e);
            var r := Next(m, plan, rule, epoch, e);
            var owed := || k !in m || m[k].sequence == 0 || rule.mode == FullMode
                        || (rule.fullEveryMs.Some? && m[k].checkpointAtMs <= e.nowMs
                            && m[k].checkpointAtMs + rule.fullEveryMs.value <= e.nowMs);
            && (r == Err(FullRequired) <==> owed && e.emitted == Some(false))
            && (r.Err? ==> r == Err(FullRequired))
            && (r.Ok? ==>
                  var (f, m') := r.value;
                  && f.full == (owed || e.emitted == Some(true)) && f.key == k && f.sequence == StateOf(m, k).sequence + 1
                  && m' == m[k := m'[k]] && m'[k].sequence == f.sequence
                  && (if f.full then m'[k].checkpointAtMs == e.nowMs && m'[k].checkpoint == f.checkpoint
                      else m'[k].checkpointAtMs == StateOf(m, k).checkpointAtMs
                           && m'[k].checkpoint == f.base == StateOf(m, k).checkpoint))
  {
  }

  /** Anything else about an emission that is refused. */
  lemma RefusedIff(m: Lineages, plan: Plan, rule: Rule, epoch: string, e: Emission)
    ensures var r := Next(m, plan, rule, epoch, e);
            && (r == Err(InvalidLineage) <==>
                  epoch == "" || e.series == "" || e.windowEnd <= e.windowStart || rule.producer != plan.collector)
            && (r == Err(UnknownRule) <==>
                  && epoch != "" && e.series != "" && e.windowStart < e.windowEnd && rule.producer == plan.collector
                  && rule !in plan.rules)
  {
  }

  /** A batch that fails early fails as a whole. */
  lemma {:induction false} BatchFails(m: Lineages, plan: Plan, rule: Rule, epoch: string, es: seq<Emission>, i: nat)
    requires i <= |es| && NextBatch(m, plan, rule, epoch, es[..i]).Err?
    ensures NextBatch(m, plan, rule, epoch, es) == NextBatch(m, plan, rule, epoch, es[..i])
    decreases |es|
  {
    hide Next;
    if i == |es| {
      assert es[..i] == es;
    } else {
      var n := |es| - 1;
      assert es[..n][..i] == es[..i];
      BatchFails(m, plan, rule, epoch, es[..n], i);
    }
  }

  class Sequencer {
    var lineages: Lineages

    constructor ()
      ensures lineages == map[]
    {
      lineages := map[];
    }

    method NextForEmission(plan: Plan, rule: Rule, epoch: string, e: Emission) returns (r: Result<Frame>)
      modifies this
      ensures var n := Next(old(lineages), plan, rule, epoch, e);
              if n.Ok? then r == Ok(n.value.0) && lineages == n.value.1
              else r == Err(n.error) && lineages == old(lineages)
    {
      if epoch == "" || e.series == "" || e.windowStart >= e.windowEnd || rule.producer != plan.collector {
        return Err(InvalidLineage);
      }
      if rule !in plan.rules {
        return Err(UnknownRule);
      }
      var key := LineageOf(plan, rule, epoch, e);
      var state := StateOf(lineages, key);
      var full := MustBeFull(rule, state, e.nowMs);
      if e.emitted.Some? {
        if full && !e.emitted.value {
          return Err(FullRequired);
        }
        full := e.emitted.value;
      }
      state := state.(sequence := state.sequence + 1);
      if full {
        state := state.(checkpoint := CheckpointId(rule.producer, epoch, e.windowStart, state.sequence),
                        checkpointAtMs := e.nowMs);
      }
      lineages := lineages[key := state];
      r := Ok(Frame(key, plan.compat, rule.schema, rule.encoding, e.windowStart, e.windowEnd, state.sequence, full,
                    if full then state.checkpoint else "", if full then "" else state.checkpoint));
    }

    /** All or nothing: a failing envelope leaves every lineage as it was. */
    method NextBatchForEmission(plan: Plan, rule: Rule, epoch: string, es: seq<Emission>)
      returns (r: Result<seq<Frame>>)
      modifies this
      ensures var n := NextBatch(old(lineages), plan, rule, epoch, es);
              if n.Ok? then r == Ok(n.value.0) && lineages == n.value.1
              else r == Err(n.error) && lineages == old(lineages)
    {
      hide Next;
      var candidate := new Sequencer();
      candidate.lineages := lineages;
      var frames: seq<Frame> := [];
      for i := 0 to |es|
        invariant lineages == old(lineages) && fresh(candidate)
        invariant NextBatch(lineages, plan, rule, epoch, es[..i]) == Ok((frames, candidate.lineages))
      {
        assert es[..i + 1][..i] == es[..i];
        var f := candidate.NextForEmission(plan, rule, epoch, es[i]);
        if f.Err? {
          BatchFails(lineages, plan, rule, epoch, es, i + 1);
          return Err(f.error);
        }
        frames := frames + [f.value];
      }
      assert es[..|es|] == es;
      lineages := candidate.lineages;
      r := Ok(frames);
    }
  }

  // ---------------------------------------------------------------------
  // What a lineage looks like
  // ---------------------------------------------------------------------

  /** A frame with the payload it was issued for. */
  datatype Sent = Sent(frame: Frame, payload: string)

  /** Checkpoint of the latest full frame, empty if there is none. */
  function LatestCheckpoint(xs: seq<Sent>): (id: string)
  {
    if xs == [] then ""
    else if xs[|xs| - 1].frame.full then xs[|xs| - 1].frame.checkpoint
    else LatestCheckpoint(xs[..|xs| - 1])
  }

  /** `f` continues the frames `xs` of lineage `k`: the next number, and either a
      new checkpoint or a delta against the latest one. */
  predicate Continues(k: Lineage, xs: seq<Sent>, f: Frame)
  {
    && f.key == k && f.sequence == |xs| + 1 && k.series != "" && k.epoch != ""
    && (if f.full then f.checkpoint != "" else f.base == LatestCheckpoint(xs) != "")
  }

  predicate Chain(k: Lineage, xs: seq<Sent>)
  {
    xs == [] || (Chain(k, xs[..|xs| - 1]) && Continues(k, xs[..|xs| - 1], xs[|xs| - 1].frame))
  }

  lemma {:induction false} ChainPrefix(k: Lineage, xs: seq<Sent>, n: nat)
    requires Chain(k, xs) && n <= |xs|
    ensures Chain(k, xs[..n])
    decreases |xs|
  {
    if n == |xs| {
      assert xs[..n] == xs;
    } else {
      var init := xs[..|xs| - 1];
      assert init[..n] == xs[..n];
      ChainPrefix(k, init, n);
    }
  }

  lemma ChainAt(k: Lineage, xs: seq<Sent>, n: nat)
    requires Chain(k, xs) && n < |xs|
    ensures Continues(k, xs[..n], xs[n].frame)
  {
    ChainPrefix(k, xs, n + 1);
    assert xs[..n + 1][..n] == xs[..n];
  }

  lemma ChainHasCheckpoint(k: Lineage, xs: seq<Sent>)
    requires Chain(k, xs) && xs != []
    ensures LatestCheckpoint(xs) != ""
  {
  }

  /** The sequencer's state of a lineage summarizes the frames it issued. */
  ghost predicate Summarizes(m: Lineages, issued: map<Lineage, seq<Sent>>)
  {
    && m.Keys == issued.Keys
    && forall k :: k in m ==> SummarizesAt(m[k], k, issued[k])
  }

  ghost predicate SummarizesAt(p: Progress, k: Lineage, xs: seq<Sent>)
  {
    xs != [] && Chain(k, xs) && p.sequence == |xs| && p.checkpoint == LatestCheckpoint(xs)
  }

  function IssuedFor(issued: map<Lineage, seq<Sent>>, k: Lineage): (xs: seq<Sent>)
  {
    if k in issued then issued[k] else []
  }

  /** Whatever the rule, the clock or the emitted kind, the next frame continues
      its lineage. */
  lemma NextContinues(m: Lineages, issued: map<Lineage, seq<Sent>>, plan: Plan, rule: Rule, epoch: string, e: Emission,
                      payload: string)
    requires Summarizes(m, issued) && Next(m, plan, rule, epoch, e).Ok?
    ensures var (f, m') := Next(m, plan, rule, epoch, e).value;
            && Continues(f.key, IssuedFor(issued, f.key), f)
            && Summarizes(m', issued[f.key := IssuedFor(issued, f.key) + [Sent(f, payload)]])
  {
    var (f, m') := Next(m, plan, rule, epoch, e).value;
    var xs := IssuedFor(issued, f.key);
    assert f.key in m ==> SummarizesAt(m[f.key], f.key, xs);
    if xs != [] {
      ChainHasCheckpoint(f.key, xs);
    }
    var ys := xs + [Sent(f, payload)];
    assert ys[..|xs|] == xs;
    forall k | k in m'
      ensures SummarizesAt(m'[k], k, issued[f.key := ys][k])
    {
      if k != f.key {
        assert SummarizesAt(m[k], k, issued[k]);
      }
    }
  }
}
