/**
 The Rust plan lifecycle: generations are staged, activated and retired.
 */
module PlanLifecycle {
  import opened Common
  import opened PlanChannel

  datatype Phase = StagedPhase | ActivePhase | DrainingPhase | RetiredPhase

  datatype Key = Key(id: nat, version: nat)

  datatype Refusal = Invalid | CannotStageExpired | AlreadyStaged | NotNewer
                   | NotStaged | TooEarly | CannotActivateExpired | Downgrade

  function KeyOf(p: Plan): (k: Key)
  {
    Key(p.id, p.version)
  }

  type Staging = map<Key, Plan>
  type Statuses = map<Key, Phase>

  /** Exactly the staged plans have the staged phase, under their own key, and no two
      generations share a version. */
  ghost predicate Catalogued(staged: Staging, statuses: Statuses)
  {
    && (forall k :: k in staged <==> k in statuses && statuses[k] == StagedPhase)
    && (forall k :: k in staged ==> KeyOf(staged[k]) == k)
    && (forall k :: k in statuses ==> k.version > 0)
    && (forall j, k :: j in statuses && k in statuses && j.version == k.version ==> j == k)
  }

  /** The active phase belongs to the active plan and to nothing else. */
  ghost predicate OneActive(active: Option<Plan>, statuses: Statuses)
  {
    && (active.Some? ==> KeyOf(active.value) in statuses && statuses[KeyOf(active.value)] == ActivePhase)
    && (forall k :: k in statuses && statuses[k] == ActivePhase ==> active.Some? && k == KeyOf(active.value))
  }

  lemma StageKeeps(active: Option<Plan>, staged: Staging, statuses: Statuses, p: Plan)
    requires Catalogued(staged, statuses) && OneActive(active, statuses) && p.version > 0
    requires forall k :: k in statuses ==> k.version < p.version
    ensures Catalogued(staged[KeyOf(p) := p], statuses[KeyOf(p) := StagedPhase])
    ensures OneActive(active, statuses[KeyOf(p) := StagedPhase])
  {
  }

  /** A staged generation leaves the staging area for another phase. */
  lemma LeaveStaging(staged: Staging, statuses: Statuses, k: Key, phase: Phase)
    requires Catalogued(staged, statuses) && k in staged && phase != StagedPhase
    ensures Catalogued(staged - {k}, statuses[k := phase])
  {
  }

  lemma ExpireKeeps(active: Option<Plan>, staged: Staging, statuses: Statuses, k: Key)
    requires Catalogued(staged, statuses) && OneActive(active, statuses) && k in staged
    ensures OneActive(active, statuses[k := RetiredPhase])
  {
  }

  function Drained(active: Option<Plan>, statuses: Statuses): (r: Statuses)
  {
    if active.Some? && KeyOf(active.value) in statuses then statuses[KeyOf(active.value) := DrainingPhase] else statuses
  }

  lemma ActivateKeeps(active: Option<Plan>, staged: Staging, statuses: Statuses, k: Key)
    requires Catalogued(staged, statuses) && OneActive(active, statuses) && k in staged
    ensures Catalogued(staged - {k}, Drained(active, statuses)[k := ActivePhase])
    ensures OneActive(Some(staged[k]), Drained(active, statuses)[k := ActivePhase])
  {
    assert Catalogued(staged, Drained(active, statuses));
    LeaveStaging(staged, Drained(active, statuses), k, ActivePhase);
  }

  function Larger(a: nat, b: nat): (r: nat)
  {
    if a > b then a else b
  }

  class Lifecycle {
    var active: Option<Plan>
    var staged: Staging
    var statuses: Statuses

    /** Versions that became active, in order. */
    ghost var history: seq<nat>

    /** When each of them did. */
    ghost var activations: seq<Effect>

    ghost predicate Valid()
      reads this
    {
      && Catalogued(staged, statuses) && OneActive(active, statuses) && Increasing(history)
      && (active.Some? ==> history != [] && Last(history) == active.value.version)
      && (active.None? ==> history == [])
      && Timely(activations) && |activations| == |history|
      && forall i :: 0 <= i < |history| ==> activations[i].plan.version == history[i]
    }

    constructor ()
      ensures Valid() && active == None && history == []
    {
      active, staged, statuses, history, activations := None, map[], map[], [], [];
    }

    /** The newest version of any known generation. */
    method NewestKnown() returns (v: nat)
      requires Valid()
      ensures forall k :: k in statuses ==> k.version <= v
      ensures active.Some? ==> active.value.version <= v
      ensures v == 0 || exists k :: k in statuses && k.version == v
    {
      v := 0;
      var todo := statuses.Keys;
      while todo != {}
        invariant todo <= statuses.Keys
        invariant forall k :: k in statuses && k !in todo ==> k.version <= v
        invariant v == 0 || exists k :: k in statuses && k.version == v
        decreases |todo|
      {
        var k :| k in todo;
        if k.version > v {
          v := k.version;
        }
        todo := todo - {k};
      }
      if active.Some? {
        assert KeyOf(active.value) in statuses;
        v := Larger(v, active.value.version);
      }
    }

    /** Only a valid, unexpired plan newer than every known generation is staged; the
        active plan is untouched. */
    method Stage(p: Plan, valid: bool, nowMs: nat) returns (r: Option<Refusal>)
      requires Valid()
      modifies `staged, `statuses
      ensures Valid()
      ensures r.None? <==> valid && (p.expiryMs.Some? ==> nowMs < p.expiryMs.value) && p.version > 0
                           && forall k :: k in old(statuses) ==> k.version < p.version
      ensures r == Some(Invalid) <==> !valid
      ensures r == Some(CannotStageExpired) <==> valid && p.expiryMs.Some? && p.expiryMs.value <= nowMs
      ensures r == Some(AlreadyStaged) <==>
                valid && (p.expiryMs.Some? ==> nowMs < p.expiryMs.value) && Key(p.id, p.version) in old(statuses)
      ensures r.None? ==> staged == old(staged)[KeyOf(p) := p] && statuses == old(statuses)[KeyOf(p) := StagedPhase]
      ensures r.Some? ==> staged == old(staged) && statuses == old(statuses)
    {
      if !valid {
        return Some(Invalid);
      }
      if Expired(p, nowMs) {
        return Some(CannotStageExpired);
      }
      if KeyOf(p) in statuses {
        return Some(AlreadyStaged);
      }
      var newest := NewestKnown();
      if p.version <= newest {
        return Some(NotNewer);
      }
      StageKeeps(active, staged, statuses, p);
      statuses := statuses[KeyOf(p) := StagedPhase];
      staged := staged[KeyOf(p) := p];
      r := None;
    }

    /** A due, unexpired, newer staged plan becomes the only active one. */
    method Activate(k: Key, nowMs: nat) returns (r: Option<Refusal>)
      requires Valid()
      modifies this
      ensures Valid()
      ensures r.None? <==> k in old(staged) && old(staged)[k].activationMs <= nowMs
                           && (old(staged)[k].expiryMs.Some? ==> nowMs < old(staged)[k].expiryMs.value)
                           && (old(active).Some? ==> old(active).value.version < k.version)
      ensures r == Some(NotStaged) <==> k !in old(staged)
      ensures r == Some(TooEarly) <==> k in old(staged) && nowMs < old(staged)[k].activationMs
      ensures r == Some(CannotActivateExpired) <==>
                k in old(staged) && old(staged)[k].activationMs <= nowMs
                && old(staged)[k].expiryMs.Some? && old(staged)[k].expiryMs.value <= nowMs
      ensures r.None? ==> active == Some(old(staged)[k]) && history == old(history) + [k.version]
                          && activations == old(activations) + [Effect(old(staged)[k], nowMs)]
                          && staged == old(staged) - {k}
                          && statuses == Drained(old(active), old(statuses))[k := ActivePhase]
      ensures r.Some? ==> active == old(active) && history == old(history) && activations == old(activations)
      ensures r.Some? && r != Some(CannotActivateExpired) ==> staged == old(staged) && statuses == old(statuses)
      ensures r == Some(CannotActivateExpired) ==>
                staged == old(staged) - {k} && statuses == old(statuses)[k := RetiredPhase]
    {
      hide Catalogued, OneActive;
      if k !in staged {
        return Some(NotStaged);
      }
      StagedFacts(k);
      var p := staged[k];
      if nowMs < p.activationMs {
        return Some(TooEarly);
      }
      if Expired(p, nowMs) {
        LeaveStaging(staged, statuses, k, RetiredPhase);
        ExpireKeeps(active, staged, statuses, k);
        staged := staged - {k};
        statuses := statuses[k := RetiredPhase];
        return Some(CannotActivateExpired);
      }
      if active.Some? && active.value.version >= p.version {
        return Some(Downgrade);
      }
      IncreasingSnoc(history, p.version);
      ActivateKeeps(active, staged, statuses, k);
      if active.Some? && KeyOf(active.value) in statuses {
        statuses := statuses[KeyOf(active.value) := DrainingPhase];
      }
      active := Some(p);
      staged := staged - {k};
      statuses := statuses[k := ActivePhase];
      history, activations := history + [p.version], activations + [Effect(p, nowMs)];
      r := None;
    }

    lemma StagedFacts(k: Key)
      requires Valid() && k in staged
      ensures KeyOf(staged[k]) == k && k.version > 0
    {
    }

    /** Draining generations are retired; nothing else changes. */
    method RetireDrained()
      requires Valid()
      modifies `statuses
      ensures Valid() && statuses.Keys == old(statuses).Keys
      ensures forall k :: k in statuses ==>
                statuses[k] == if old(statuses)[k] == DrainingPhase then RetiredPhase else old(statuses)[k]
    {
      var todo := statuses.Keys;
      ghost var s0 := statuses;
      while todo != {}
        invariant todo <= statuses.Keys == s0.Keys
        invariant forall k :: k in s0 ==>
                    statuses[k] == if k !in todo && s0[k] == DrainingPhase then RetiredPhase else s0[k]
        decreases |todo|
      {
        var k :| k in todo;
        if statuses[k] == DrainingPhase {
          statuses := statuses[k := RetiredPhase];
        }
        todo := todo - {k};
      }
    }

    /** No generation ever became active before its activation time or once expired. */
    lemma ActivatedInTime(i: nat)
      requires Valid() && i < |history|
      ensures i < |activations| && activations[i].plan.version == history[i]
      ensures activations[i].plan.activationMs <= activations[i].atMs
      ensures activations[i].plan.expiryMs.Some? ==> activations[i].atMs < activations[i].plan.expiryMs.value
    {
    }

    /** At most one generation is active, it is the active plan's, and active versions
        have strictly increased. */
    lemma ActiveIsUnique(j: Key, k: Key)
      requires Valid() && j in statuses && k in statuses
      ensures statuses[j] == ActivePhase && statuses[k] == ActivePhase ==> j == k
      ensures statuses[j] == ActivePhase <==> active.Some? && KeyOf(active.value) == j
      ensures Increasing(history)
    {
    }
  }
}
