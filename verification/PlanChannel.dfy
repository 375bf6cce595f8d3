/**
 The Go control channel: one plan at a time is staged, delivered and applied, and
 the last applied generation survives a restart.
 */
module PlanChannel {
  import opened Common

  datatype Plan = Plan(id: nat, version: nat, activationMs: nat, expiryMs: Option<nat>)

  datatype Applied = Applied(id: nat, version: nat)

  predicate Expired(p: Plan, nowMs: nat)
  {
    p.expiryMs.Some? && p.expiryMs.value <= nowMs
  }

  predicate Increasing(vs: seq<nat>)
  {
    forall i, j :: 0 <= i < j < |vs| ==> vs[i] < vs[j]
  }

  function Last(vs: seq<nat>): (v: nat)
  {
    if vs == [] then 0 else vs[|vs| - 1]
  }

  lemma IncreasingSnoc(vs: seq<nat>, v: nat)
    requires Increasing(vs) && v > Last(vs)
    ensures Increasing(vs + [v])
  {
    forall i | 0 <= i < |vs|
      ensures vs[i] < v
    {
      assert i < |vs| - 1 ==> vs[i] < vs[|vs| - 1];
    }
  }

  /** A plan taking effect at some time. */
  datatype Effect = Effect(plan: Plan, atMs: nat)

  ghost predicate Delivers(es: seq<Effect>, version: nat)
  {
    exists i :: 0 <= i < |es| && es[i].plan.version == version
  }

  ghost predicate AllDelivered(es: seq<Effect>, vs: seq<nat>)
  {
    forall i :: 0 <= i < |vs| ==> Delivers(es, vs[i])
  }

  lemma DeliveredMore(es: seq<Effect>, e: Effect, vs: seq<nat>)
    requires AllDelivered(es, vs)
    ensures AllDelivered(es + [e], vs)
  {
    forall i | 0 <= i < |vs|
      ensures Delivers(es + [e], vs[i])
    {
      assert Delivers(es, vs[i]);
      var j :| 0 <= j < |es| && es[j].plan.version == vs[i];
      assert (es + [e])[j] == es[j];
    }
  }

  lemma AppliedMore(es: seq<Effect>, vs: seq<nat>, v: nat)
    requires AllDelivered(es, vs) && es != [] && es[|es| - 1].plan.version == v
    ensures AllDelivered(es, vs + [v])
  {
  }

  /** Every plan took effect no earlier than its activation and before it expired. */
  ghost predicate Timely(es: seq<Effect>)
  {
    forall i :: 0 <= i < |es| ==>
      && es[i].plan.activationMs <= es[i].atMs
      && (es[i].plan.expiryMs.Some? ==> es[i].atMs < es[i].plan.expiryMs.value)
  }

  datatype Receipt = Staged | ExpiredPlan | ClosedChannel | Stale

  class Channel {
    /** Whether applied generations are recorded durably. */
    const stateFile: bool

    var closed: bool
    var pending: Option<Plan>
    var delivered: Option<Plan>
    var lastAcked: nat
    var maxVersion: nat

    /** The durable record; it outlives the process. */
    var durable: Option<Applied>

    /** Every version reported as applied, over all restarts, and how many of them
        before the last one. */
    ghost var applied: seq<nat>
    ghost var before: nat

    /** Every delivery, over all restarts. */
    ghost var deliveries: seq<Effect>

    ghost predicate Handed()
      reads `deliveries, `delivered, `applied
    {
      && Timely(deliveries)
      && (delivered.Some? ==> deliveries != [] && deliveries[|deliveries| - 1].plan == delivered.value)
      && AllDelivered(deliveries, applied)
    }

    ghost predicate Valid()
      reads this
    {
      && Handed() && !(pending.Some? && delivered.Some?)
      && (pending.Some? ==> pending.value.version == maxVersion)
      && (delivered.Some? ==> 0 < delivered.value.version == maxVersion)
      && before <= |applied| && Increasing(applied[before..]) && Last(applied[before..]) <= lastAcked <= maxVersion
      && (pending.Some? || delivered.Some? ==> lastAcked < maxVersion)
      && (durable.Some? ==> 0 < durable.value.version)
      && (stateFile ==> Increasing(applied) && Last(applied) <= lastAcked <= Recorded() <= maxVersion)
    }

    ghost function Recorded(): (v: nat)
      reads `durable
    {
      if durable.None? then 0 else durable.value.version
    }

    constructor (durably: bool)
      ensures Valid() && stateFile == durably && applied == [] && deliveries == [] && !closed && maxVersion == 0
      ensures pending == None && delivered == None
    {
      stateFile := durably;
      closed, pending, delivered, lastAcked, maxVersion := false, None, None, 0, 0;
      durable := None;
      applied, before, deliveries := [], 0, [];
    }

    /** A crash and a new channel over the same record. */
    method Restart()
      requires Valid()
      modifies this
      ensures Valid() && applied == old(applied) && deliveries == old(deliveries) && durable == old(durable) && !closed
      ensures pending == None && delivered == None
      ensures maxVersion == if stateFile && durable.Some? then durable.value.version else 0
    {
      closed, pending, delivered := false, None, None;
      lastAcked, maxVersion := 0, 0;
      if stateFile && durable.Some? {
        maxVersion := durable.value.version;
        lastAcked := durable.value.version;
      }
      assert applied[|applied|..] == [];
      before := |applied|;
    }

    /** Only a version newer than everything seen is staged, and only when nothing is
        pending or delivered. */
    method Receive(p: Plan, nowMs: nat) returns (r: Receipt)
      requires Valid()
      modifies `pending, `maxVersion
      ensures Valid()
      ensures r == ExpiredPlan <==> p.expiryMs.Some? && p.expiryMs.value <= nowMs
      ensures r == ClosedChannel <==> (p.expiryMs.Some? ==> nowMs < p.expiryMs.value) && closed
      ensures r == Staged <==> (p.expiryMs.Some? ==> nowMs < p.expiryMs.value) && !closed
                               && p.version > old(maxVersion) && old(pending).None? && delivered.None?
      ensures r == Staged ==> pending == Some(p) && maxVersion == p.version
      ensures r != Staged ==> pending == old(pending) && maxVersion == old(maxVersion)
    {
      if Expired(p, nowMs) {
        return ExpiredPlan;
      }
      if closed {
        return ClosedChannel;
      }
      if p.version <= maxVersion || pending.Some? || delivered.Some? {
        return Stale;
      }
      pending := Some(p);
      maxVersion := p.version;
      r := Staged;
    }

    /** A plan is delivered once, no earlier than its activation and before it
        expires. */
    method Poll(nowMs: nat) returns (r: Option<Plan>)
      requires Valid()
      modifies `pending, `delivered, `deliveries
      ensures Valid()
      ensures r.Some? <==> !closed && old(pending).Some? && old(pending).value.activationMs <= nowMs
                           && (old(pending).value.expiryMs.Some? ==> nowMs < old(pending).value.expiryMs.value)
      ensures r.Some? ==> r == old(pending) && delivered == r && pending == None
                          && deliveries == old(deliveries) + [Effect(r.value, nowMs)]
      ensures r.None? ==> delivered == old(delivered) && deliveries == old(deliveries)
                          && pending == if !closed && old(pending).Some? && old(pending).value.activationMs <= nowMs
                                        then None else old(pending)
    {
      if closed || pending.None? {
        return None;
      }
      if nowMs < pending.value.activationMs {
        return None;
      }
      if Expired(pending.value, nowMs) {
        pending := None;
        return None;
      }
      r := pending;
      ghost var e := Effect(pending.value, nowMs);
      DeliveredMore(deliveries, e, applied);
      deliveries := deliveries + [e];
      delivered := pending;
      pending := None;
    }

    /** Reports a version as applied only once the record is written; a failed write
        may or may not have landed. */
    method Ack(version: nat, written: bool, landed: bool) returns (reported: bool)
      requires Valid() && (written ==> landed)
      modifies `delivered, `lastAcked, `durable, `applied
      ensures Valid()
      ensures reported <==> !closed && old(delivered).Some? && version == old(delivered).value.version
                            && (stateFile ==> written)
      ensures reported ==> applied == old(applied) + [version] && delivered == None && lastAcked == version
      ensures durable == if stateFile && landed && !closed && old(delivered).Some? && version == old(delivered).value.version
                         then Some(Applied(old(delivered).value.id, version)) else old(durable)
      ensures !reported ==> applied == old(applied) && delivered == old(delivered)
    {
      hide Increasing, AllDelivered, Timely;
      if closed || delivered.None? || version != delivered.value.version {
        return false;
      }
      if stateFile {
        if landed {
          durable := Some(Applied(delivered.value.id, version));
        }
        if !written {
          return false;
        }
        IncreasingSnoc(applied, version);
      }
      ghost var since := applied[before..];
      IncreasingSnoc(since, version);
      assert (applied + [version])[before..] == since + [version];
      AppliedMore(deliveries, applied, version);
      lastAcked := version;
      applied := applied + [version];
      delivered := None;
      reported := true;
    }

    /** Drops the delivered plan without applying it. */
    method Reject(version: nat)
      requires Valid()
      modifies `delivered
      ensures Valid()
      ensures delivered == if !closed && old(delivered).Some? && version == old(delivered).value.version
                           then None else old(delivered)
    {
      if !closed && delivered.Some? && version == delivered.value.version {
        delivered := None;
      }
    }

    method Close()
      requires Valid()
      modifies `closed
      ensures Valid() && closed
    {
      closed := true;
    }

    /** Over all restarts, no plan was delivered before its activation or once expired,
        and nothing was applied that was not delivered. */
    lemma DeliveredInTime(i: nat)
      requires Valid()
      ensures i < |deliveries| ==>
                && deliveries[i].plan.activationMs <= deliveries[i].atMs
                && (deliveries[i].plan.expiryMs.Some? ==> deliveries[i].atMs < deliveries[i].plan.expiryMs.value)
      ensures i < |applied| ==> exists j :: 0 <= j < |deliveries| && deliveries[j].plan.version == applied[i]
    {
      assert i < |applied| ==> Delivers(deliveries, applied[i]);
    }

    /** At most one plan is in flight; applied versions strictly increase since the last
        restart, and with a state file over every restart. */
    lemma GenerationsMoveForward()
      requires Valid()
      ensures pending.None? || delivered.None?
      ensures before <= |applied| && Increasing(applied[before..])
      ensures stateFile ==> Increasing(applied)
    {
    }
  }

  /** Without a state file a restart forgets version 2 and version 1 is applied after
      it. */
  method ForgetfulExample() returns (c: Channel)
    ensures c.Valid() && !c.stateFile && c.applied == [2, 1] && !Increasing(c.applied)
  {
    c := new Channel(false);
    ApplyOnce(c, Plan(7, 2, 0, None));
    c.Restart();
    ApplyOnce(c, Plan(7, 1, 0, None));
    assert c.applied[0] == 2 && c.applied[1] == 1;
  }

  method ApplyOnce(c: Channel, p: Plan)
    requires c.Valid() && !c.closed && c.pending.None? && c.delivered.None? && c.maxVersion < p.version
    requires p.expiryMs.None? && p.activationMs == 0
    modifies c
    ensures c.Valid() && c.applied == old(c.applied) + [p.version] && !c.closed
  {
    var r := c.Receive(p, 0);
    var d := c.Poll(0);
    var ok := c.Ack(p.version, true, true);
  }
}
