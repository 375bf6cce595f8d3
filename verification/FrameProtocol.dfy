/**
 Sender and receiver over a network that loses, duplicates, reorders and damages
 frames, as one state machine.
 */
module FrameProtocol {
  import opened Common
  import opened Wire
  import opened FrameWire
  import opened FrameSequencer
  import opened FrameReceiver

  /** `issued` and `committed` are histories: the frames the sender issued per
      lineage, and the envelopes the receiver committed, as they were delivered, for
      each lineage it retains. */
  datatype System = System(sender: Lineages, issued: map<Lineage, seq<Sent>>,
                           table: Table, clock: nat, committed: map<Lineage, seq<Envelope>>)

  function Init(): (s: System)
  {
    System(map[], map[], map[], 0, map[])
  }

  /** An envelope that carries one of the frames issued so far. */
  ghost predicate Genuine(h: Hashes, s: System, e: Envelope, k: Lineage, i: nat)
  {
    k in s.issued && i < |s.issued[k]| && Carries(h, e, s.issued[k][i])
  }

  /** What the network may deliver: any frame issued so far, any number of times
      and in any order; unframed input; or anything that fails its checksum. */
  ghost predicate Deliverable(h: Hashes, s: System, e: Envelope)
  {
    e.attrs == map[] || !Verifies(h, e) || exists k, i :: Genuine(h, s, e, k, i)
  }

  datatype Event =
    | Emit(plan: Plan, rule: Rule, epoch: string, emission: Emission, payload: string)
    | Deliver(envelope: Envelope, limit: nat, observed: bool)

  function EmitStep(s: System, plan: Plan, rule: Rule, epoch: string, e: Emission, payload: string): (r: System)
  {
    var n := Next(s.sender, plan, rule, epoch, e);
    if n.Err? then s
    else
      var f := n.value.0;
      s.(sender := n.value.1, issued := s.issued[f.key := IssuedFor(s.issued, f.key) + [Sent(f, payload)]])
  }

  /** The frame is prepared, the window observes it, and only if that succeeds is
      the receipt committed. */
  ghost predicate DeliverStep(h: Hashes, s: System, e: Envelope, limit: nat, observed: bool, s': System)
  {
    var (r, t, clock) := Prepare(h, s.table, s.clock, e, limit);
    && s'.sender == s.sender && s'.issued == s.issued && s'.clock == clock
    && if r.Err? || !r.value.Accepted? || !observed then s'.table == t && s'.committed == s.committed
       else exists forgotten :: CommitStep(s, t, e, r.value, forgotten, s')
  }

  /** The envelope is recorded under the lineage of its receipt. */
  ghost predicate CommitStep(s: System, t: Table, e: Envelope, r: Receipt, forgotten: Option<Lineage>, s': System)
    requires r.Accepted?
  {
    Commits(t, r, s'.table, forgotten) && s'.committed == Recorded(s.committed, r.key, e, forgotten)
  }

  function Recorded(m: map<Lineage, seq<Envelope>>, k: Lineage, e: Envelope, forgotten: Option<Lineage>)
    : (r: map<Lineage, seq<Envelope>>)
  {
    var kept := if forgotten.Some? then m - {forgotten.value} else m;
    kept[k := (if k in kept then kept[k] else []) + [e]]
  }

  /** No lineage has used up the 64-bit sequence numbers. */
  ghost predicate Short(s: System)
  {
    forall k :: k in s.issued ==> |s.issued[k]| < TWO64
  }

  ghost predicate Step(h: Hashes, s: System, e: Event, s': System)
  {
    match e
    case Emit(plan, rule, epoch, emission, payload) => s' == EmitStep(s, plan, rule, epoch, emission, payload) && Short(s')
    case Deliver(env, limit, observed) => Deliverable(h, s, env) && DeliverStep(h, s, env, limit, observed, s')
  }

  // ---------------------------------------------------------------------
  // The invariant
  // ---------------------------------------------------------------------

  /** The receiver's state of a retained lineage summarizes a prefix of what was
      issued. */
  ghost predicate Tracks(h: Hashes, r: Received, xs: seq<Sent>)
  {
    && 0 < r.sequence <= |xs|
    && r.checkpoint == LatestCheckpoint(xs[..r.sequence])
    && r.fingerprint == FingerprintOf(h, xs[r.sequence - 1])
  }

  ghost function FingerprintOf(h: Hashes, x: Sent): (s: string)
  {
    h.stamp(h.digest(Signed(AttributesOf(x.frame), x.payload)), x.payload)
  }

  /** The envelopes carry the first of the frames, one each and in order. */
  ghost predicate Delivered(h: Hashes, done: seq<Envelope>, xs: seq<Sent>)
  {
    |done| <= |xs| && forall i :: 0 <= i < |done| ==> Carries(h, done[i], xs[i])
  }

  ghost predicate Inv(h: Hashes, s: System)
  {
    && Summarizes(s.sender, s.issued)
    && s.table.Keys == s.committed.Keys
    && forall k :: k in s.table ==> k in s.issued && Acceptable(k) && InvAt(h, s.table[k], s.issued[k], s.committed[k])
  }

  ghost predicate InvAt(h: Hashes, r: Received, xs: seq<Sent>, done: seq<Envelope>)
  {
    Tracks(h, r, xs) && |done| == r.sequence && Delivered(h, done, xs) && done != []
  }

  lemma EmitKeeps(h: Hashes, s: System, plan: Plan, rule: Rule, epoch: string, e: Emission, payload: string)
    requires Inv(h, s)
    ensures Inv(h, EmitStep(s, plan, rule, epoch, e, payload))
  {
    var n := Next(s.sender, plan, rule, epoch, e);
    hide Next, FingerprintOf, Carries, LatestCheckpoint;
    if n.Ok? {
      NextContinues(s.sender, s.issued, plan, rule, epoch, e, payload);
      var f := n.value.0;
      var ys := IssuedFor(s.issued, f.key) + [Sent(f, payload)];
      var s' := EmitStep(s, plan, rule, epoch, e, payload);
      forall k | k in s.table
        ensures InvAt(h, s.table[k], s'.issued[k], s.committed[k])
      {
        assert InvAt(h, s.table[k], s.issued[k], s.committed[k]);
        if k == f.key {
          TracksLonger(h, s.table[k], s.issued[k], Sent(f, payload));
        }
      }
    }
  }

  lemma TracksLonger(h: Hashes, r: Received, xs: seq<Sent>, x: Sent)
    requires Tracks(h, r, xs)
    ensures Tracks(h, r, xs + [x]) && (xs + [x])[..r.sequence] == xs[..r.sequence]
  {
    assert (xs + [x])[..r.sequence] == xs[..r.sequence];
  }

  /** How a genuine frame reads. */
  lemma GenuineReads(h: Hashes, s: System, e: Envelope, k: Lineage, i: nat)
    requires HexDigest(h) && Inv(h, s) && Genuine(h, s, e, k, i) && i + 1 < TWO64
    ensures Verifies(h, e) && e.attrs != map[] && Fingerprint(h, e) == FingerprintOf(h, s.issued[k][i])
    ensures Continues(k, s.issued[k][..i], s.issued[k][i].frame)
    ensures var f := s.issued[k][i].frame;
            if Acceptable(k) then ParseHead(e.attrs) == Ok(Head(k, i + 1, KindOf(f), f.checkpoint, f.base))
            else ParseHead(e.attrs).Err?
  {
    hide Verifies, ParseHead, LatestCheckpoint, AttributesOf, Signed;
    var x := s.issued[k][i];
    assert SummarizesAt(s.sender[k], k, s.issued[k]);
    ChainAt(k, s.issued[k], i);
    GenuineVerifies(h, e, x);
    GenuineHead(x.frame, e.attrs[CHECKSUM]);
  }

  lemma PositionIs(h: Hashes, s: System, k: Lineage)
    requires Inv(h, s) && k in s.issued
    ensures Taken(s.table, k) <= |s.issued[k]|
    ensures var p := Previous(s.table, k);
            p.sequence == Taken(s.table, k) && p.checkpoint == LatestCheckpoint(s.issued[k][..p.sequence])
  {
    if k in s.table {
      assert InvAt(h, s.table[k], s.issued[k], s.committed[k]);
    }
  }

  /** What the receiver makes of genuine frame `i` of a lineage, given how far it
      has got: the next one is accepted, the latest one is a duplicate, and any
      other is a gap. */
  lemma GenuineVerdict(h: Hashes, s: System, e: Envelope, k: Lineage, i: nat, limit: nat)
    requires HexDigest(h) && Inv(h, s) && Genuine(h, s, e, k, i) && i + 1 < TWO64 && Acceptable(k)
    ensures var n, f := Taken(s.table, k), s.issued[k][i].frame;
            var r := Prepare(h, s.table, s.clock, e, limit).0;
            && (i == n ==> r == Ok(Accepted(k, Received(i + 1, LatestCheckpoint(s.issued[k][..i + 1]),
                                                        Fingerprint(h, e), s.clock + 1),
                                            if limit == 0 then DEFAULT_LIMIT else limit)))
            && (i + 1 == n ==> r == Ok(Duplicate))
            && (i != n && i + 1 != n ==> r == Err(Gap))
  {
    hide Verifies, ParseHead, Fingerprint, FingerprintOf, Carries, Summarizes;
    GenuineReads(h, s, e, k, i);
    PositionIs(h, s, k);
    var n := Taken(s.table, k);
    if i + 1 == n {
      assert InvAt(h, s.table[k], s.issued[k], s.committed[k]);
    } else if i == n {
      CheckpointStep(s.issued[k], i);
    }
  }

  lemma CheckpointStep(xs: seq<Sent>, i: nat)
    requires i < |xs|
    ensures LatestCheckpoint(xs[..i + 1]) ==
            if xs[i].frame.full then xs[i].frame.checkpoint else LatestCheckpoint(xs[..i])
  {
    assert xs[..i + 1][..i] == xs[..i];
  }

  /** The next genuine frame in order is accepted exactly when its lineage can be
      parsed at all; it is never refused with a gap, base, replay or checksum error. */
  lemma NextInOrderAccepted(h: Hashes, s: System, e: Envelope, k: Lineage, limit: nat)
    requires HexDigest(h) && Inv(h, s) && Genuine(h, s, e, k, Taken(s.table, k)) && Taken(s.table, k) + 1 < TWO64
    ensures var r := Prepare(h, s.table, s.clock, e, limit).0;
            && (r.Ok? && r.value.Accepted? <==> Acceptable(k))
            && (r.Err? ==> r.error.InvalidField? || r.error == Incomplete)
  {
    if Acceptable(k) {
      GenuineVerdict(h, s, e, k, Taken(s.table, k), limit);
    } else {
      hide Verifies, Summarizes;
      GenuineReads(h, s, e, k, Taken(s.table, k));
      ParseErrors(e.attrs);
    }
  }

  lemma ParseErrors(a: Attributes)
    ensures ParseHead(a).Err? ==> ParseHead(a).error.InvalidField? || ParseHead(a).error == Incomplete
  {
    hide ParseUint;
  }

  // ---------------------------------------------------------------------
  // Every step keeps it
  // ---------------------------------------------------------------------

  lemma TouchKeeps(h: Hashes, s: System, k: Lineage, lastUsed: nat, clock: nat)
    requires Inv(h, s) && k in s.table
    ensures Inv(h, s.(table := s.table[k := s.table[k].(lastUsed := lastUsed)], clock := clock))
  {
    hide Summarizes, FingerprintOf, Delivered, LatestCheckpoint, Acceptable;
    var s' := s.(table := s.table[k := s.table[k].(lastUsed := lastUsed)], clock := clock);
    forall j | j in s'.table
      ensures j in s'.issued && Acceptable(j) && InvAt(h, s'.table[j], s'.issued[j], s'.committed[j])
    {
      assert InvAt(h, s.table[j], s.issued[j], s.committed[j]);
    }
  }

  lemma CommitKeeps(h: Hashes, s: System, e: Envelope, r: Receipt, forgotten: Option<Lineage>, s': System)
    requires Inv(h, s) && r.Accepted? && CommitStep(s, s.table, e, r, forgotten, s')
    requires s'.sender == s.sender && s'.issued == s.issued
    requires r.state.sequence == Taken(s.table, r.key) + 1 && Acceptable(r.key)
    requires Genuine(h, s, e, r.key, r.state.sequence - 1) && Tracks(h, r.state, s.issued[r.key])
    ensures Inv(h, s')
  {
    hide Summarizes, Tracks, Taken, Carries, Acceptable;
    var k := r.key;
    assert s'.table.Keys == s'.committed.Keys;
    forall j | j in s'.table
      ensures j in s'.issued && Acceptable(j) && InvAt(h, s'.table[j], s'.issued[j], s'.committed[j])
    {
      if j == k {
        RecordedPrefix(h, s, e, k, r.state.sequence, forgotten);
      } else {
        assert InvAt(h, s.table[j], s.issued[j], s.committed[j]);
      }
    }
  }

  /** Recording the next frame extends the committed prefix, also for a lineage
      seen for the first time. */
  lemma RecordedPrefix(h: Hashes, s: System, e: Envelope, k: Lineage, n: nat, forgotten: Option<Lineage>)
    requires Inv(h, s) && n == Taken(s.table, k) + 1 && Genuine(h, s, e, k, n - 1)
    requires forgotten.Some? ==> k !in s.table
    ensures var done := Recorded(s.committed, k, e, forgotten)[k];
            |done| == n && Delivered(h, done, s.issued[k]) && done != []
  {
    hide Summarizes, Tracks, Carries;
    if k in s.table {
      assert InvAt(h, s.table[k], s.issued[k], s.committed[k]);
    }
  }

  lemma DeliverKeeps(h: Hashes, s: System, e: Envelope, limit: nat, observed: bool, s': System)
    requires HexDigest(h) && Inv(h, s) && Short(s) && Deliverable(h, s, e) && DeliverStep(h, s, e, limit, observed, s')
    ensures Inv(h, s')
  {
    hide Verifies, ParseHead, Fingerprint, Carries, Summarizes, InvAt, Judge, Commits;
    if e.attrs != map[] && Verifies(h, e) {
      var k, i :| Genuine(h, s, e, k, i);
      GenuineReads(h, s, e, k, i);
      if Acceptable(k) {
        GenuineVerdict(h, s, e, k, i, limit);
        GenuineDelivered(h, s, e, k, i, limit, observed, s');
      }
    }
  }

  lemma GenuineDelivered(h: Hashes, s: System, e: Envelope, k: Lineage, i: nat, limit: nat, observed: bool, s': System)
    requires HexDigest(h) && Inv(h, s) && Short(s) && Genuine(h, s, e, k, i) && Acceptable(k)
    requires DeliverStep(h, s, e, limit, observed, s')
    ensures Inv(h, s')
  {
    hide Verifies, ParseHead, Fingerprint, FingerprintOf, Carries, Summarizes, InvAt, Judge, Commits, LatestCheckpoint;
    GenuineReads(h, s, e, k, i);
    GenuineVerdict(h, s, e, k, i, limit);
    var n := Taken(s.table, k);
    var (r, t, clock) := Prepare(h, s.table, s.clock, e, limit);
    if i + 1 == n {
      TouchKeeps(h, s, k, s.clock + 1, s.clock + 1);
    } else if i == n && observed {
      var forgotten :| CommitStep(s, t, e, r.value, forgotten, s');
      CommitKeeps(h, s, e, r.value, forgotten, s');
    }
  }

  lemma StepKeeps(h: Hashes, s: System, e: Event, s': System)
    requires HexDigest(h) && Inv(h, s) && Short(s) && Step(h, s, e, s')
    ensures Inv(h, s') && Short(s')
  {
    hide Inv, EmitStep, DeliverStep, Deliverable;
    match e
    case Emit(plan, rule, epoch, emission, payload) =>
      EmitKeeps(h, s, plan, rule, epoch, emission, payload);
    case Deliver(env, limit, observed) =>
      DeliverKeeps(h, s, env, limit, observed, s');
      DeliverIssues(h, s, env, limit, observed, s');
  }

  lemma DeliverIssues(h: Hashes, s: System, e: Envelope, limit: nat, observed: bool, s': System)
    requires DeliverStep(h, s, e, limit, observed, s')
    ensures s'.issued == s.issued
  {
    hide Prepare, CommitStep;
  }

  // ---------------------------------------------------------------------
  // Whole runs
  // ---------------------------------------------------------------------

  ghost predicate Run(h: Hashes, ss: seq<System>, es: seq<Event>)
  {
    && |ss| == |es| + 1 && ss[0] == Init()
    && forall i :: 0 <= i < |es| ==> Step(h, ss[i], es[i], ss[i + 1])
  }

  lemma {:induction false} RunInv(h: Hashes, ss: seq<System>, es: seq<Event>, n: nat)
    requires HexDigest(h) && Run(h, ss, es) && n <= |es|
    ensures Inv(h, ss[n]) && Short(ss[n])
    decreases n
  {
    if n > 0 {
      RunInv(h, ss, es, n - 1);
      assert Step(h, ss[n - 1], es[n - 1], ss[n]);
      StepKeeps(h, ss[n - 1], es[n - 1], ss[n]);
    }
  }

  /** The checkpoint of the latest full frame among the envelopes. */
  function LatestNamed(es: seq<Envelope>): (id: string)
  {
    if es == [] then ""
    else
      var a := es[|es| - 1].attrs;
      if Attr(a, KIND) == "full" then Attr(a, CHECKPOINT) else LatestNamed(es[..|es| - 1])
  }

  lemma {:induction false} LatestSame(h: Hashes, es: seq<Envelope>, xs: seq<Sent>)
    requires Delivered(h, es, xs)
    ensures LatestNamed(es) == LatestCheckpoint(xs[..|es|])
    decreases |es|
  {
    hide AttributesOf, Attr, Lower;
    if es != [] {
      var n := |es| - 1;
      assert xs[..|es|][..n] == xs[..n];
      LatestSame(h, es[..n], xs);
      assert Carries(h, es[n], xs[n]);
      GenuineLookup(xs[n].frame, es[n].attrs[CHECKSUM]);
    } else {
      assert xs[..0] == [];
    }
  }

  /** What was delivered and committed for lineage `k`: envelopes numbered from 1, each
      a full frame or a delta on the latest full frame before it. */
  ghost predicate WellBased(k: Lineage, es: seq<Envelope>)
  {
    forall i :: 0 <= i < |es| ==> Follows(k, es[..i], es[i].attrs)
  }

  ghost predicate Follows(k: Lineage, done: seq<Envelope>, a: Attributes)
  {
    && Names(a, k, |done| + 1)
    && (if Attr(a, "asap.frame.kind") == "full" then Attr(a, "asap.frame.checkpoint_id") != ""
        else Attr(a, "asap.frame.kind") == "delta"
             && Attr(a, "asap.frame.base_checkpoint_id") == LatestNamed(done) != "")
  }

  // ---------------------------------------------------------------------
  // The receiver alone
  // ---------------------------------------------------------------------

  /** What the receiver knows of a lineage agrees with the envelopes it took. */
  ghost predicate LedgerAt(h: Hashes, k: Lineage, r: Received, done: seq<Envelope>)
  {
    && done != [] && |done| == r.sequence && r.checkpoint == LatestNamed(done)
    && r.fingerprint == Fingerprint(h, done[|done| - 1])
    && WellBased(k, done) && forall i :: 0 <= i < |done| ==> Verifies(h, done[i])
  }

  ghost predicate Ledger(h: Hashes, t: Table, committed: map<Lineage, seq<Envelope>>)
  {
    && t.Keys == committed.Keys
    && forall k :: k in t ==> LedgerAt(h, k, t[k], committed[k])
  }

  lemma FollowsSnoc(k: Lineage, done: seq<Envelope>, e: Envelope)
    requires WellBased(k, done) && Follows(k, done, e.attrs)
    ensures WellBased(k, done + [e])
    ensures LatestNamed(done + [e]) ==
            if Attr(e.attrs, "asap.frame.kind") == "full" then Attr(e.attrs, "asap.frame.checkpoint_id")
            else LatestNamed(done)
  {
    hide Follows;
    var all := done + [e];
    assert all[..|done|] == done;
    forall i | 0 <= i < |all|
      ensures Follows(k, all[..i], all[i].attrs)
    {
      if i < |done| {
        assert all[..i] == done[..i];
        assert Follows(k, done[..i], done[i].attrs);
      }
    }
  }

  ghost function DoneFor(committed: map<Lineage, seq<Envelope>>, k: Lineage): (done: seq<Envelope>)
  {
    if k in committed then committed[k] else []
  }

  /** An accepted envelope follows what its lineage has so far. */
  lemma AcceptedFollows(h: Hashes, t: Table, clock: nat, committed: map<Lineage, seq<Envelope>>, e: Envelope, limit: nat)
    requires Ledger(h, t, committed)
    requires var r := Prepare(h, t, clock, e, limit).0; r.Ok? && r.value.Accepted?
    ensures var (r, t', _) := Prepare(h, t, clock, e, limit);
            var done := DoneFor(committed, r.value.key);
            && t' == t && r.value.limit > 0
            && Verifies(h, e) && Follows(r.value.key, done, e.attrs)
            && LedgerAt(h, r.value.key, r.value.state, done + [e])
  {
    hide ParseHead, Verifies, Fingerprint, Attr, Names, Prepare, LatestNamed, WellBased;
    TakenFrame(h, t, clock, e, limit);
    var r := Prepare(h, t, clock, e, limit).0;
    var k, n := r.value.key, r.value.state.sequence;
    VerdictIs(h, t, clock, e, k, n, limit);
    var done := DoneFor(committed, k);
    if k in t {
      assert LedgerAt(h, k, t[k], committed[k]);
    } else {
      NothingBased(k);
    }
    FollowsSnoc(k, done, e);
  }

  lemma NothingBased(k: Lineage)
    ensures WellBased(k, []) && LatestNamed([]) == ""
  {
  }

  /** What is accepted verifies and names its lineage and number. */
  lemma TakenFrame(h: Hashes, t: Table, clock: nat, e: Envelope, limit: nat)
    requires var r := Prepare(h, t, clock, e, limit).0; r.Ok? && r.value.Accepted?
    ensures var r := Prepare(h, t, clock, e, limit).0.value;
            Verifies(h, e) && Names(e.attrs, r.key, r.state.sequence)
  {
    hide ParseHead, Verifies, Fingerprint, Names;
    var r := Prepare(h, t, clock, e, limit).0.value;
    HeadIff(e.attrs, r.key, r.state.sequence);
  }

  lemma TouchLedger(h: Hashes, t: Table, committed: map<Lineage, seq<Envelope>>, k: Lineage, lastUsed: nat)
    requires Ledger(h, t, committed) && k in t
    ensures Ledger(h, t[k := t[k].(lastUsed := lastUsed)], committed)
  {
    hide WellBased, LatestNamed, Fingerprint, Verifies;
    var t' := t[k := t[k].(lastUsed := lastUsed)];
    forall j | j in t'
      ensures LedgerAt(h, j, t'[j], committed[j])
    {
      assert LedgerAt(h, j, t[j], committed[j]);
    }
  }

  lemma CommitLedger(h: Hashes, t: Table, committed: map<Lineage, seq<Envelope>>, e: Envelope, r: Receipt,
                     forgotten: Option<Lineage>, t': Table)
    requires Ledger(h, t, committed) && r.Accepted? && Commits(t, r, t', forgotten)
    requires LedgerAt(h, r.key, r.state, DoneFor(committed, r.key) + [e])
    ensures Ledger(h, t', Recorded(committed, r.key, e, forgotten))
  {
    hide LedgerAt;
    var m := Recorded(committed, r.key, e, forgotten);
    assert t'.Keys == m.Keys;
    forall j | j in t'
      ensures LedgerAt(h, j, t'[j], m[j])
    {
      if j != r.key {
        assert LedgerAt(h, j, t[j], committed[j]);
      }
    }
  }

  /** Whatever arrives, forged or not. */
  lemma LedgerKeeps(h: Hashes, s: System, e: Envelope, limit: nat, observed: bool, s': System)
    requires Ledger(h, s.table, s.committed) && DeliverStep(h, s, e, limit, observed, s')
    ensures Ledger(h, s'.table, s'.committed)
  {
    hide Prepare, LedgerAt, Commits, Ledger;
    var (r, t, clock) := Prepare(h, s.table, s.clock, e, limit);
    if r.Ok? && r.value.Accepted? {
      AcceptedFollows(h, s.table, s.clock, s.committed, e, limit);
      if observed {
        var forgotten :| CommitStep(s, t, e, r.value, forgotten, s');
        CommitLedger(h, s.table, s.committed, e, r.value, forgotten, s'.table);
      }
    } else {
      NotTaken(h, s.table, s.clock, s.committed, e, limit);
    }
  }

  lemma NotTaken(h: Hashes, t: Table, clock: nat, committed: map<Lineage, seq<Envelope>>, e: Envelope, limit: nat)
    requires Ledger(h, t, committed)
    requires var r := Prepare(h, t, clock, e, limit).0; r.Err? || !r.value.Accepted?
    ensures Ledger(h, Prepare(h, t, clock, e, limit).1, committed)
  {
    hide LedgerAt, Verifies, Fingerprint, Judge;
    var p := ParseHead(e.attrs);
    if e.attrs != map[] && p.Ok? && Verifies(h, e) && p.value.sequence == Previous(t, p.value.key).sequence {
      HeadIff(e.attrs, p.value.key, p.value.sequence);
      assert p.value.key in t;
      TouchLedger(h, t, committed, p.value.key, clock + 1);
    }
  }

  /** Deliveries of anything at all to a receiver that starts empty. */
  ghost predicate OpenRun(h: Hashes, ss: seq<System>, es: seq<Event>)
  {
    && |ss| == |es| + 1 && ss[0] == Init()
    && forall i :: 0 <= i < |es| ==>
         es[i].Deliver? && DeliverStep(h, ss[i], es[i].envelope, es[i].limit, es[i].observed, ss[i + 1])
  }

  /** By the receiver alone: whatever the network delivers, forged or not, what is
      committed for a retained lineage verifies, is numbered from 1 without a gap, and
      every delta among it names the latest full frame before it. */
  lemma {:induction false} ReceiverOrders(h: Hashes, ss: seq<System>, es: seq<Event>, k: Lineage)
    requires OpenRun(h, ss, es)
    ensures Ledger(h, ss[|es|].table, ss[|es|].committed)
    ensures var s := ss[|es|];
            k in s.table ==>
              && k in s.committed && |s.committed[k]| == s.table[k].sequence > 0
              && WellBased(k, s.committed[k])
              && forall i :: 0 <= i < |s.committed[k]| ==> Verifies(h, s.committed[k][i])
    decreases |es|
  {
    hide DeliverStep, WellBased, Verifies, LatestNamed, Fingerprint;
    var n := |es|;
    if n > 0 {
      ReceiverOrders(h, ss[..n], es[..n - 1], k);
      LedgerKeeps(h, ss[n - 1], es[n - 1].envelope, es[n - 1].limit, es[n - 1].observed, ss[n]);
    }
    var s := ss[n];
    if k in s.table {
      assert LedgerAt(h, k, s.table[k], s.committed[k]);
    }
  }

  // ---------------------------------------------------------------------
  // Sender and receiver
  // ---------------------------------------------------------------------

  /** After any run, the envelopes delivered and committed for a retained lineage carry
      the first frames issued for it, each once and in order, content and all; and each
      committed delta names the latest full frame committed before it. */
  lemma RunSafe(h: Hashes, ss: seq<System>, es: seq<Event>, k: Lineage)
    requires HexDigest(h) && Run(h, ss, es)
    ensures var s := ss[|es|];
            k in s.table ==>
              && k in s.committed && k in s.issued
              && |s.committed[k]| == s.table[k].sequence > 0
              && Delivered(h, s.committed[k], s.issued[k]) && WellBased(k, s.committed[k])
  {
    RunInv(h, ss, es, |es|);
    hide Run, Inv, LatestCheckpoint, WellBased, Delivered;
    if k in ss[|es|].table {
      InvSafe(h, ss[|es|], k);
    }
  }

  lemma InvSafe(h: Hashes, s: System, k: Lineage)
    requires Inv(h, s) && Short(s) && HexDigest(h) && k in s.table
    ensures k in s.committed && k in s.issued
    ensures |s.committed[k]| == s.table[k].sequence > 0
    ensures Delivered(h, s.committed[k], s.issued[k]) && WellBased(k, s.committed[k])
  {
    hide LatestCheckpoint, LatestNamed, FingerprintOf, Carries, ParseHead, Summarizes, Names;
    assert InvAt(h, s.table[k], s.issued[k], s.committed[k]);
    var xs, es := s.issued[k], s.committed[k];
    forall i | 0 <= i < |es|
      ensures Follows(k, es[..i], es[i].attrs)
    {
      GenuineReads(h, s, es[i], k, i);
      LatestSame(h, es[..i], xs);
      HeadIff(es[i].attrs, k, i + 1);
    }
  }

  /** After any run, the next frame in order of any lineage the receiver can read
      is accepted. */
  lemma RunProgress(h: Hashes, ss: seq<System>, es: seq<Event>, e: Envelope, k: Lineage, limit: nat)
    requires HexDigest(h) && Run(h, ss, es) && Acceptable(k)
    requires var s := ss[|es|]; Genuine(h, s, e, k, Taken(s.table, k))
    ensures var s := ss[|es|];
            var r := Prepare(h, s.table, s.clock, e, limit).0; r.Ok? && r.value.Accepted?
  {
    RunInv(h, ss, es, |es|);
    hide Run, Inv, Prepare, Acceptable;
    NextInOrderAccepted(h, ss[|es|], e, k, limit);
  }

  /** Damage to a covered attribute or the payload goes unnoticed only where the
      digest itself collides. */
  lemma DamageIsCollision(h: Hashes, x: Sent, e: Envelope)
    requires HexDigest(h) && Verifies(h, e) && !Carries(h, e, x)
    requires Lower(Attr(e.attrs, CHECKSUM)) == h.digest(Signed(AttributesOf(x.frame), x.payload))
    requires var a := AttributesOf(x.frame);
             && Fits(a) && Fits(e.attrs)
             && |Header(Listing(a), a)| < 0x1_0000_0000 && |Header(Listing(e.attrs), e.attrs)| < 0x1_0000_0000
    ensures var p, q := Signed(e.attrs, e.payload), Signed(AttributesOf(x.frame), x.payload);
            p != q && h.digest(p) == h.digest(q)
  {
    hide AttributesOf, Header, Size, Lower, SortedKeys;
    var a := AttributesOf(x.frame);
    if Signed(e.attrs, e.payload) == Signed(a, x.payload) {
      PreimageInjective(Listing(e.attrs), e.attrs, e.payload, Listing(a), a, x.payload);
      SameButChecksum(e.attrs, a);
    }
  }

  lemma SameButChecksum(a: Attributes, b: Attributes)
    requires a - {CHECKSUM} == b - {CHECKSUM} && CHECKSUM in a
    ensures a == b[CHECKSUM := a[CHECKSUM]]
  {
    forall k | k != CHECKSUM
      ensures (k in a <==> k in b) && (k in a ==> a[k] == b[k])
    {
      assert k in a <==> k in a - {CHECKSUM};
      assert k in b <==> k in b - {CHECKSUM};
    }
  }
}
