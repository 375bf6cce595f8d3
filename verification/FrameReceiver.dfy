/**
 The receiver of summary frames: parsing, checksum, replay and gap detection,
 checkpoint bases, and the bounded lineage table.
 */
module FrameReceiver {
  import opened Common
  import opened Wire
  import opened FrameWire
  import opened FrameSequencer

  datatype Envelope = Envelope(attrs: Attributes, payload: string)

  /** The digest of the checksum, and the fingerprint taken over the checksum and
      the payload. */
  datatype Hashes = Hashes(digest: Digest, stamp: (string, string) -> string)

  // ---------------------------------------------------------------------
  // Attributes of a frame
  // ---------------------------------------------------------------------

  const PLAN_ID: string := "asap.frame.plan_id"
  const PLAN_VERSION: string := "asap.frame.plan_version"
  const MATERIALIZATION: string := "asap.frame.materialization"
  const SERIES: string := "asap.frame.series_identity"
  const PRODUCER: string := "asap.frame.producer_id"
  const EPOCH: string := "asap.frame.producer_epoch"
  const SEQUENCE: string := "asap.frame.sequence"
  const KIND: string := "asap.frame.kind"
  const CHECKPOINT: string := "asap.frame.checkpoint_id"
  const BASE: string := "asap.frame.base_checkpoint_id"

  function KindOf(f: Frame): (s: string)
  {
    if f.full then "full" else "delta"
  }

  /** The attributes every frame carries. */
  function RequiredAttributes(f: Frame): (a: Attributes)
  {
    map["asap.frame.identity_version" := "1",
        PLAN_ID := Decimal(f.key.planId),
        PLAN_VERSION := Decimal(f.key.planVersion),
        "asap.frame.backend_compat" := f.compat,
        MATERIALIZATION := Decimal(f.key.materialization),
        SERIES := f.key.series,
        "asap.frame.schema_id" := f.schema,
        PRODUCER := f.key.producer,
        EPOCH := f.key.epoch,
        SEQUENCE := Decimal(f.sequence),
        KIND := KindOf(f),
        "asap.frame.encoding" := f.encoding]
  }

  /** `OTLPAttributes`: the two checkpoint attributes only when not empty. */
  function AttributesOf(f: Frame): (a: Attributes)
  {
    var a := RequiredAttributes(f);
    var b := if f.checkpoint != "" then a[CHECKPOINT := f.checkpoint] else a;
    if f.base != "" then b[BASE := f.base] else b
  }

  function Attr(a: Attributes, name: string): (v: string)
  {
    if name in a then a[name] else ""
  }

  ghost function EnvelopeOf(h: Hashes, x: Sent): (e: Envelope)
  {
    Envelope(AttributesOf(x.frame)[CHECKSUM := h.digest(Signed(AttributesOf(x.frame), x.payload))], x.payload)
  }

  // ---------------------------------------------------------------------
  // Preparing
  // ---------------------------------------------------------------------

  datatype Head = Head(key: Lineage, sequence: nat, kind: string, checkpoint: string, base: string)

  function RequiredUint(a: Attributes, name: string): (r: Result<nat>)
  {
    var v := ParseUint(Attr(a, name));
    if v.None? || v.value == 0 then Err(InvalidField(name)) else Ok(v.value)
  }

  function ParseHead(a: Attributes): (r: Result<Head>)
  {
    var planId := RequiredUint(a, PLAN_ID);
    if planId.Err? then Err(planId.error)
    else
      var version := RequiredUint(a, PLAN_VERSION);
      if version.Err? then Err(version.error)
      else
        var mat := RequiredUint(a, MATERIALIZATION);
        if mat.Err? then Err(mat.error)
        else
          var seqNo := RequiredUint(a, SEQUENCE);
          if seqNo.Err? then Err(seqNo.error)
          else
            var key := Lineage(planId.value, version.value, mat.value, Attr(a, SERIES), Attr(a, PRODUCER), Attr(a, EPOCH));
            if key.series == "" || key.producer == "" || key.epoch == "" then Err(Incomplete)
            else Ok(Head(key, seqNo.value, Attr(a, KIND), Attr(a, CHECKPOINT), Attr(a, BASE)))
  }

  function LowerChar(c: char): (r: char)
  {
    if 'A' <= c <= 'Z' then (c as int + 32) as char else c
  }

  function Lower(s: string): (r: string)
    ensures |r| == |s|
  {
    seq(|s|, i requires 0 <= i < |s| => LowerChar(s[i]))
  }

  /** The 26 letters are lowered, and nothing else. */
  lemma LowerAlphabet(c: char)
    ensures Lower("ABCDEFGHIJKLMNOPQRSTUVWXYZ") == "abcdefghijklmnopqrstuvwxyz"
    ensures c < 'A' || c > 'Z' ==> LowerChar(c) == c
  {
  }

  datatype Received = Received(sequence: nat, checkpoint: string, fingerprint: string, lastUsed: nat)

  type Table = map<Lineage, Received>

  datatype Receipt = Unframed | Duplicate | Accepted(key: Lineage, state: Received, limit: nat)

  const DEFAULT_LIMIT: nat := 100_000

  function Previous(t: Table, k: Lineage): (r: Received)
  {
    if k in t then t[k] else Received(0, "", "", 0)
  }

  /** The verdict on an authentic frame that is not the latest one again. */
  function Judge(prev: Received, d: Head, fingerprint: string, clock: nat, limit: nat): (r: Result<Receipt>)
  {
    if d.sequence != prev.sequence + 1 then Err(Gap)
    else
      var next := Received(d.sequence, if d.kind == "full" then d.checkpoint else prev.checkpoint, fingerprint, clock);
      var lim := if limit == 0 then DEFAULT_LIMIT else limit;
      if d.kind == "full" then (if d.checkpoint == "" then Err(Base) else Ok(Accepted(d.key, next, lim)))
      else if d.kind == "delta" then
        (if prev.checkpoint == "" || d.base != prev.checkpoint then Err(Base) else Ok(Accepted(d.key, next, lim)))
      else Err(InvalidKind)
  }

  /** The frame is authentic: its checksum is present and matches. */
  ghost predicate Verifies(h: Hashes, e: Envelope)
  {
    var want := Lower(Attr(e.attrs, CHECKSUM));
    want != "" && want == h.digest(Signed(e.attrs, e.payload))
  }

  function Fingerprint(h: Hashes, e: Envelope): (s: string)
  {
    h.stamp(Lower(Attr(e.attrs, CHECKSUM)), e.payload)
  }

  /** The verdict, and the table and clock afterwards. */
  ghost function Prepare(h: Hashes, t: Table, clock: nat, e: Envelope, limit: nat): (r: (Result<Receipt>, Table, nat))
  {
    if e.attrs == map[] then (Ok(Unframed), t, clock)
    else
      var head := ParseHead(e.attrs);
      if head.Err? then (Err(head.error), t, clock)
      else if !Verifies(h, e) then (Err(Checksum), t, clock)
      else
        var d := head.value;
        var prev := Previous(t, d.key);
        if d.sequence == prev.sequence then
          if prev.fingerprint != Fingerprint(h, e) then (Err(Conflict), t, clock + 1)
          else (Ok(Duplicate), t[d.key := prev.(lastUsed := clock + 1)], clock + 1)
        else (Judge(prev, d, Fingerprint(h, e), clock + 1, limit), t, clock + 1)
  }

  // ---------------------------------------------------------------------
  // The verdict, attribute by attribute
  // ---------------------------------------------------------------------

  /** The attributes name frame `n` of lineage `k`: four positive numbers and three
      strings that are not empty. */
  ghost predicate Names(a: Attributes, k: Lineage, n: nat)
  {
    && ParseUint(Attr(a, "asap.frame.plan_id")) == Some(k.planId) && k.planId > 0
    && ParseUint(Attr(a, "asap.frame.plan_version")) == Some(k.planVersion) && k.planVersion > 0
    && ParseUint(Attr(a, "asap.frame.materialization")) == Some(k.materialization) && k.materialization > 0
    && ParseUint(Attr(a, "asap.frame.sequence")) == Some(n) && n > 0
    && Attr(a, "asap.frame.series_identity") == k.series != ""
    && Attr(a, "asap.frame.producer_id") == k.producer != ""
    && Attr(a, "asap.frame.producer_epoch") == k.epoch != ""
  }

  lemma HeadIff(a: Attributes, k: Lineage, n: nat)
    ensures Names(a, k, n) <==> ParseHead(a).Ok? && ParseHead(a).value.key == k && ParseHead(a).value.sequence == n
    ensures ParseHead(a).Ok? ==>
              ParseHead(a).value == Head(ParseHead(a).value.key, ParseHead(a).value.sequence, Attr(a, "asap.frame.kind"),
                                         Attr(a, "asap.frame.checkpoint_id"), Attr(a, "asap.frame.base_checkpoint_id"))
  {
    hide ParseUint, Attr;
  }

  /** The number of frames taken of a lineage. */
  function Taken(t: Table, k: Lineage): (n: nat)
  {
    if k in t then t[k].sequence else 0
  }

  /** What makes the next frame of a lineage acceptable: a full frame names a checkpoint,
      and a delta the one the receiver holds. */
  ghost predicate Based(t: Table, k: Lineage, a: Attributes)
  {
    if Attr(a, "asap.frame.kind") == "full" then Attr(a, "asap.frame.checkpoint_id") != ""
    else Attr(a, "asap.frame.kind") == "delta" && k in t
         && Attr(a, "asap.frame.base_checkpoint_id") == t[k].checkpoint != ""
  }

  /** The receiver's verdict on any envelope whose checksum matches, issued or not, over
      any table: exactly the next frame on a good base is accepted, exactly the latest
      one again is a duplicate, and anything else leaves the table as it was. */
  lemma VerdictIs(h: Hashes, t: Table, clock: nat, e: Envelope, k: Lineage, n: nat, limit: nat)
    requires Verifies(h, e) && Names(e.attrs, k, n)
    ensures var (r, t', clock') := Prepare(h, t, clock, e, limit);
            var full := Attr(e.attrs, "asap.frame.kind") == "full";
            && clock' == clock + 1
            && (n == Taken(t, k) + 1 && Based(t, k, e.attrs) ==>
                  && t' == t
                  && r == Ok(Accepted(k, Received(n, if full then Attr(e.attrs, "asap.frame.checkpoint_id")
                                                     else Previous(t, k).checkpoint,
                                                  Fingerprint(h, e), clock + 1),
                                      if limit == 0 then 100_000 else limit)))
            && (n == Taken(t, k) + 1 && !Based(t, k, e.attrs) ==>
                  && t' == t
                  && r == Err(if full || Attr(e.attrs, "asap.frame.kind") == "delta" then Base else InvalidKind))
            && (n == Taken(t, k) && Previous(t, k).fingerprint == Fingerprint(h, e) ==>
                  r == Ok(Duplicate) && t' == t[k := Previous(t, k).(lastUsed := clock + 1)])
            && (n == Taken(t, k) && Previous(t, k).fingerprint != Fingerprint(h, e) ==> r == Err(Conflict) && t' == t)
            && (n != Taken(t, k) && n != Taken(t, k) + 1 ==> r == Err(Gap) && t' == t)
  {
    hide ParseHead, Verifies, Fingerprint, Attr, Names;
    HeadIff(e.attrs, k, n);
    NamedFramed(e.attrs, k, n);
  }

  lemma NamedFramed(a: Attributes, k: Lineage, n: nat)
    requires Names(a, k, n)
    ensures a != map[]
  {
  }

  /** Anything else that carries attributes is refused and changes nothing. */
  lemma OthersRefused(h: Hashes, t: Table, clock: nat, e: Envelope, limit: nat)
    requires e.attrs != map[] && (!Verifies(h, e) || forall k, n :: !Names(e.attrs, k, n))
    ensures var (r, t', clock') := Prepare(h, t, clock, e, limit);
            r.Err? && t' == t && clock' == clock
  {
    hide ParseHead, Verifies, Names;
    var p := ParseHead(e.attrs);
    if p.Ok? {
      HeadIff(e.attrs, p.value.key, p.value.sequence);
    }
  }

  /** What a commit may do: make room by forgetting the least recently used
      lineage, then record. */
  ghost predicate Commits(t: Table, r: Receipt, t': Table, forgotten: Option<Lineage>)
  {
    if !r.Accepted? then t' == t && forgotten.None?
    else if r.key in t || |t| < r.limit then t' == t[r.key := r.state] && forgotten.None?
    else
      && forgotten.Some? && forgotten.value in t && t' == (t - {forgotten.value})[r.key := r.state]
      && forall k :: k in t ==> t[forgotten.value].lastUsed <= t[k].lastUsed
  }

  class Receiver {
    var lineages: Table
    var clock: nat

    constructor ()
      ensures lineages == map[] && clock == 0
    {
      lineages, clock := map[], 0;
    }

    method PrepareEnvelope(h: Hashes, e: Envelope, limit: nat) returns (r: Result<Receipt>)
      modifies this
      ensures (r, lineages, clock) == Prepare(h, old(lineages), old(clock), e, limit)
    {
      hide ParseHead, Signed, Lower;
      if e.attrs == map[] {
        return Ok(Unframed);
      }
      var head := ParseHead(e.attrs);
      if head.Err? {
        return Err(head.error);
      }
      var want := Lower(Attr(e.attrs, CHECKSUM));
      var sum := FrameChecksum(h.digest, e.attrs, e.payload);
      if want == "" || want != sum {
        return Err(Checksum);
      }
      var fingerprint := h.stamp(want, e.payload);
      var d := head.value;
      clock := clock + 1;
      var prev := Previous(lineages, d.key);
      if d.sequence == prev.sequence {
        if prev.fingerprint != fingerprint {
          return Err(Conflict);
        }
        lineages := lineages[d.key := prev.(lastUsed := clock)];
        return Ok(Duplicate);
      }
      r := Judge(prev, d, fingerprint, clock, limit);
    }

    method Commit(r: Receipt) returns (ghost forgotten: Option<Lineage>)
      requires r.Accepted? ==> r.limit > 0
      modifies `lineages
      ensures Commits(old(lineages), r, lineages, forgotten)
    {
      forgotten := None;
      if !r.Accepted? {
        return;
      }
      if r.key !in lineages && |lineages| >= r.limit {
        var oldest := FindOldest();
        forgotten := Some(oldest);
        lineages := lineages - {oldest};
      }
      lineages := lineages[r.key := r.state];
    }

    method FindOldest() returns (oldest: Lineage)
      requires |lineages| > 0
      ensures oldest in lineages && forall k :: k in lineages ==> lineages[oldest].lastUsed <= lineages[k].lastUsed
    {
      var todo := lineages.Keys;
      oldest :| oldest in todo;
      todo := todo - {oldest};
      while todo != {}
        invariant todo <= lineages.Keys && oldest in lineages
        invariant forall k :: k in lineages && k !in todo ==> lineages[oldest].lastUsed <= lineages[k].lastUsed
        decreases |todo|
      {
        var k :| k in todo;
        if lineages[k].lastUsed < lineages[oldest].lastUsed {
          oldest := k;
        }
        todo := todo - {k};
      }
    }
  }

  /** The table stays within the limit once it is within it. */
  lemma CommitBounded(t: Table, r: Receipt, t': Table, forgotten: Option<Lineage>)
    requires r.Accepted? && Commits(t, r, t', forgotten)
    ensures |t'| <= if |t| < r.limit then r.limit else |t|
  {
    if forgotten.Some? {
      var u := t - {forgotten.value};
      assert u.Keys == t.Keys - {forgotten.value};
      assert t'.Keys == u.Keys + {r.key};
    } else {
      assert t'.Keys == t.Keys + {r.key};
    }
  }

  // ---------------------------------------------------------------------
  // Genuine frames
  // ---------------------------------------------------------------------

  /** Digests are non-empty and already in lower case. */
  ghost predicate HexDigest(h: Hashes)
  {
    forall s :: h.digest(s) != "" && Lower(h.digest(s)) == h.digest(s)
  }

  /** Reading back the lineage `RequiredAttributes` wrote. */
  lemma LineageLookup(f: Frame)
    ensures var a := RequiredAttributes(f);
            && Attr(a, PLAN_ID) == Decimal(f.key.planId) && Attr(a, PLAN_VERSION) == Decimal(f.key.planVersion)
            && Attr(a, MATERIALIZATION) == Decimal(f.key.materialization) && Attr(a, SERIES) == f.key.series
            && Attr(a, PRODUCER) == f.key.producer
  {
    hide Decimal, KindOf;
    assert MATERIALIZATION[11] == 'm' && SERIES[11] == 's';
  }

  lemma PositionLookup(f: Frame)
    ensures var a := RequiredAttributes(f);
            && Attr(a, EPOCH) == f.key.epoch && Attr(a, SEQUENCE) == Decimal(f.sequence) && Attr(a, KIND) == KindOf(f)
            && Attr(a, CHECKPOINT) == "" && Attr(a, BASE) == ""
  {
    hide Decimal, KindOf;
    assert EPOCH[11] == 'p' && "asap.frame.backend_compat"[11] == 'b' && "asap.frame.encoding"[11] == 'e';
  }

  /** The optional attributes and the checksum touch nothing else. */
  lemma OptionalLookup(a: Attributes, f: Frame, sum: string, name: string)
    requires name != CHECKSUM && name != CHECKPOINT && name != BASE
    ensures var b := if f.checkpoint != "" then a[CHECKPOINT := f.checkpoint] else a;
            var c := if f.base != "" then b[BASE := f.base] else b;
            Attr(c[CHECKSUM := sum], name) == Attr(a, name)
  {
  }

  lemma CheckpointLookup(a: Attributes, f: Frame, sum: string)
    requires Attr(a, CHECKPOINT) == "" && Attr(a, BASE) == ""
    ensures var b := if f.checkpoint != "" then a[CHECKPOINT := f.checkpoint] else a;
            var c := if f.base != "" then b[BASE := f.base] else b;
            Attr(c[CHECKSUM := sum], CHECKPOINT) == f.checkpoint && Attr(c[CHECKSUM := sum], BASE) == f.base
  {
    assert |CHECKPOINT| == 24 && |BASE| == 29 && |CHECKSUM| == 27;
  }

  lemma GenuineLookup(f: Frame, sum: string)
    ensures var a := AttributesOf(f)[CHECKSUM := sum];
            && Attr(a, PLAN_ID) == Decimal(f.key.planId) && Attr(a, PLAN_VERSION) == Decimal(f.key.planVersion)
            && Attr(a, MATERIALIZATION) == Decimal(f.key.materialization) && Attr(a, SERIES) == f.key.series
            && Attr(a, PRODUCER) == f.key.producer && Attr(a, EPOCH) == f.key.epoch
            && Attr(a, SEQUENCE) == Decimal(f.sequence) && Attr(a, KIND) == KindOf(f)
            && Attr(a, CHECKPOINT) == f.checkpoint && Attr(a, BASE) == f.base
  {
    NamesDiffer();
    hide Decimal, KindOf, RequiredAttributes, Attr;
    hide PLAN_ID, PLAN_VERSION, MATERIALIZATION, SERIES, PRODUCER, EPOCH, SEQUENCE, KIND, CHECKPOINT, BASE, CHECKSUM;
    var a := RequiredAttributes(f);
    LineageLookup(f);
    PositionLookup(f);
    OptionalLookup(a, f, sum, PLAN_ID);
    OptionalLookup(a, f, sum, PLAN_VERSION);
    OptionalLookup(a, f, sum, MATERIALIZATION);
    OptionalLookup(a, f, sum, SERIES);
    OptionalLookup(a, f, sum, PRODUCER);
    OptionalLookup(a, f, sum, EPOCH);
    OptionalLookup(a, f, sum, SEQUENCE);
    OptionalLookup(a, f, sum, KIND);
    CheckpointLookup(a, f, sum);
  }

  lemma NamesDiffer()
    ensures forall n :: n in [PLAN_ID, PLAN_VERSION, MATERIALIZATION, SERIES, PRODUCER, EPOCH, SEQUENCE, KIND] ==>
              n != CHECKSUM && n != CHECKPOINT && n != BASE
    ensures PLAN_ID != CHECKSUM && PLAN_ID != CHECKPOINT && PLAN_ID != BASE
    ensures PLAN_VERSION != CHECKSUM && PLAN_VERSION != CHECKPOINT && PLAN_VERSION != BASE
    ensures MATERIALIZATION != CHECKSUM && MATERIALIZATION != CHECKPOINT && MATERIALIZATION != BASE
    ensures SERIES != CHECKSUM && SERIES != CHECKPOINT && SERIES != BASE
    ensures PRODUCER != CHECKSUM && PRODUCER != CHECKPOINT && PRODUCER != BASE
    ensures EPOCH != CHECKSUM && EPOCH != CHECKPOINT && EPOCH != BASE
    ensures SEQUENCE != CHECKSUM && SEQUENCE != CHECKPOINT && SEQUENCE != BASE
    ensures KIND != CHECKSUM && KIND != CHECKPOINT && KIND != BASE
  {
    assert |CHECKSUM| == 27 && |CHECKPOINT| == 24 && |BASE| == 29;
  }

  /** Numbers the receiver can read, and a named producer. */
  predicate Acceptable(k: Lineage)
  {
    && 0 < k.planId < TWO64 && 0 < k.planVersion < TWO64 && 0 < k.materialization < TWO64
    && k.producer != ""
  }

  /** A frame of the sequencer parses to itself. */
  lemma GenuineHead(f: Frame, sum: string)
    requires f.key.series != "" && f.key.epoch != "" && 0 < f.sequence < TWO64
    ensures ParseHead(AttributesOf(f)[CHECKSUM := sum]) ==
              Ok(Head(f.key, f.sequence, KindOf(f), f.checkpoint, f.base))
            <==> Acceptable(f.key)
    ensures Acceptable(f.key) || ParseHead(AttributesOf(f)[CHECKSUM := sum]).Err?
  {
    hide Decimal, ParseUint, AttributesOf, Attr;
    GenuineLookup(f, sum);
    DecimalParse(f.key.planId);
    DecimalParse(f.key.planVersion);
    DecimalParse(f.key.materialization);
    DecimalParse(f.sequence);
  }

  lemma DecimalParse(n: nat)
    ensures ParseUint(Decimal(n)) == if n < TWO64 then Some(n) else None
  {
    DecimalDigits(n);
  }

  /** `e` has the content of the frame `x`, under its checksum in whatever case. */
  ghost predicate Carries(h: Hashes, e: Envelope, x: Sent)
  {
    && e.payload == x.payload && CHECKSUM in e.attrs
    && e.attrs == AttributesOf(x.frame)[CHECKSUM := e.attrs[CHECKSUM]]
    && Lower(e.attrs[CHECKSUM]) == h.digest(Signed(AttributesOf(x.frame), x.payload))
  }

  /** The envelope the sender seals carries its frame. */
  lemma SealedCarries(h: Hashes, x: Sent)
    requires HexDigest(h)
    ensures Carries(h, EnvelopeOf(h, x), x)
  {
    hide AttributesOf, Signed, Lower;
  }

  /** Whatever carries an issued frame passes the checksum. */
  lemma GenuineVerifies(h: Hashes, e: Envelope, x: Sent)
    requires HexDigest(h) && Carries(h, e, x)
    ensures Verifies(h, e) && e.attrs != map[]
    ensures Fingerprint(h, e) == h.stamp(h.digest(Signed(AttributesOf(x.frame), x.payload)), x.payload)
  {
    hide AttributesOf, Signed, Lower;
    SealCovers(AttributesOf(x.frame), e.attrs[CHECKSUM], x.payload);
  }
}
