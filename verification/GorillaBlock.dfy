/**
 The GORILLA1 container: fixed header, then one framed chunk per series, and the
 sample iterator over a loaded chunk.  The JSON of the per-series metadata is a
 parameter, any pair of functions that decodes what it encodes.
 */
module GorillaBlock {
  import opened Bits
  import opened Common
  import opened Wire
  import opened GorillaBits
  import opened GorillaTimestamps
  import opened GorillaValues
  import opened GorillaCodec

  datatype Meta = Meta(metric: string, labels: map<string, string>, startTs: Int64, endTs: Int64, pointCount: nat)

  datatype Json = Json(encode: Meta -> Bytes, decode: Bytes -> Option<Meta>)

  ghost predicate Inverse(j: Json)
  {
    forall m :: j.decode(j.encode(m)) == Some(m)
  }

  /** One series as it stands in a block; lengths are in bits. */
  datatype Chunk = Chunk(meta: Meta, body: Encoded, tsBitsLen: nat, valBitsLen: nat)

  const MAGIC: Bytes := [71, 79, 82, 73, 76, 76, 65, 49]
  const BLOCK_VERSION: Byte := 1
  const TWO16: nat := 0x1_0000
  const TWO32: nat := 0x1_0000_0000

  /** Everything the fixed-width fields of a chunk can carry. */
  predicate Storable(j: Json, c: Chunk)
  {
    && |j.encode(c.meta)| < TWO16
    && c.meta.pointCount < TWO32
    && c.tsBitsLen == 8 * |c.body.tsBits| < TWO32
    && c.valBitsLen == 8 * |c.body.valBits| < TWO32
  }

  function BodyWire(c: Chunk): (bs: Bytes)
  {
    LittleEndian(ToU64(c.body.firstTs), 8)
    + (LittleEndian(FromBits(c.body.firstVal), 8)
       + (LittleEndian(c.tsBitsLen, 4)
          + (c.body.tsBits
             + (LittleEndian(c.valBitsLen, 4)
                + c.body.valBits))))
  }

  function ChunkWire(j: Json, c: Chunk): (bs: Bytes)
  {
    var meta := j.encode(c.meta);
    LittleEndian(|meta|, 2) + (meta + (LittleEndian(c.meta.pointCount, 4) + BodyWire(c)))
  }

  /** A bit stream: its length in bits, then the bytes that hold that many. */
  function GetStream(s: Bytes): (r: Option<((nat, Bytes), Bytes)>)
  {
    var (len, s1) :- GetLittleEndian(s, 4);
    var (bs, s2) :- Take(s1, (len + 7) / 8);
    Some(((len, bs), s2))
  }

  function GetBody(s: Bytes, meta: Meta): (r: Option<(Chunk, Bytes)>)
  {
    var (t, s1) :- GetInt64(s);
    var (v, s2) :- GetU64(s1);
    var (ts, s3) :- GetStream(s2);
    var (vals, s4) :- GetStream(s3);
    Some((Chunk(meta, Encoded(t, ToBits(v, 64), ts.1, vals.1), ts.0, vals.0), s4))
  }

  function GetChunk(j: Json, s: Bytes): (r: Option<(Chunk, Bytes)>)
  {
    var (n, s1) :- GetLittleEndian(s, 2);
    var (m, s2) :- Take(s1, n);
    var meta :- j.decode(m);
    var (count, s3) :- GetLittleEndian(s2, 4);
    var (c, rest) :- GetBody(s3, meta);
    if count != meta.pointCount then None else Some((c, rest))
  }

  lemma StreamRoundTrip(bs: Bytes, rest: Bytes)
    requires 8 * |bs| < TWO32
    ensures GetStream(LittleEndian(8 * |bs|, 4) + (bs + rest)) == Some(((8 * |bs|, bs), rest))
  {
    hide LittleEndian, FromLittleEndian, GetLittleEndian;
    var n := 8 * |bs|;
    assert (n + 7) / 8 == |bs|;
    Pow2Words();
    GetLittleEndianRoundTrip(n, 4, bs + rest);
    TakeRoundTrip(bs, rest);
  }

  lemma WordRoundTrip(w: Word, rest: Bytes)
    ensures FromBits(w) < TWO64
    ensures GetU64(LittleEndian(FromBits(w), 8) + rest) == Some((FromBits(w), rest))
    ensures ToBits(FromBits(w), 64) == w
  {
    FromBitsBound(w);
    Pow2Words();
    U64RoundTrip(FromBits(w), rest);
    ToFromBits(w);
  }

  lemma BodyAssoc(a: Bytes, b: Bytes, c: Bytes, d: Bytes, e: Bytes, f: Bytes, rest: Bytes)
    ensures (a + (b + (c + (d + (e + f))))) + rest == a + (b + (c + (d + (e + (f + rest)))))
  {
  }

  lemma BodyRoundTrip(j: Json, c: Chunk, rest: Bytes)
    requires Storable(j, c)
    ensures GetBody(BodyWire(c) + rest, c.meta) == Some((c, rest))
  {
    hide LittleEndian, FromLittleEndian, ToBits, FromBits;
    var a, b := LittleEndian(ToU64(c.body.firstTs), 8), LittleEndian(FromBits(c.body.firstVal), 8);
    var l1, l2 := LittleEndian(c.tsBitsLen, 4), LittleEndian(c.valBitsLen, 4);
    var ts, vs := c.body.tsBits, c.body.valBits;
    BodyAssoc(a, b, l1, ts, l2, vs, rest);
    var s3 := l2 + (vs + rest);
    var s2 := l1 + (ts + s3);
    Int64RoundTrip(c.body.firstTs, b + s2);
    WordRoundTrip(c.body.firstVal, s2);
    StreamRoundTrip(ts, s3);
    StreamRoundTrip(vs, rest);
  }

  lemma ChunkAssoc(a: Bytes, b: Bytes, c: Bytes, d: Bytes, rest: Bytes)
    ensures (a + (b + (c + d))) + rest == a + (b + (c + (d + rest)))
  {
  }

  /** A chunk parses back to itself and leaves exactly the bytes behind it. */
  lemma ChunkRoundTrip(j: Json, c: Chunk, rest: Bytes)
    requires Inverse(j) && Storable(j, c)
    ensures GetChunk(j, ChunkWire(j, c) + rest) == Some((c, rest))
  {
    hide LittleEndian, FromLittleEndian, BodyWire, GetBody;
    var m := j.encode(c.meta);
    var a, d := LittleEndian(|m|, 2), LittleEndian(c.meta.pointCount, 4);
    ChunkAssoc(a, m, d, BodyWire(c), rest);
    Pow2Words();
    var s2 := d + (BodyWire(c) + rest);
    GetLittleEndianRoundTrip(|m|, 2, m + s2);
    TakeRoundTrip(m, s2);
    GetLittleEndianRoundTrip(c.meta.pointCount, 4, BodyWire(c) + rest);
    BodyRoundTrip(j, c, rest);
  }

  // ---------------------------------------------------------------------
  // Whole blocks
  // ---------------------------------------------------------------------

  function ChunksWire(j: Json, cs: seq<Chunk>): (bs: Bytes)
  {
    if cs == [] then [] else ChunkWire(j, cs[0]) + ChunksWire(j, cs[1..])
  }

  function GetChunks(j: Json, s: Bytes, k: nat): (r: Option<(seq<Chunk>, Bytes)>)
    decreases k
  {
    if k == 0 then Some(([], s))
    else
      var (c, s1) :- GetChunk(j, s);
      var (cs, rest) :- GetChunks(j, s1, k - 1);
      Some(([c] + cs, rest))
  }

  function HeaderWire(k: nat): (bs: Bytes)
  {
    MAGIC + ([BLOCK_VERSION] + LittleEndian(k, 4))
  }

  /** Magic, version and series count. */
  function GetHeader(s: Bytes): (r: Option<(nat, Bytes)>)
  {
    var (magic, s1) :- Take(s, 8);
    var (version, s2) :- Take(s1, 1);
    if magic != MAGIC || version != [BLOCK_VERSION] then None else GetLittleEndian(s2, 4)
  }

  function GetBlock(j: Json, s: Bytes): (r: Option<seq<Chunk>>)
  {
    var (k, s1) :- GetHeader(s);
    var (cs, _) :- GetChunks(j, s1, k);
    Some(cs)
  }

  /** Nothing else is read as a block, and it holds as many chunks as it says. */
  lemma BlockChecks(j: Json, s: Bytes)
    requires GetBlock(j, s).Some?
    ensures |s| >= 13 && s[..9] == [71, 79, 82, 73, 76, 76, 65, 49, 1]
    ensures |GetBlock(j, s).value| == FromLittleEndian(s[9..13])
  {
    hide GetChunks, FromLittleEndian;
    assert s[..9] == s[..8] + s[8..][..1];
    assert s[8..][1..] == s[9..] && s[9..][..4] == s[9..13];
    var (k, rest) := GetHeader(s).value;
    CountChunks(j, rest, k);
  }

  lemma {:induction false} CountChunks(j: Json, s: Bytes, k: nat)
    requires GetChunks(j, s, k).Some?
    ensures |GetChunks(j, s, k).value.0| == k
    decreases k
  {
    hide GetChunk;
    if k > 0 {
      CountChunks(j, GetChunk(j, s).value.1, k - 1);
    }
  }

  /** A block starts with "GORILLA1", version 1 and the count in four bytes, low first. */
  lemma HeaderBytes(k: nat)
    requires k < 0x100
    ensures HeaderWire(k) == [71, 79, 82, 73, 76, 76, 65, 49, 1, k, 0, 0, 0]
  {
    assert LittleEndian(k, 4) == [k] + LittleEndian(0, 3);
    assert LittleEndian(0, 3) == [0, 0, 0];
  }

  predicate AllStorable(j: Json, cs: seq<Chunk>)
  {
    forall i :: 0 <= i < |cs| ==> Storable(j, cs[i])
  }

  lemma {:induction false} ChunksRoundTrip(j: Json, cs: seq<Chunk>, rest: Bytes)
    requires Inverse(j) && AllStorable(j, cs)
    ensures GetChunks(j, ChunksWire(j, cs) + rest, |cs|) == Some((cs, rest))
  {
    hide ChunkWire, GetChunk;
    if cs == [] {
      assert [] + rest == rest;
    } else {
      assert cs == [cs[0]] + cs[1..];
      var tail := ChunksWire(j, cs[1..]);
      Assoc(ChunkWire(j, cs[0]), tail, rest);
      ChunkRoundTrip(j, cs[0], tail + rest);
      ChunksRoundTrip(j, cs[1..], rest);
    }
  }

  lemma HeaderRoundTrip(k: nat, rest: Bytes)
    requires k < TWO32
    ensures GetHeader(HeaderWire(k) + rest) == Some((k, rest))
  {
    hide LittleEndian, FromLittleEndian;
    var n := LittleEndian(k, 4);
    Assoc(MAGIC, [BLOCK_VERSION] + n, rest);
    Assoc([BLOCK_VERSION], n, rest);
    TakeRoundTrip(MAGIC, [BLOCK_VERSION] + (n + rest));
    TakeRoundTrip([BLOCK_VERSION], n + rest);
    Pow2Words();
    GetLittleEndianRoundTrip(k, 4, rest);
  }

  /** Every block of fewer than 2^32 storable series parses back. */
  lemma BlockRoundTrip(j: Json, cs: seq<Chunk>)
    requires Inverse(j) && AllStorable(j, cs) && |cs| < TWO32
    ensures GetBlock(j, HeaderWire(|cs|) + ChunksWire(j, cs)) == Some(cs)
  {
    hide HeaderWire, GetHeader, ChunksWire, GetChunks;
    HeaderRoundTrip(|cs|, ChunksWire(j, cs));
    ChunksRoundTrip(j, cs, []);
    assert ChunksWire(j, cs) + [] == ChunksWire(j, cs);
  }

  /** Serializes a block; a series count past 32 bits is cut to its low 32. */
  method WriteBlock(j: Json, cs: seq<Chunk>) returns (r: Option<Bytes>)
    ensures r.Some? <==> forall i :: 0 <= i < |cs| ==> |j.encode(cs[i].meta)| < TWO16
    ensures r.Some? ==> r.value == HeaderWire(|cs|) + ChunksWire(j, cs)
  {
    hide HeaderWire, ChunkWire, Storable;
    var out := HeaderWire(|cs|);
    var i := 0;
    while i < |cs|
      invariant 0 <= i <= |cs|
      invariant out + ChunksWire(j, cs[i..]) == HeaderWire(|cs|) + ChunksWire(j, cs)
      invariant forall k :: 0 <= k < i ==> |j.encode(cs[k].meta)| < TWO16
    {
      if |j.encode(cs[i].meta)| >= TWO16 {
        return None;
      }
      assert cs[i..][1..] == cs[i + 1..];
      Assoc(out, ChunkWire(j, cs[i]), ChunksWire(j, cs[i + 1..]));
      out := out + ChunkWire(j, cs[i]);
      i := i + 1;
    }
    assert out + [] == out;
    r := Some(out);
  }

  /** A block reader: `remaining` series are still unread behind `rest`. */
  class BlockReader {
    const j: Json
    var rest: Bytes
    var remaining: nat
    var current: Option<Chunk>

    constructor (j: Json, rest: Bytes, count: nat)
      ensures this.j == j && this.rest == rest && remaining == count && current.None?
    {
      this.j, this.rest, remaining, current := j, rest, count, None;
    }

    /** Loads the next chunk: `Some(false)` past the last one, `None` for an error. */
    method NextSeries() returns (r: Option<bool>)
      modifies this
      ensures old(remaining) == 0 ==> r == Some(false) && remaining == 0 && current.None? && rest == old(rest)
      ensures old(remaining) > 0 && GetChunk(j, old(rest)).None? ==> r.None?
      ensures old(remaining) > 0 && GetChunk(j, old(rest)).Some? ==>
                && r == Some(true)
                && remaining == old(remaining) - 1
                && current == Some(GetChunk(j, old(rest)).value.0)
                && rest == GetChunk(j, old(rest)).value.1
    {
      if remaining == 0 {
        current := None;
        return Some(false);
      }
      var p := GetChunk(j, rest);
      if p.None? {
        return None;
      }
      current := Some(p.value.0);
      rest := p.value.1;
      remaining := remaining - 1;
      r := Some(true);
    }
  }

  ghost function Behind(done: seq<Chunk>, p: Option<(seq<Chunk>, Bytes)>): (r: Option<seq<Chunk>>)
  {
    if p.None? then None else Some(done + p.value.0)
  }

  lemma BehindStep(j: Json, done: seq<Chunk>, s: Bytes, k: nat)
    requires k > 0
    ensures Behind(done, GetChunks(j, s, k)) ==
            match GetChunk(j, s)
            case None => None
            case Some((c, s1)) => Behind(done + [c], GetChunks(j, s1, k - 1))
  {
    hide GetChunk;
    var p := GetChunk(j, s);
    if p.Some? {
      var q := GetChunks(j, p.value.1, k - 1);
      if q.Some? {
        Assoc(done, [p.value.0], q.value.0);
      }
    }
  }

  /** Walks a block to its end, as the header scan does. */
  method ReadBlock(j: Json, s: Bytes) returns (r: Option<seq<Chunk>>)
    ensures r == GetBlock(j, s)
  {
    hide GetHeader, GetChunk;
    var h := GetHeader(s);
    if h.None? {
      return None;
    }
    ghost var goal := GetChunks(j, h.value.1, h.value.0);
    var reader := new BlockReader(j, h.value.1, h.value.0);
    var cs: seq<Chunk> := [];
    assert goal.Some? ==> [] + goal.value.0 == goal.value.0;
    while reader.remaining > 0
      invariant fresh(reader) && reader.j == j
      invariant Behind([], goal) == Behind(cs, GetChunks(j, reader.rest, reader.remaining))
      decreases reader.remaining
    {
      BehindStep(j, cs, reader.rest, reader.remaining);
      var more := reader.NextSeries();
      if more.None? {
        return None;
      }
      cs := cs + [reader.current.value];
    }
    assert cs + [] == cs;
    r := Some(cs);
  }

  // ---------------------------------------------------------------------
  // From samples to block and back
  // ---------------------------------------------------------------------

  /** The chunk built for a series; the metadata bounds come from the sorted
      timestamps, and bit lengths count the padding. */
  function SeriesChunk(metric: string, labels: map<string, string>, samples: seq<Point>): (c: Chunk)
    requires samples != []
  {
    var sorted := StableSort(samples);
    var e := Streams(sorted);
    Chunk(Meta(metric, labels, sorted[0].t, sorted[|sorted| - 1].t, |samples|), e,
          8 * |e.tsBits|, 8 * |e.valBits|)
  }

  /** What loading a chunk leaves true of it: the bytes of a stream hold its bits. */
  predicate Readable(c: Chunk)
  {
    c.tsBitsLen <= 8 * |c.body.tsBits| && c.valBitsLen <= 8 * |c.body.valBits|
  }

  lemma LoadedReadable(j: Json, s: Bytes)
    requires GetChunk(j, s).Some?
    ensures Readable(GetChunk(j, s).value.0)
  {
    hide GetLittleEndian, GetInt64, GetU64;
  }

  function ChunkTimes(c: Chunk): (r: Option<seq<Int64>>)
    requires Readable(c)
  {
    DecodeTimes(c.body.firstTs, BytesToBits(c.body.tsBits)[..c.tsBitsLen], c.meta.pointCount)
  }

  function ChunkWords(c: Chunk): (r: Option<seq<Word>>)
    requires Readable(c)
  {
    DecodeWords(c.body.firstVal, BytesToBits(c.body.valBits)[..c.valBitsLen], c.meta.pointCount)
  }

  /** What a reader gets back from a stored series: its metadata, its timestamps
      in stable time order, and its values exactly when every window is safe. */
  lemma SeriesRoundTrip(j: Json, metric: string, labels: map<string, string>, samples: seq<Point>, rest: Bytes)
    requires samples != [] && Inverse(j)
    requires Storable(j, SeriesChunk(metric, labels, samples))
    ensures var c := SeriesChunk(metric, labels, samples);
            var sorted := StableSort(samples);
            var vs := WordsOf(sorted);
            && GetChunk(j, ChunkWire(j, c) + rest) == Some((c, rest))
            && ChunkTimes(c) == Some(TimesOf(sorted))
            && (ChunkWords(c) == Some(vs) <==> AllSafe(State(vs[0], None), vs[1..]))
  {
    ChunkRoundTrip(j, SeriesChunk(metric, labels, samples), rest);
    SeriesDecodes(metric, labels, samples);
  }

  lemma SeriesDecodes(metric: string, labels: map<string, string>, samples: seq<Point>)
    requires samples != []
    ensures var c := SeriesChunk(metric, labels, samples);
            var sorted := StableSort(samples);
            var vs := WordsOf(sorted);
            && ChunkTimes(c) == Some(TimesOf(sorted))
            && (ChunkWords(c) == Some(vs) <==> AllSafe(State(vs[0], None), vs[1..]))
  {
    hide Streams, DecodeTimes, DecodeWords, StableSort, AllSafe;
    var c := SeriesChunk(metric, labels, samples);
    var ts, vals := BytesToBits(c.body.tsBits), BytesToBits(c.body.valBits);
    assert ts[..c.tsBitsLen] == ts && vals[..c.valBitsLen] == vals;
    SeriesTimesRoundTrip(StableSort(samples));
    SeriesValuesRoundTripIff(StableSort(samples));
  }

  ghost function BehindTs(done: seq<Int64>, p: Option<seq<Int64>>): (r: Option<seq<Int64>>)
  {
    if p.None? then None else Some(done + p.value)
  }

  ghost function BehindVs(done: seq<Word>, p: Option<seq<Word>>): (r: Option<seq<Word>>)
  {
    if p.None? then None else Some(done + p.value)
  }

  lemma BehindTsStep(done: seq<Int64>, s: seq<bool>, n: nat, prevTs: Int64, prevDelta: Int64)
    requires n > 0
    ensures BehindTs(done, ParseTs(s, n, prevTs, prevDelta)) ==
            match ParseDod(s)
            case None => None
            case Some((dd, rest)) =>
              var delta := Add(prevDelta, dd);
              var t := Add(prevTs, delta);
              BehindTs(done + [t], ParseTs(rest, n - 1, t, delta))
  {
    hide ParseDod;
    var p := ParseDod(s);
    if p.Some? {
      var delta := Add(prevDelta, p.value.0);
      var t := Add(prevTs, delta);
      var q := ParseTs(p.value.1, n - 1, t, delta);
      if q.Some? {
        Assoc(done, [t], q.value);
      }
    }
  }

  lemma BehindVsStep(done: seq<Word>, st: State, s: seq<bool>, n: nat)
    requires n > 0
    ensures BehindVs(done, DecodeAll(st, s, n)) ==
            match DecodeOne(st, s)
            case None => None
            case Some((st', rest)) => BehindVs(done + [st'.prev], DecodeAll(st', rest, n - 1))
  {
    hide DecodeOne;
    var p := DecodeOne(st, s);
    if p.Some? {
      var q := DecodeAll(p.value.0, p.value.1, n - 1);
      if q.Some? {
        Assoc(done, [p.value.0.prev], q.value);
      }
    }
  }

  /** What one step of the iterator yields: nothing more, an error, or a sample. */
  datatype Item = End | Fault | Yield(p: Point)

  /** Walks the samples of one chunk, reading both bit streams in step. */
  class SampleIter {
    const pointCount: nat
    const firstTs: Int64
    const firstVal: Word
    const tsReader: BitReader
    const valReader: BitReader
    const tsState: TsState
    const valState: ValState
    var emitted: nat

    ghost predicate Valid()
      reads this, tsReader, valReader, valState
    {
      && tsReader != valReader
      && tsReader.Valid() && valReader.Valid()
      && (emitted == 0 ==> valState.Carried().window == None)
    }

    constructor (c: Chunk)
      requires Readable(c)
      ensures Valid() && fresh(tsReader) && fresh(valReader) && fresh(tsState) && fresh(valState)
      ensures pointCount == c.meta.pointCount && emitted == 0
      ensures firstTs == c.body.firstTs && firstVal == c.body.firstVal
      ensures tsReader.Rest() == BytesToBits(c.body.tsBits)[..c.tsBitsLen]
      ensures valReader.Rest() == BytesToBits(c.body.valBits)[..c.valBitsLen]
    {
      pointCount, firstTs, firstVal := c.meta.pointCount, c.body.firstTs, c.body.firstVal;
      tsReader := new BitReader(c.body.tsBits, c.tsBitsLen);
      valReader := new BitReader(c.body.valBits, c.valBitsLen);
      tsState := new TsState(0);
      valState := new ValState(Zeros(64));
      emitted := 0;
    }

    /** The first sample comes from the header, the others off the two streams. */
    method Next() returns (r: Item)
      requires Valid()
      modifies this, tsReader, valReader, tsState, valState
      ensures Valid()
      ensures old(emitted) >= pointCount <==> r.End?
      ensures emitted == if r.End? then old(emitted) else old(emitted) + 1
      ensures old(emitted) == 0 < pointCount ==>
                && r == Yield(Point(firstTs, firstVal))
                && tsReader.Rest() == old(tsReader.Rest()) && valReader.Rest() == old(valReader.Rest())
                && tsState.prevTs == firstTs && tsState.prevDelta == 0
                && valState.Carried() == State(firstVal, None)
      ensures 0 < old(emitted) < pointCount ==>
                (r.Yield? <==> ParseDod(old(tsReader.Rest())).Some?
                               && DecodeOne(old(valState.Carried()), old(valReader.Rest())).Some?)
      ensures 0 < old(emitted) && r.Yield? ==>
                var (dd, tsRest) := ParseDod(old(tsReader.Rest())).value;
                var (st, valRest) := DecodeOne(old(valState.Carried()), old(valReader.Rest())).value;
                && tsReader.Rest() == tsRest && valReader.Rest() == valRest
                && tsState.prevDelta == Add(old(tsState.prevDelta), dd)
                && tsState.prevTs == Add(old(tsState.prevTs), tsState.prevDelta)
                && valState.Carried() == st
                && r.p == Point(tsState.prevTs, st.prev)
    {
      hide ParseDod, DecodeOne;
      if emitted >= pointCount {
        return End;
      }
      var idx := emitted;
      emitted := emitted + 1;
      if idx == 0 {
        tsState.prevTs, tsState.prevDelta := firstTs, 0;
        valState.prev := firstVal;
        return Yield(Point(firstTs, firstVal));
      }
      var t := tsState.Next(tsReader);
      if t.None? {
        return Fault;
      }
      var v := valState.Next(valReader);
      if v.None? {
        return Fault;
      }
      r := Yield(Point(t.value, v.value));
    }
  }

  /** Collects every sample of a chunk, or fails where either stream fails. */
  method Collect(c: Chunk) returns (r: Option<seq<Point>>)
    requires Readable(c)
    ensures r.Some? <==> ChunkTimes(c).Some? && ChunkWords(c).Some?
    ensures r.Some? ==> TimesOf(r.value) == ChunkTimes(c).value && WordsOf(r.value) == ChunkWords(c).value
  {
    hide ParseDod, DecodeOne, BytesToBits;
    var it := new SampleIter(c);
    var first := it.Next();
    if first.End? {
      return Some([]);
    }
    var out := [first.p];
    CollectOne(first.p);
    ghost var tsBits, valBits := it.tsReader.Rest(), it.valReader.Rest();
    ghost var n: nat := c.meta.pointCount - 1;
    ghost var goalTs := BehindTs([it.firstTs], ParseTs(tsBits, n, it.firstTs, 0));
    ghost var goalVs := BehindVs([it.firstVal], DecodeAll(State(it.firstVal, None), valBits, n));
    assert goalTs == ChunkTimes(c) && goalVs == ChunkWords(c);
    while true
      invariant fresh(it) && fresh(it.tsReader) && fresh(it.valReader) && fresh(it.tsState) && fresh(it.valState)
      invariant it.Valid() && 0 < it.emitted <= it.pointCount
      invariant goalTs == BehindTs(TimesOf(out), ParseTs(it.tsReader.Rest(), it.pointCount - it.emitted,
                                                         it.tsState.prevTs, it.tsState.prevDelta))
      invariant goalVs == BehindVs(WordsOf(out), DecodeAll(it.valState.Carried(), it.valReader.Rest(),
                                                           it.pointCount - it.emitted))
      decreases it.pointCount - it.emitted
    {
      if it.emitted < it.pointCount {
        BehindTsStep(TimesOf(out), it.tsReader.Rest(), it.pointCount - it.emitted,
                     it.tsState.prevTs, it.tsState.prevDelta);
        BehindVsStep(WordsOf(out), it.valState.Carried(), it.valReader.Rest(), it.pointCount - it.emitted);
      }
      var next := it.Next();
      match next {
        case End =>
          CollectDone(out);
          return Some(out);
        case Fault =>
          return None;
        case Yield(p) =>
          CollectSnoc(out, p);
          out := out + [p];
      }
    }
  }

  lemma CollectOne(p: Point)
    ensures TimesOf([p]) == [p.t] && WordsOf([p]) == [p.v]
  {
  }

  lemma CollectSnoc(ps: seq<Point>, p: Point)
    ensures TimesOf(ps + [p]) == TimesOf(ps) + [p.t]
    ensures WordsOf(ps + [p]) == WordsOf(ps) + [p.v]
  {
  }

  lemma CollectDone(ps: seq<Point>)
    ensures TimesOf(ps) + [] == TimesOf(ps) && WordsOf(ps) + [] == WordsOf(ps)
  {
  }
}
