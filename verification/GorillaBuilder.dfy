/**
 The block builder: samples are appended to the series in progress, closing a
 series turns it into a chunk, and finalizing writes every chunk out.
 */
module GorillaBuilder {
  import opened Common
  import opened Wire
  import opened GorillaValues
  import opened GorillaCodec
  import opened GorillaBlock

  /** A label list as a map; a later entry of the same name wins. */
  function LabelMap(labels: seq<(string, string)>): (m: map<string, string>)
  {
    if labels == [] then map[]
    else
      var (k, v) := labels[|labels| - 1];
      LabelMap(labels[..|labels| - 1])[k := v]
  }

  /** One closed series, as the caller gave it. */
  datatype Given = Given(metric: string, labels: map<string, string>, samples: seq<Point>)

  function ChunkOf(g: Given): (c: Chunk)
    requires g.samples != []
  {
    SeriesChunk(g.metric, g.labels, g.samples)
  }

  /** What closing a series checks: the sample count and the metadata length. */
  predicate Closable(j: Json, g: Given)
    requires g.samples != []
  {
    |g.samples| < TWO32 && |j.encode(ChunkOf(g).meta)| < TWO16
  }

  predicate BuiltFrom(j: Json, cs: seq<Chunk>, gs: seq<Given>)
  {
    && |cs| == |gs|
    && forall i :: 0 <= i < |gs| ==> gs[i].samples != [] && cs[i] == ChunkOf(gs[i]) && Closable(j, gs[i])
  }

  /** No stream of the block is too long for its 32-bit length field. */
  predicate ShortStreams(cs: seq<Chunk>)
  {
    forall i :: 0 <= i < |cs| ==> cs[i].tsBitsLen < TWO32 && cs[i].valBitsLen < TWO32
  }

  lemma BuiltStorable(j: Json, cs: seq<Chunk>, gs: seq<Given>)
    requires BuiltFrom(j, cs, gs) && ShortStreams(cs)
    ensures AllStorable(j, cs)
  {
    hide StableSort, Streams;
  }

  /** Every series of a block decodes to its timestamps in stable time order, and
      to its values exactly when every window it opens is safe. */
  lemma BuiltDecodes(j: Json, cs: seq<Chunk>, gs: seq<Given>)
    requires BuiltFrom(j, cs, gs)
    ensures forall i :: 0 <= i < |gs| ==>
              var vs := WordsOf(StableSort(gs[i].samples));
              && gs[i].samples != [] && Readable(cs[i])
              && ChunkTimes(cs[i]) == Some(TimesOf(StableSort(gs[i].samples)))
              && (ChunkWords(cs[i]) == Some(vs) <==> AllSafe(State(vs[0], None), vs[1..]))
  {
    hide StableSort, ChunkTimes, ChunkWords, AllSafe, Streams;
    forall i | 0 <= i < |gs|
      ensures var vs := WordsOf(StableSort(gs[i].samples));
              && gs[i].samples != [] && Readable(cs[i])
              && ChunkTimes(cs[i]) == Some(TimesOf(StableSort(gs[i].samples)))
              && (ChunkWords(cs[i]) == Some(vs) <==> AllSafe(State(vs[0], None), vs[1..]))
    {
      SeriesDecodes(gs[i].metric, gs[i].labels, gs[i].samples);
    }
  }

  /** The first and last timestamps after sorting are the least and the greatest. */
  lemma SortedBounds(samples: seq<Point>)
    requires samples != []
    ensures var sorted := StableSort(samples);
            forall p :: p in samples ==> sorted[0].t <= p.t <= sorted[|sorted| - 1].t
  {
    hide StableSort;
    var sorted := StableSort(samples);
    StableSortSorts(samples);
    forall p | p in samples
      ensures sorted[0].t <= p.t <= sorted[|sorted| - 1].t
    {
      assert p in multiset(samples);
      assert p in multiset(sorted);
      var k :| 0 <= k < |sorted| && sorted[k] == p;
    }
  }

  class Builder {
    const j: Json
    var series: seq<Chunk>
    var pendingMetric: Option<string>
    var pendingLabels: seq<(string, string)>
    var pendingSamples: seq<Point>

    /** The series closed so far, in the order they were closed. */
    ghost var closed: seq<Given>

    ghost predicate Valid()
      reads this
    {
      BuiltFrom(j, series, closed)
    }

    constructor (j: Json, metric: string, labels: seq<(string, string)>)
      ensures Valid() && this.j == j && closed == [] && pendingSamples == []
      ensures pendingMetric == Some(metric) && pendingLabels == labels
    {
      this.j, series, closed := j, [], [];
      pendingMetric, pendingLabels, pendingSamples := Some(metric), labels, [];
    }

    /** The unsigned timestamp is reinterpreted as a signed one. */
    method Append(ts: U64, value: Word)
      requires Valid()
      modifies this`pendingSamples
      ensures Valid()
      ensures pendingSamples == old(pendingSamples) + [Point(ToInt64(ts), value)]
    {
      pendingSamples := pendingSamples + [Point(ToInt64(ts), value)];
    }

    method CollectLabels(labels: seq<(string, string)>) returns (m: map<string, string>)
      ensures m == LabelMap(labels)
    {
      m := map[];
      for i := 0 to |labels|
        invariant m == LabelMap(labels[..i])
      {
        var (k, v) := labels[i];
        assert labels[..i + 1][..i] == labels[..i];
        m := m[k := v];
      }
      assert labels[..|labels|] == labels;
    }

    /** The series in progress, or nothing to close: none was started, or it has
        no samples. */
    ghost function Pending(): (g: Option<Given>)
      reads this
    {
      if pendingMetric.None? || pendingSamples == [] then None
      else Some(Given(pendingMetric.value, LabelMap(pendingLabels), pendingSamples))
    }

    method FlushPending() returns (ok: bool)
      requires Valid()
      modifies this
      ensures Valid() && Pending().None?
      ensures ok <==> old(Pending()).None? || (var g := old(Pending()).value;
                                              |g.samples| < 0x1_0000_0000 && |j.encode(ChunkOf(g).meta)| < 0x1_0000)
      ensures closed == if ok && old(Pending()).Some? then old(closed) + [old(Pending()).value] else old(closed)
    {
      hide StableSort, Streams, LabelMap;
      if pendingMetric.None? {
        return true;
      }
      var metric, labels, samples := pendingMetric.value, pendingLabels, pendingSamples;
      pendingMetric, pendingLabels, pendingSamples := None, [], [];
      if samples == [] {
        return true;
      }
      if |samples| >= TWO32 {
        return false;
      }
      var e := EncodeSeries(samples);
      var sorted := StableSort(samples);
      var attributes := CollectLabels(labels);
      var meta := Meta(metric, attributes, sorted[0].t, sorted[|sorted| - 1].t, |samples|);
      if |j.encode(meta)| >= TWO16 {
        return false;
      }
      ghost var g := Given(metric, attributes, samples);
      series := series + [Chunk(meta, e, 8 * |e.tsBits|, 8 * |e.valBits|)];
      closed := closed + [g];
      ok := true;
    }

    /** Closes the series in progress and starts another; `false`, with that series
        gone and none started, when its metadata or sample count does not fit. */
    method WithSeries(metric: string, labels: seq<(string, string)>) returns (ok: bool)
      requires Valid()
      modifies this
      ensures Valid()
      ensures ok <==> old(Pending()).None? || (var g := old(Pending()).value;
                                              |g.samples| < 0x1_0000_0000 && |j.encode(ChunkOf(g).meta)| < 0x1_0000)
      ensures ok ==>
                && closed == (if old(Pending()).Some? then old(closed) + [old(Pending()).value] else old(closed))
                && pendingMetric == Some(metric) && pendingLabels == labels && pendingSamples == []
      ensures !ok ==> closed == old(closed) && Pending().None?
    {
      ok := FlushPending();
      if ok {
        pendingMetric, pendingLabels, pendingSamples := Some(metric), labels, [];
      }
    }

    /** The finished block parses back to one chunk for every series that was
        given samples, in the order they were closed. */
    method Finalize() returns (r: Option<Bytes>)
      requires Valid()
      modifies this
      ensures Valid()
      ensures r.Some? <==> old(Pending()).None? || (var g := old(Pending()).value;
                                              |g.samples| < 0x1_0000_0000 && |j.encode(ChunkOf(g).meta)| < 0x1_0000)
      ensures r.Some? ==>
                && closed == (if old(Pending()).Some? then old(closed) + [old(Pending()).value] else old(closed))
                && (Inverse(j) && ShortStreams(series) && |series| < TWO32 ==> GetBlock(j, r.value) == Some(series))
    {
      hide ChunkOf, GetBlock, HeaderWire, ChunksWire;
      var ok := FlushPending();
      if !ok {
        return None;
      }
      MetaLengths(j, series, closed);
      r := WriteBlock(j, series);
      if Inverse(j) && ShortStreams(series) && |series| < TWO32 {
        BuiltStorable(j, series, closed);
        BlockRoundTrip(j, series);
      }
    }
  }

  lemma MetaLengths(j: Json, cs: seq<Chunk>, gs: seq<Given>)
    requires BuiltFrom(j, cs, gs)
    ensures forall i :: 0 <= i < |cs| ==> |j.encode(cs[i].meta)| < TWO16
  {
    hide ChunkOf;
  }
}
