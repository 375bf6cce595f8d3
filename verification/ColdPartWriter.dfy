/** Writing a cold part: sort, intern, encode, lay out. */
module ColdPartWriter {
  import opened Bits
  import opened Common
  import opened Wire
  import opened Order
  import opened IntChunk
  import opened IntChunkCodec
  import opened BestOf
  import opened ColdPartFormat
  import opened ColdPart

  // ---------------------------------------------------------------------
  // Label-set order
  // ---------------------------------------------------------------------

  predicate LabelsLess(a: seq<Label>, b: seq<Label>)
  {
    if a == [] then b != []
    else if b == [] then false
    else if a[0].name != b[0].name then Less(a[0].name, b[0].name)
    else if a[0].value != b[0].value then Less(a[0].value, b[0].value)
    else LabelsLess(a[1..], b[1..])
  }

  lemma {:induction false} LabelsLessTransitive(a: seq<Label>, b: seq<Label>, c: seq<Label>)
    requires LabelsLess(a, b) && LabelsLess(b, c)
    ensures LabelsLess(a, c)
  {
    hide Less;
    if a != [] {
      if a[0].name != b[0].name || b[0].name != c[0].name {
        if a[0].name != b[0].name && b[0].name != c[0].name {
          LessTransitive(a[0].name, b[0].name, c[0].name);
          LessAsymmetric(a[0].name, c[0].name);
        }
      } else if a[0].value != b[0].value || b[0].value != c[0].value {
        if a[0].value != b[0].value && b[0].value != c[0].value {
          LessTransitive(a[0].value, b[0].value, c[0].value);
          LessAsymmetric(a[0].value, c[0].value);
        }
      } else {
        LabelsLessTransitive(a[1..], b[1..], c[1..]);
      }
    }
  }

  lemma {:induction false} LabelsLessIrreflexive(a: seq<Label>)
    ensures !LabelsLess(a, a)
  {
    if a != [] {
      LabelsLessIrreflexive(a[1..]);
    }
  }

  /** No series sorts strictly before an earlier one. */
  ghost predicate Ordered(ss: seq<Series>)
  {
    forall i, j :: 0 <= i < j < |ss| ==> !LabelsLess(ss[j].labels, ss[i].labels)
  }

  lemma InsertOrdered(ss: seq<Series>, s: Series, p: nat)
    requires Ordered(ss) && p <= |ss|
    requires forall i :: 0 <= i < p ==> !LabelsLess(s.labels, ss[i].labels)
    requires p < |ss| ==> LabelsLess(s.labels, ss[p].labels)
    ensures Ordered(ss[..p] + [s] + ss[p..])
  {
    hide LabelsLess;
    forall q | p <= q < |ss|
      ensures !LabelsLess(ss[q].labels, s.labels)
    {
      if LabelsLess(ss[q].labels, s.labels) {
        LabelsLessTransitive(ss[q].labels, s.labels, ss[p].labels);
        LabelsLessIrreflexive(ss[p].labels);
      }
    }
  }

  method InsertSeries(ss: seq<Series>, s: Series) returns (r: seq<Series>)
    requires Ordered(ss)
    ensures Ordered(r) && multiset(r) == multiset(ss) + multiset{s}
  {
    var p := 0;
    while p < |ss| && !LabelsLess(s.labels, ss[p].labels)
      invariant p <= |ss|
      invariant forall i :: 0 <= i < p ==> !LabelsLess(s.labels, ss[i].labels)
    {
      p := p + 1;
    }
    InsertOrdered(ss, s, p);
    r := ss[..p] + [s] + ss[p..];
    assert ss == ss[..p] + ss[p..];
  }

  method SortSeries(ss: seq<Series>) returns (r: seq<Series>)
    ensures Ordered(r) && multiset(r) == multiset(ss)
  {
    r := [];
    for i := 0 to |ss|
      invariant Ordered(r) && multiset(r) == multiset(ss[..i])
    {
      assert ss[..i + 1] == ss[..i] + [ss[i]];
      r := InsertSeries(r, ss[i]);
    }
    assert ss[..|ss|] == ss;
  }

  // ---------------------------------------------------------------------
  // Symbols and references
  // ---------------------------------------------------------------------

  predicate Interned(idx: map<Str, nat>, ls: seq<Label>)
  {
    forall k :: 0 <= k < |ls| ==> ls[k].name in idx && ls[k].value in idx
  }

  method InternLabels(t: SymbolTable, ls: seq<Label>)
    requires t.Valid()
    modifies t
    ensures t.Valid() && Interned(t.idx, ls)
    ensures forall s :: s in old(t.idx) ==> s in t.idx
  {
    for k := 0 to |ls|
      invariant t.Valid() && Interned(t.idx, ls[..k])
      invariant forall s :: s in old(t.idx) ==> s in t.idx
    {
      t.Intern(ls[k].name);
      t.Intern(ls[k].value);
    }
    assert ls[..|ls|] == ls;
  }

  /** Fails on the first series without samples. */
  method BuildSymbols(ss: seq<Series>) returns (t: SymbolTable, ok: bool)
    ensures fresh(t) && t.Valid()
    ensures ok <==> NonEmpty(ss)
    ensures ok ==> forall i :: 0 <= i < |ss| ==> Interned(t.idx, ss[i].labels)
  {
    t := new SymbolTable();
    for i := 0 to |ss|
      invariant fresh(t) && t.Valid()
      invariant forall j :: 0 <= j < i ==> ss[j].samples != [] && Interned(t.idx, ss[j].labels)
    {
      if |ss[i].samples| == 0 {
        return t, false;
      }
      InternLabels(t, ss[i].labels);
    }
    ok := true;
  }

  method BuildRefs(t: SymbolTable, ls: seq<Label>) returns (refs: seq<nat>)
    requires t.Valid() && Interned(t.idx, ls)
    ensures Names(t.syms, refs, ls)
  {
    refs := [];
    for k := 0 to |ls|
      invariant Names(t.syms, refs, ls[..k])
    {
      refs := refs + [t.idx[ls[k].name], t.idx[ls[k].value]];
    }
    assert ls[..|ls|] == ls;
  }

  // ---------------------------------------------------------------------
  // Chunk runs
  // ---------------------------------------------------------------------

  lemma {:induction false} ConcatSnoc(cs: seq<Bytes>, c: Bytes)
    ensures Concat(cs + [c]) == Concat(cs) + c
  {
    if cs == [] {
      assert [c] == [c] + [] && cs + [c] == [c];
      assert Concat([c]) == c + [] == c;
      assert [] + c == c;
    } else {
      assert (cs + [c])[1..] == cs[1..] + [c];
      ConcatSnoc(cs[1..], c);
      Assoc(cs[0], Concat(cs[1..]), c);
    }
  }

  lemma {:induction false} LengthsSnoc(cs: seq<Bytes>, c: Bytes)
    ensures Lengths(cs + [c]) == Lengths(cs) + [|c|]
  {
    if cs == [] {
      assert cs + [c] == [c] && [c][1..] == [];
    } else {
      assert (cs + [c])[1..] == cs[1..] + [c];
      LengthsSnoc(cs[1..], c);
    }
  }

  method AppendRun(region: Bytes, chunks: seq<Bytes>) returns (out: Bytes, runLen: nat, lens: seq<nat>)
    ensures out == region + Concat(chunks) && runLen == |Concat(chunks)| && lens == Lengths(chunks)
  {
    out, runLen, lens := region, 0, [];
    assert region + [] == region;
    for i := 0 to |chunks|
      invariant out == region + Concat(chunks[..i]) && runLen == |Concat(chunks[..i])|
      invariant lens == Lengths(chunks[..i])
    {
      var c := chunks[i];
      assert chunks[..i + 1] == chunks[..i] + [c];
      ConcatSnoc(chunks[..i], c);
      LengthsSnoc(chunks[..i], c);
      Assoc(region, Concat(chunks[..i]), c);
      out := out + c;
      runLen := runLen + |c|;
      lens := lens + [|c|];
    }
    assert chunks[..|chunks|] == chunks;
  }

  /** No candidate encoding of the samples is smaller. */
  ghost predicate Best(a: Arith, x: Xor, samples: seq<Sample>, c: Candidate)
    requires |samples| < TWO64
  {
    && IsCandidate(a, x, samples, c)
    && forall d :: IsCandidate(a, x, samples, d) ==> Beats(c, d)
  }

  lemma CandidateNonEmpty(a: Arith, x: Xor, samples: seq<Sample>, c: Candidate)
    requires 0 < |samples| < TWO64 && IsCandidate(a, x, samples, c)
    ensures c.chunks != []
  {
    if IsIntCandidate(a, samples, c) {
      var e: nat, dod, body :|
        IsScale(a, Values(samples), e) && c == IntCandidate(a, samples, e, dod, body);
      hide CutEnd, ChunkBytes;
      ChunksStep(IntBlock(a, samples, e), dod, body);
    }
  }

  ghost predicate Encodes(a: Arith, x: Xor, syms: seq<Str>, s: Series, c: Candidate, run: Bytes, e: Entry)
  {
    && 0 < |s.samples| < TWO64 && Best(a, x, s.samples, c)
    && Names(syms, e.refs, s.labels)
    && run == Concat(c.chunks) && e.runLen == |run| && e.lens == Lengths(c.chunks)
    && e.minTs == s.samples[0].t && e.maxTs == s.samples[|s.samples| - 1].t
  }

  /** Runs and entries of the first series, with offsets inside the chunk region. */
  ghost predicate AllEncoded(a: Arith, x: Xor, syms: seq<Str>, ss: seq<Series>, cs: seq<Candidate>,
                             runs: seq<Bytes>, es: seq<Entry>)
  {
    && |cs| == |runs| == |es| == |ss|
    && forall i :: 0 <= i < |ss| ==>
         Encodes(a, x, syms, ss[i], cs[i], runs[i], es[i]) && es[i].off == |Concat(runs[..i])|
  }

  ghost predicate Encodable(a: Arith, x: Xor, s: Series)
    requires |s.samples| < TWO64
  {
    exists c :: IsCandidate(a, x, s.samples, c)
  }

  lemma EncodedSnoc(a: Arith, x: Xor, syms: seq<Str>, ss: seq<Series>, cs: seq<Candidate>,
                    runs: seq<Bytes>, es: seq<Entry>, s: Series, c: Candidate, run: Bytes, e: Entry)
    requires AllEncoded(a, x, syms, ss, cs, runs, es)
    requires Encodes(a, x, syms, s, c, run, e) && e.off == |Concat(runs)|
    ensures AllEncoded(a, x, syms, ss + [s], cs + [c], runs + [run], es + [e])
  {
    hide Encodes, Concat;
    var all := runs + [run];
    forall i | 0 <= i <= |ss|
      ensures Encodes(a, x, syms, (ss + [s])[i], (cs + [c])[i], all[i], (es + [e])[i])
              && (es + [e])[i].off == |Concat(all[..i])|
    {
      if i == |ss| {
        assert all[..i] == runs;
      } else {
        assert all[..i] == runs[..i];
      }
    }
  }

  method EncodeSeries(a: Arith, x: Xor, t: SymbolTable, s: Series, region: Bytes)
    returns (out: Bytes, e: Option<Entry>, ghost c: Candidate, ghost run: Bytes)
    requires t.Valid() && Interned(t.idx, s.labels)
    requires 0 < |s.samples| < TWO64
    ensures e.Some? <==> Encodable(a, x, s)
    ensures e.Some? ==> Encodes(a, x, t.syms, s, c, run, e.value) && e.value.off == |region| && out == region + run
  {
    hide IsCandidate, TotalLength, Concat, Lengths;
    var best := Encode(a, x, s.samples);
    c, run, out := Candidate(0, []), [], region;
    if best.None? {
      return out, None, c, run;
    }
    c := best.value;
    var runLen, lens;
    out, runLen, lens := AppendRun(region, best.value.chunks);
    run := Concat(c.chunks);
    var refs := BuildRefs(t, s.labels);
    e := Some(Entry(refs, |region|, runLen, lens, s.samples[0].t, s.samples[|s.samples| - 1].t));
  }

  method EncodeAll(a: Arith, x: Xor, t: SymbolTable, ss: seq<Series>)
    returns (ok: bool, region: Bytes, es: seq<Entry>, ghost cs: seq<Candidate>, ghost runs: seq<Bytes>)
    requires t.Valid() && forall i :: 0 <= i < |ss| ==> Interned(t.idx, ss[i].labels)
    requires forall i :: 0 <= i < |ss| ==> 0 < |ss[i].samples| < TWO64
    ensures ok <==> forall i :: 0 <= i < |ss| ==> Encodable(a, x, ss[i])
    ensures ok ==> AllEncoded(a, x, t.syms, ss, cs, runs, es) && region == Concat(runs)
  {
    hide Encodable, Encodes, Interned, SymbolTable.Valid;
    region, es, cs, runs := [], [], [], [];
    for i := 0 to |ss|
      invariant AllEncoded(a, x, t.syms, ss[..i], cs, runs, es) && region == Concat(runs)
      invariant forall j :: 0 <= j < i ==> Encodable(a, x, ss[j])
    {
      ghost var c, run;
      var e;
      ghost var before := region;
      region, e, c, run := EncodeSeries(a, x, t, ss[i], region);
      if e.None? {
        return false, region, es, cs, runs;
      }
      EncodedSnoc(a, x, t.syms, ss[..i], cs, runs, es, ss[i], c, run, e.value);
      assert ss[..i + 1] == ss[..i] + [ss[i]];
      ConcatSnoc(runs, run);
      es, cs, runs := es + [e.value], cs + [c], runs + [run];
    }
    assert ss[..|ss|] == ss;
    ok := true;
  }

  // ---------------------------------------------------------------------
  // Emitting the regions
  // ---------------------------------------------------------------------

  method WriteUvarints(ns: seq<nat>) returns (out: Bytes)
    ensures out == UvarintRun(ns)
  {
    out := [];
    ghost var todo := UvarintRun(ns);
    assert [] + todo == todo;
    for i := 0 to |ns|
      invariant out + UvarintRun(ns[i..]) == UvarintRun(ns)
    {
      ghost var tail := UvarintRun(ns[i + 1..]);
      assert ns[i..][1..] == ns[i + 1..];
      Assoc(out, Uvarint(ns[i]), tail);
      out := out + Uvarint(ns[i]);
    }
    assert ns[|ns|..] == [];
    assert out + [] == out;
  }

  method WriteEntry(e: Entry) returns (out: Bytes)
    ensures out == EntryWire(e)
  {
    hide Uvarint, UvarintRun, LittleEndian;
    var refs := WriteUvarints(e.refs);
    var lens := WriteUvarints(e.lens);
    var tail := LittleEndian(e.off, 8)
      + (LittleEndian(e.runLen % TWO32, 4)
         + (Uvarint(|e.lens|) + (lens + (LittleEndian(ToU64(e.minTs), 8) + LittleEndian(ToU64(e.maxTs), 8)))));
    out := Uvarint(|e.refs| / 2) + (refs + tail);
  }

  function Shift(es: seq<Entry>, base: nat): (r: seq<Entry>)
    ensures |r| == |es|
  {
    seq(|es|, i requires 0 <= i < |es| => es[i].(off := base + es[i].off))
  }

  /** Offsets become absolute as the entries are written. */
  method WriteIndex(es: seq<Entry>, chunksStart: nat) returns (out: Bytes)
    ensures out == IndexWire(Shift(es, chunksStart))
  {
    hide EntryWire;
    out := [];
    ghost var abs := Shift(es, chunksStart);
    assert abs[0..] == abs && [] + IndexWire(abs) == IndexWire(abs);
    for i := 0 to |es|
      invariant out + IndexWire(abs[i..]) == IndexWire(abs)
    {
      var w := WriteEntry(es[i].(off := chunksStart + es[i].off));
      assert abs[i..][0] == abs[i] && abs[i..][1..] == abs[i + 1..];
      Assoc(out, w, IndexWire(abs[i + 1..]));
      out := out + w;
    }
    assert out + [] == out;
  }

  method WriteSymbols(syms: seq<Str>) returns (out: Bytes)
    ensures out == SymbolsWire(syms)
  {
    hide Uvarint;
    out := [];
    assert syms[0..] == syms && [] + SymbolsWire(syms) == SymbolsWire(syms);
    for i := 0 to |syms|
      invariant out + SymbolsWire(syms[i..]) == SymbolsWire(syms)
    {
      ghost var tail := SymbolsWire(syms[i + 1..]);
      assert syms[i..][0] == syms[i] && syms[i..][1..] == syms[i + 1..];
      var n := Uvarint(|syms[i]|);
      Assoc(out, n, syms[i] + tail);
      Assoc(out + n, syms[i], tail);
      out := out + n + syms[i];
    }
    assert out + [] == out;
  }

  method Emit(crc: Crc, start: Int64, end: Int64, region: Bytes, es: seq<Entry>, syms: seq<Str>, ghost runs: seq<Bytes>)
    returns (out: Bytes, ghost im: Image)
    requires region == Concat(runs)
    ensures im == Image(start, end, runs, Shift(es, |HeaderWire(start, end, |es|)|), syms)
    ensures out == Assemble(crc, Image(start, end, runs, Shift(es, |HeaderWire(start, end, |es|)|), syms))
  {
    hide HeaderWire, IndexWire, SymbolsWire, FooterWire, Concat, LittleEndian, Uvarint;
    var head := HeaderWire(start, end, |es|);
    var chunksStart := |head|;
    var indexOff := chunksStart + |region|;
    var index := WriteIndex(es, chunksStart);
    var symtabOff := indexOff + |index|;
    var symbols := WriteSymbols(syms);
    var symtab := Uvarint(|syms|) + symbols;
    var foot := FooterWire(indexOff, |index|, symtabOff);
    var buf := head + (region + (index + (symtab + foot)));
    im := Image(start, end, runs, Shift(es, chunksStart), syms);
    out := buf + LittleEndian(crc(buf), 4);
  }

  lemma EncodedHolds(a: Arith, x: Xor, ss: seq<Series>, cs: seq<Candidate>, es: seq<Entry>, im: Image)
    requires Lossless(x) && AllEncoded(a, x, im.syms, ss, cs, im.runs, es)
    requires im.entries == Shift(es, |HeaderWire(im.start, im.end, |es|)|)
    ensures Holds(a, x, im, ss, cs)
  {
    hide HeaderWire, Concat, Lengths, IsCandidate, Faithful, Best, Names;
    forall i | 0 <= i < |ss|
      ensures ss[i].samples != [] && HoldsAt(a, x, im, i, ss[i], cs[i])
    {
      assert Encodes(a, x, im.syms, ss[i], cs[i], im.runs[i], es[i]);
      assert IsCandidate(a, x, ss[i].samples, cs[i]) by { BestIs(a, x, ss[i].samples, cs[i]); }
      CandidateFaithful(a, x, ss[i].samples, cs[i]);
      CandidateNonEmpty(a, x, ss[i].samples, cs[i]);
    }
  }

  lemma BestIs(a: Arith, x: Xor, samples: seq<Sample>, c: Candidate)
    requires |samples| < TWO64 && Best(a, x, samples, c)
    ensures IsCandidate(a, x, samples, c)
  {
  }

  predicate Acceptable(series: seq<Series>)
  {
    forall i :: 0 <= i < |series| ==> |series[i].samples| < TWO64
  }

  /** Why a part cannot be written. */
  ghost predicate Refused(a: Arith, x: Xor, start: Int64, end: Int64, series: seq<Series>)
    requires Acceptable(series)
  {
    end < start || !NonEmpty(series) || exists i :: 0 <= i < |series| && !Encodable(a, x, series[i])
  }

  lemma SortedSame(series: seq<Series>, ss: seq<Series>, i: nat) returns (j: nat)
    requires multiset(ss) == multiset(series) && i < |ss|
    ensures j < |series| && series[j] == ss[i]
  {
    assert ss[i] in multiset(ss);
    assert ss[i] in series;
    j :| 0 <= j < |series| && series[j] == ss[i];
  }

  lemma RefusedSorted(a: Arith, x: Xor, start: Int64, end: Int64, series: seq<Series>, ss: seq<Series>)
    requires multiset(ss) == multiset(series) && Acceptable(series)
    ensures Acceptable(ss)
    ensures Refused(a, x, start, end, series) <==> Refused(a, x, start, end, ss)
  {
    hide Encodable;
    forall i | 0 <= i < |ss|
      ensures ss[i] in series
    {
      var j := SortedSame(series, ss, i);
    }
    forall i | 0 <= i < |series|
      ensures series[i] in ss
    {
      var j := SortedSame(ss, series, i);
    }
  }

  /** On success the part holds the input series in label order, each under its
      smallest encoding; it fails on a bad time range, a series without samples or
      a series no codec can encode. */
  method WritePart(crc: Crc, a: Arith, x: Xor, start: Int64, end: Int64, series: seq<Series>)
    returns (r: Option<Bytes>, ghost im: Image, ghost ss: seq<Series>, ghost cs: seq<Candidate>)
    requires Lossless(x) && Acceptable(series)
    ensures r.None? <==> Refused(a, x, start, end, series)
    ensures r.Some? ==>
              && r.value == Assemble(crc, im) && im.start == start && im.end == end
              && Ordered(ss) && multiset(ss) == multiset(series) && Holds(a, x, im, ss, cs)
              && forall i :: 0 <= i < |ss| ==> |ss[i].samples| < TWO64 && Best(a, x, ss[i].samples, cs[i])
  {
    hide Encodable, Assemble, Interned, HeaderWire, Holds, Best, Ordered, Concat, SymbolTable.Valid;
    r, im, ss, cs := None, Image(start, end, [], [], []), [], [];
    if end < start {
      return;
    }
    var sorted := SortSeries(series);
    ss := sorted;
    RefusedSorted(a, x, start, end, series, ss);
    var t, ok := BuildSymbols(sorted);
    if !ok {
      return;
    }
    var region, es;
    ghost var runs;
    ok, region, es, cs, runs := EncodeAll(a, x, t, sorted);
    if !ok {
      return;
    }
    var out;
    out, im := Emit(crc, start, end, region, es, t.syms, runs);
    EncodedHolds(a, x, ss, cs, es, im);
    r := Some(out);
  }
}
