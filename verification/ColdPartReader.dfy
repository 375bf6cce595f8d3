/** Opening a cold part and querying it. */
module ColdPartReader {
  import opened Bits
  import opened Common
  import opened Wire
  import opened BestOf
  import opened ColdPartFormat
  import opened ColdPart

  /** What a list parse returns once `done` has already been read. */
  function After<T>(done: seq<T>, p: Option<(seq<T>, Bytes)>): (r: Option<(seq<T>, Bytes)>)
  {
    if p.None? then None else Some((done + p.value.0, p.value.1))
  }

  lemma AfterStep<T>(done: seq<T>, v: T, p: Option<(seq<T>, Bytes)>)
    ensures After(done, After([v], p)) == After(done + [v], p)
  {
    if p.Some? {
      Assoc(done, [v], p.value.0);
    }
  }

  lemma AfterNothing<T>(p: Option<(seq<T>, Bytes)>)
    ensures After([], p) == p
  {
    if p.Some? {
      assert [] + p.value.0 == p.value.0;
    }
  }

  lemma AfterEnd<T>(done: seq<T>, rest: Bytes)
    ensures After(done, Some(([], rest))) == Some((done, rest))
  {
    assert done + [] == done;
  }

  method ReadUvarints(r: Reader, k: nat) returns (out: Option<seq<nat>>)
    requires r.Valid()
    modifies r
    ensures r.Valid()
    ensures Reads(GetUvarintRun(old(r.Rest()), k), out, r.Rest())
  {
    hide GetUvarint;
    var done: seq<nat> := [];
    AfterNothing(GetUvarintRun(r.Rest(), k));
    for i := 0 to k
      invariant r.Valid()
      invariant GetUvarintRun(old(r.Rest()), k) == After(done, GetUvarintRun(r.Rest(), k - i))
    {
      var v := r.ReadUvarint();
      if v.None? {
        return None;
      }
      AfterStep(done, v.value, GetUvarintRun(r.Rest(), k - i - 1));
      done := done + [v.value];
    }
    AfterEnd(done, r.Rest());
    out := Some(done);
  }

  method ReadSymbols(r: Reader, k: nat) returns (out: Option<seq<Str>>)
    requires r.Valid()
    modifies r
    ensures r.Valid()
    ensures Reads(GetSymbols(old(r.Rest()), k), out, r.Rest())
  {
    hide GetUvarint, Take;
    var done: seq<Str> := [];
    AfterNothing(GetSymbols(r.Rest(), k));
    for i := 0 to k
      invariant r.Valid()
      invariant GetSymbols(old(r.Rest()), k) == After(done, GetSymbols(r.Rest(), k - i))
    {
      var n := r.ReadUvarint();
      if n.None? {
        return None;
      }
      var s := r.ReadTake(n.value);
      if s.None? {
        return None;
      }
      AfterStep(done, s.value, GetSymbols(r.Rest(), k - i - 1));
      done := done + [s.value];
    }
    AfterEnd(done, r.Rest());
    out := Some(done);
  }

  method ReadEntryTail(r: Reader, refs: seq<nat>) returns (out: Option<Entry>)
    requires r.Valid()
    modifies r
    ensures r.Valid()
    ensures Reads(GetEntryTail(old(r.Rest()), refs), out, r.Rest())
  {
    hide GetUvarint, GetUvarintRun, GetU64, GetInt64, GetLittleEndian;
    var off := r.ReadU64();
    if off.None? { return None; }
    var len := r.ReadLittleEndian(4);
    if len.None? { return None; }
    var n := r.ReadUvarint();
    if n.None? { return None; }
    var lens := ReadUvarints(r, n.value);
    if lens.None? { return None; }
    var lo := r.ReadInt64();
    if lo.None? { return None; }
    var hi := r.ReadInt64();
    if hi.None? { return None; }
    out := Some(Entry(refs, off.value, len.value, lens.value, lo.value, hi.value));
  }

  method ReadEntry(r: Reader) returns (out: Option<Entry>)
    requires r.Valid()
    modifies r
    ensures r.Valid()
    ensures Reads(GetEntry(old(r.Rest())), out, r.Rest())
  {
    hide GetUvarint, GetUvarintRun, GetEntryTail;
    var n := r.ReadUvarint();
    if n.None? {
      return None;
    }
    var refs := ReadUvarints(r, 2 * n.value);
    if refs.None? {
      return None;
    }
    out := ReadEntryTail(r, refs.value);
  }

  method ReadIndex(r: Reader, k: nat) returns (out: Option<seq<Entry>>)
    requires r.Valid()
    modifies r
    ensures r.Valid()
    ensures Reads(GetIndex(old(r.Rest()), k), out, r.Rest())
  {
    hide GetEntry;
    var done: seq<Entry> := [];
    AfterNothing(GetIndex(r.Rest(), k));
    for i := 0 to k
      invariant r.Valid()
      invariant GetIndex(old(r.Rest()), k) == After(done, GetIndex(r.Rest(), k - i))
    {
      var e := ReadEntry(r);
      if e.None? {
        return None;
      }
      AfterStep(done, e.value, GetIndex(r.Rest(), k - i - 1));
      done := done + [e.value];
    }
    AfterEnd(done, r.Rest());
    out := Some(done);
  }

  /** The label builder, one reference pair at a time. */
  method BuildLabels(syms: seq<Str>, refs: seq<nat>) returns (r: Option<seq<Label>>)
    requires |refs| % 2 == 0
    ensures r == ResolveLabels(syms, refs)
  {
    hide BuilderSet;
    var ls: seq<Label> := [];
    for k := 0 to |refs| / 2
      invariant ResolveLabels(syms, refs[..2 * k]) == Some(ls)
    {
      var name, value := refs[2 * k], refs[2 * k + 1];
      ghost var upto := refs[..2 * k + 2];
      assert upto[..2 * k] == refs[..2 * k];
      assert ResolveLabels(syms, upto) ==
             if name >= |syms| || value >= |syms| then None else Some(BuilderSet(ls, Label(syms[name], syms[value])));
      if name >= |syms| || value >= |syms| {
        UnresolvedPrefix(syms, refs, k + 1);
        return None;
      }
      ls := BuilderSet(ls, Label(syms[name], syms[value]));
    }
    assert refs[..|refs|] == refs;
    r := Some(ls);
  }

  lemma {:induction false} UnresolvedPrefix(syms: seq<Str>, refs: seq<nat>, k: nat)
    requires |refs| % 2 == 0 && 2 * k <= |refs| && ResolveLabels(syms, refs[..2 * k]).None?
    ensures ResolveLabels(syms, refs).None?
    decreases |refs|
  {
    if 2 * k == |refs| {
      assert refs[..2 * k] == refs;
    } else {
      var n := |refs| - 2;
      assert refs[..n][..2 * k] == refs[..2 * k];
      UnresolvedPrefix(syms, refs[..n], k);
    }
  }

  /** The sum as a 64-bit accumulator has it. */
  method SumLens(lens: seq<nat>) returns (n: nat)
    ensures n == Sum(lens) % TWO64
  {
    n := 0;
    assert lens[0..] == lens;
    for i := 0 to |lens|
      invariant n < TWO64 && (n + Sum(lens[i..])) % TWO64 == Sum(lens) % TWO64
    {
      assert lens[i..][0] == lens[i] && lens[i..][1..] == lens[i + 1..];
      WrapSum(n + lens[i], Sum(lens[i + 1..]));
      n := (n + lens[i]) % TWO64;
    }
  }

  lemma WrapSum(a: nat, b: nat)
    ensures (a % TWO64 + b) % TWO64 == (a + b) % TWO64
  {
  }

  function Known(done: seq<Indexed>, p: Option<seq<Indexed>>): (r: Option<seq<Indexed>>)
  {
    if p.None? then None else Some(done + p.value)
  }

  method ResolveAll(syms: seq<Str>, es: seq<Entry>, size: nat) returns (r: Option<seq<Indexed>>)
    requires Paired(es)
    ensures r == ResolveIndex(syms, es, size)
  {
    hide ResolveLabels, Sum;
    var done: seq<Indexed> := [];
    ghost var goal := ResolveIndex(syms, es, size);
    assert goal.Some? ==> [] + goal.value == goal.value;
    assert es[0..] == es;
    for i := 0 to |es|
      invariant goal == Known(done, ResolveIndex(syms, es[i..], size))
    {
      var e := es[i];
      assert es[i..][0] == e && es[i..][1..] == es[i + 1..];
      ghost var rest := ResolveIndex(syms, es[i + 1..], size);
      var ls := BuildLabels(syms, e.refs);
      var total := SumLens(e.lens);
      if ls.None? || (e.off + e.runLen) % TWO64 > size || total != e.runLen {
        return None;
      }
      var s := Indexed(ls.value, e.off, e.runLen, e.lens, e.minTs, e.maxTs);
      assert rest.Some? ==> done + ([s] + rest.value) == (done + [s]) + rest.value;
      done := done + [s];
    }
    assert done + [] == done;
    r := Some(done);
  }

  method OpenPart(crc: Crc, b: Bytes) returns (r: Option<Part>)
    ensures r == Open(crc, b)
  {
    hide GetHeader, GetFooter, GetUvarint, GetSymbols, GetIndex, ResolveIndex;
    if !Sealed(crc, b) {
      return None;
    }
    var h := GetHeader(b);
    if h.None? {
      return None;
    }
    var footerOff := |b| - FOOTER_LEN;
    var f := GetFooter(b[footerOff..]);
    if f.None? {
      return None;
    }
    var (indexOff, indexLen, symtabOff) := f.value;
    if !Regions(indexOff, indexLen, symtabOff, footerOff) {
      return None;
    }
    var sr := new Reader.At(b, symtabOff);
    var n := sr.ReadUvarint();
    if n.None? {
      return None;
    }
    var syms := ReadSymbols(sr, n.value);
    if syms.None? {
      return None;
    }
    var ir := new Reader.At(b, indexOff);
    var es := ReadIndex(ir, h.value.count);
    if es.None? {
      return None;
    }
    GetIndexPaired(b[indexOff..], h.value.count);
    var series := ResolveAll(syms.value, es.value, |b|);
    if series.None? {
      return None;
    }
    r := Some(Part(h.value.start, h.value.end, b, series.value));
  }

  /** Neither sum of the entry passes a 64-bit word. */
  predicate Unwrapped(s: Indexed)
  {
    s.off + s.runLen < TWO64 && Sum(s.lens) < TWO64
  }

  lemma {:induction false} ResolvedLocatedIff(syms: seq<Str>, es: seq<Entry>, buf: Bytes)
    requires Paired(es) && |buf| < TWO64 && ResolveIndex(syms, es, |buf|).Some?
    ensures var s := ResolveIndex(syms, es, |buf|).value;
            |s| == |es| && forall i :: 0 <= i < |s| ==> (Located(buf, s[i]) <==> Unwrapped(s[i]))
  {
    hide ResolveLabels, Sum;
    ResolvedLength(syms, es, |buf|);
    if es != [] {
      ResolvedLocatedIff(syms, es[1..], buf);
      var s := ResolveIndex(syms, es, |buf|).value;
      assert s[1..] == ResolveIndex(syms, es[1..], |buf|).value;
      LocatedIff(es[0], buf, s[0]);
      forall i | 0 <= i < |es|
        ensures Located(buf, s[i]) <==> Unwrapped(s[i])
      {
        if i > 0 {
          assert s[i] == s[1..][i - 1];
        }
      }
    }
  }

  lemma LocatedIff(e: Entry, buf: Bytes, s: Indexed)
    requires |buf| < TWO64 && s.off == e.off && s.runLen == e.runLen && s.lens == e.lens
    requires (e.off + e.runLen) % TWO64 <= |buf| && Sum(e.lens) % TWO64 == e.runLen
    ensures Located(buf, s) <==> Unwrapped(s)
  {
    hide Sum;
  }

  /** An opened part can be queried without reading outside the buffer if and only if
      no offset and no sum of lengths in its index wraps. */
  lemma OpenLocatedIff(crc: Crc, b: Bytes)
    requires |b| < TWO64
    ensures Open(crc, b).Some? ==>
              && Open(crc, b).value.buf == b
              && (AllLocated(b, Open(crc, b).value.series) <==>
                  forall i :: 0 <= i < |Open(crc, b).value.series| ==> Unwrapped(Open(crc, b).value.series[i]))
  {
    hide GetHeader, GetFooter, GetSymtab, GetIndex, ResolveIndex, Located, Unwrapped;
    if Open(crc, b).Some? {
      var h := GetHeader(b).value;
      var (indexOff, _, symtabOff) := GetFooter(b[|b| - FOOTER_LEN..]).value;
      var syms := GetSymtab(b[symtabOff..]).value;
      GetIndexPaired(b[indexOff..], h.count);
      var es := GetIndex(b[indexOff..], h.count).value.0;
      ResolvedLocatedIff(syms, es, b);
    }
  }

  // ---------------------------------------------------------------------
  // Indexes that wrap
  // ---------------------------------------------------------------------

  /** A part whose index is the one entry `e`, without labels or chunks. */
  function OneEntry(e: Entry): (im: Image)
  {
    Image(0, 0, [], [e], [])
  }

  lemma OneEntryOpens(crc: Crc, e: Entry)
    requires Is32Bit(crc) && Framed(e) && e.refs == [] && e.runLen < TWO32 && |e.lens| <= 2
    requires ResolveEntry([], e, |Assemble(crc, OneEntry(e))|).Some?
    ensures var b := Assemble(crc, OneEntry(e));
            |b| < TWO63 && Open(crc, b) == Some(Part(0, 0, b, [ResolveEntry([], e, |b|).value]))
  {
    hide Assemble, Open, ResolveEntry, SymtabOff;
    var im, b := OneEntry(e), Assemble(crc, OneEntry(e));
    OneEntryShort(crc, e);
    OpensToIndex(crc, im);
    assert AllTruncated(im.entries) == [e];
    var s := ResolveEntry([], e, |b|).value;
    assert [s] + [] == [s];
  }

  lemma OneEntryShort(crc: Crc, e: Entry)
    requires Framed(e) && e.refs == [] && |e.lens| <= 2
    ensures WellFormed(OneEntry(e)) && |Assemble(crc, OneEntry(e))| < TWO63
  {
    hide Uvarint, LittleEndian;
    UvarintShort(0);
    UvarintShort(1);
    UvarintShort(|e.lens|);
    UvarintRunShort(e.lens);
    assert |UvarintRun(e.lens)| <= 20;
    assert |EntryWire(e)| <= 100;
    assert IndexWire([e]) == EntryWire(e) + IndexWire([]);
    assert |HeaderWire(0, 0, 1)| <= 100;
  }

  /** The offset check wraps: a run of one byte at the last 64-bit offset passes it and
      lies outside every buffer. */
  lemma WrappedOffsetExample(crc: Crc)
    requires Is32Bit(crc)
    ensures var b := Assemble(crc, OneEntry(Entry([], TWO64 - 1, 1, [1], 0, 0)));
            Open(crc, b).Some? && !AllLocated(b, Open(crc, b).value.series)
  {
    hide Assemble, Open;
    var e := Entry([], TWO64 - 1, 1, [1], 0, 0);
    var b := Assemble(crc, OneEntry(e));
    assert Sum(e.lens) == 1 + Sum([]);
    OneEntryOpens(crc, e);
    assert !Located(b, Open(crc, b).value.series[0]);
  }

  /** The sum of the lengths wraps: two chunks of half the 64-bit range pass for an
      empty run. */
  lemma WrappedLengthsExample(crc: Crc)
    requires Is32Bit(crc)
    ensures var b := Assemble(crc, OneEntry(Entry([], 0, 0, [TWO63, TWO63], 0, 0)));
            Open(crc, b).Some? && !AllLocated(b, Open(crc, b).value.series)
  {
    hide Assemble, Open;
    var e := Entry([], 0, 0, [TWO63, TWO63], 0, 0);
    assert e.lens[1..] == [TWO63] && [TWO63][1..] == [];
    var b := Assemble(crc, OneEntry(e));
    assert Sum(e.lens) == TWO63 + (TWO63 + Sum([]));
    OneEntryOpens(crc, e);
    assert !Located(b, Open(crc, b).value.series[0]);
  }

  method Split(run: Bytes, lens: seq<nat>) returns (chunks: seq<Bytes>)
    requires Sum(lens) <= |run|
    ensures chunks == SplitChunks(run, lens)
  {
    chunks := [];
    var off := 0;
    assert lens[0..] == lens && run[0..] == run;
    assert [] + SplitChunks(run, lens) == SplitChunks(run, lens);
    for i := 0 to |lens|
      invariant off + Sum(lens[i..]) <= |run|
      invariant chunks + SplitChunks(run[off..], lens[i..]) == SplitChunks(run, lens)
    {
      var l := lens[i];
      assert lens[i..][0] == l && lens[i..][1..] == lens[i + 1..];
      assert run[off..][..l] == run[off..off + l] && run[off..][l..] == run[off + l..];
      Assoc(chunks, [run[off..off + l]], SplitChunks(run[off + l..], lens[i + 1..]));
      chunks := chunks + [run[off..off + l]];
      off := off + l;
    }
    assert chunks + [] == chunks;
  }

  function Found(done: seq<Series>, p: Option<seq<Series>>): (r: Option<seq<Series>>)
  {
    if p.None? then None else Some(done + p.value)
  }

  method SeriesIn(a: Arith, x: Xor, p: Part, ms: seq<Option<Matcher>>, lo: Int64, hi: Int64)
    returns (r: Option<seq<Series>>)
    requires HitsLocated(p.buf, p.series, ms, lo, hi)
    ensures r == Query(a, x, p.buf, p.series, ms, lo, hi)
  {
    hide Located, Hits, DecodeChunk, DecodeChunks, SplitChunks;
    var ix := p.series;
    var done: seq<Series> := [];
    ghost var goal := Query(a, x, p.buf, ix, ms, lo, hi);
    assert ix[0..] == ix;
    assert goal.Some? ==> [] + goal.value == goal.value;
    for i := 0 to |ix|
      invariant goal == Found(done, Query(a, x, p.buf, ix[i..], ms, lo, hi))
    {
      var s := ix[i];
      assert ix[i..][0] == s && ix[i..][1..] == ix[i + 1..];
      ghost var rest := Query(a, x, p.buf, ix[i + 1..], ms, lo, hi);
      if HitBy(s, ms, lo, hi) {
        var samples := DecodeOne(a, x, p.buf, s);
        if samples.None? {
          return None;
        }
        var found := Series(s.labels, samples.value);
        assert rest.Some? ==> done + ([found] + rest.value) == (done + [found]) + rest.value;
        done := done + [found];
      }
    }
    assert done + [] == done;
    r := Some(done);
  }

  method DecodeOne(a: Arith, x: Xor, buf: Bytes, s: Indexed) returns (r: Option<seq<Sample>>)
    requires Located(buf, s)
    ensures r == DecodeSeries(a, x, buf, s)
  {
    hide DecodeChunk, DecodeChunks, SplitChunks;
    var run := buf[s.off..s.off + s.runLen];
    if |s.lens| <= 1 {
      return DecodeChunk(a, x, run);
    }
    var chunks := Split(run, s.lens);
    r := DecodeChunks(a, x, chunks);
  }
}
