/**
 A whole cold part: how the regions are laid out, what opening recovers from
 them, and what a query over the opened part returns.
 */
module ColdPart {
  import opened Bits
  import opened Common
  import opened Wire
  import opened Order
  import opened BestOf
  import opened ColdPartFormat

  datatype Series = Series(labels: seq<Label>, samples: seq<Sample>)

  type Crc = Bytes -> nat

  ghost predicate Is32Bit(crc: Crc)
  {
    forall b :: crc(b) < TWO32
  }

  // ---------------------------------------------------------------------
  // Layout
  // ---------------------------------------------------------------------

  function Concat(chunks: seq<Bytes>): (bs: Bytes)
  {
    if chunks == [] then [] else chunks[0] + Concat(chunks[1..])
  }

  function Sum(ns: seq<nat>): (n: nat)
  {
    if ns == [] then 0 else ns[0] + Sum(ns[1..])
  }

  function Lengths(chunks: seq<Bytes>): (ns: seq<nat>)
    ensures |ns| == |chunks|
  {
    if chunks == [] then [] else [|chunks[0]|] + Lengths(chunks[1..])
  }

  /** Everything a part is assembled from; `runs[i]` is the chunk run of
      `entries[i]`. */
  datatype Image = Image(start: Int64, end: Int64, runs: seq<Bytes>, entries: seq<Entry>, syms: seq<Str>)

  function Head(im: Image): (bs: Bytes)
  {
    HeaderWire(im.start, im.end, |im.entries|)
  }

  function SymtabWire(syms: seq<Str>): (bs: Bytes)
  {
    Uvarint(|syms|) + SymbolsWire(syms)
  }

  function IndexOff(im: Image): (n: nat)
  {
    |Head(im)| + |Concat(im.runs)|
  }

  function SymtabOff(im: Image): (n: nat)
  {
    IndexOff(im) + |IndexWire(im.entries)|
  }

  function Foot(im: Image): (bs: Bytes)
    ensures |bs| == 24
  {
    FooterWire(IndexOff(im), |IndexWire(im.entries)|, SymtabOff(im))
  }

  /** The image without its trailing checksum. */
  function Unsealed(im: Image): (bs: Bytes)
  {
    Head(im) + (Concat(im.runs) + (IndexWire(im.entries) + (SymtabWire(im.syms) + Foot(im))))
  }

  function Assemble(crc: Crc, im: Image): (bs: Bytes)
  {
    Unsealed(im) + LittleEndian(crc(Unsealed(im)), 4)
  }

  /** The part without series, byte for byte: magic, version, bounds and count, an empty
      index, an empty symbol table, the footer, then the checksum. */
  lemma EmptyPartBytes(crc: Crc)
    ensures var b := Assemble(crc, Image(0, 0, [], [], []));
            && |b| == 54
            && b[..25] == [65, 83, 65, 80, 67, 67, 49, 1] + [0, 0, 0, 0, 0, 0, 0, 0] + [0, 0, 0, 0, 0, 0, 0, 0] + [0]
            && b[25..50] == [0] + [25, 0, 0, 0, 0, 0, 0, 0] + [0, 0, 0, 0, 0, 0, 0, 0] + [25, 0, 0, 0, 0, 0, 0, 0]
  {
    var im := Image(0, 0, [], [], []);
    hide *;
    EmptyBody(crc, im);
    EmptyHead(im);
    EmptyFoot(im);
    SliceParts(Head(im), SymtabWire([]) + Foot(im), LittleEndian(crc(Unsealed(im)), 4));
  }

  lemma EmptyBody(crc: Crc, im: Image)
    requires im == Image(0, 0, [], [], [])
    ensures Assemble(crc, im) == Head(im) + (SymtabWire([]) + Foot(im) + LittleEndian(crc(Unsealed(im)), 4))
  {
    hide Head, SymtabWire, Foot, LittleEndian;
    assert Unsealed(im) == Head(im) + (SymtabWire([]) + Foot(im));
  }

  lemma EmptyHead(im: Image)
    requires im == Image(0, 0, [], [], [])
    ensures Head(im) == [65, 83, 65, 80, 67, 67, 49, 1] + [0, 0, 0, 0, 0, 0, 0, 0] + [0, 0, 0, 0, 0, 0, 0, 0] + [0]
  {
    assert Uvarint(0) == [0];
    NoWord(8);
  }

  lemma EmptyFoot(im: Image)
    requires im == Image(0, 0, [], [], [])
    ensures SymtabWire([]) + Foot(im)
         == [0] + [25, 0, 0, 0, 0, 0, 0, 0] + [0, 0, 0, 0, 0, 0, 0, 0] + [25, 0, 0, 0, 0, 0, 0, 0]
  {
    EmptyHead(im);
    assert IndexOff(im) == 25 && SymtabOff(im) == 25;
    NoWord(8);
    NoWord(7);
    assert LittleEndian(25, 8) == [25] + LittleEndian(0, 7);
  }

  lemma SliceParts(a: Bytes, b: Bytes, c: Bytes)
    ensures (a + (b + c))[..|a|] == a && (a + (b + c))[|a|..|a| + |b|] == b
  {
  }

  lemma {:induction false} NoWord(n: nat)
    ensures LittleEndian(0, n) == seq(n, i => 0)
  {
    if n > 0 {
      NoWord(n - 1);
    }
  }

  // ---------------------------------------------------------------------
  // Opening
  // ---------------------------------------------------------------------

  datatype Indexed = Indexed(labels: seq<Label>, off: nat, runLen: nat, lens: seq<nat>, minTs: Int64, maxTs: Int64)

  datatype Part = Part(start: Int64, end: Int64, buf: Bytes, series: seq<Indexed>)

  function ResolveLabels(syms: seq<Str>, refs: seq<nat>): (r: Option<seq<Label>>)
    requires |refs| % 2 == 0
    decreases |refs|
  {
    if refs == [] then Some([])
    else
      var n := |refs| - 2;
      var done :- ResolveLabels(syms, refs[..n]);
      if refs[n] >= |syms| || refs[n + 1] >= |syms| then None
      else Some(BuilderSet(done, Label(syms[refs[n]], syms[refs[n + 1]])))
  }

  /** The offset check and the sum of the chunk lengths, both in 64-bit words. */
  function ResolveEntry(syms: seq<Str>, e: Entry, size: nat): (r: Option<Indexed>)
    requires |e.refs| % 2 == 0
  {
    var ls :- ResolveLabels(syms, e.refs);
    if (e.off + e.runLen) % TWO64 > size || Sum(e.lens) % TWO64 != e.runLen then None
    else Some(Indexed(ls, e.off, e.runLen, e.lens, e.minTs, e.maxTs))
  }

  predicate Paired(es: seq<Entry>)
  {
    forall i :: 0 <= i < |es| ==> |es[i].refs| % 2 == 0
  }

  function ResolveIndex(syms: seq<Str>, es: seq<Entry>, size: nat): (r: Option<seq<Indexed>>)
    requires Paired(es)
  {
    if es == [] then Some([])
    else
      var s :- ResolveEntry(syms, es[0], size);
      var rest :- ResolveIndex(syms, es[1..], size);
      Some([s] + rest)
  }

  const MIN_PART_LEN: nat := 53

  /** The checks on the length and the checksum field. */
  predicate Sealed(crc: Crc, b: Bytes)
  {
    && |b| >= MIN_PART_LEN
    && FromLittleEndian(b[|b| - 4..]) == crc(b[..|b| - 4])
  }

  /** The region contract the footer has to satisfy. */
  predicate Regions(indexOff: nat, indexLen: nat, symtabOff: nat, footerOff: nat)
  {
    indexOff <= footerOff && indexLen <= footerOff - indexOff && indexOff + indexLen == symtabOff <= footerOff
  }

  function GetSymtab(s: Bytes): (r: Option<seq<Str>>)
  {
    var (n, s1) :- GetUvarint(s);
    var (syms, _) :- GetSymbols(s1, n);
    Some(syms)
  }

  function OpenIndex(b: Bytes, h: Header, indexOff: nat, syms: seq<Str>): (r: Option<Part>)
    requires indexOff <= |b|
  {
    var (es, _) :- GetIndex(b[indexOff..], h.count);
    GetIndexPaired(b[indexOff..], h.count);
    var series :- ResolveIndex(syms, es, |b|);
    Some(Part(h.start, h.end, b, series))
  }

  function Open(crc: Crc, b: Bytes): (r: Option<Part>)
  {
    if !Sealed(crc, b) then None
    else
      var h :- GetHeader(b);
      var footerOff := |b| - FOOTER_LEN;
      var (indexOff, indexLen, symtabOff) :- GetFooter(b[footerOff..]);
      if !Regions(indexOff, indexLen, symtabOff, footerOff) then None
      else
        var syms :- GetSymtab(b[symtabOff..]);
        OpenIndex(b, h, indexOff, syms)
  }

  /** Whatever opens: it starts with the magic and the version, ends in the checksum of
      the rest, its footer puts the symbol table right behind the index and both before
      itself, and bounds and series count are those of the header. */
  lemma OpenedChecks(crc: Crc, b: Bytes)
    requires Open(crc, b).Some?
    ensures |b| >= 53 && b[..8] == [65, 83, 65, 80, 67, 67, 49, 1]
    ensures FromLittleEndian(b[|b| - 4..]) == crc(b[..|b| - 4])
    ensures var f := |b| - 28;
            var index, len, symtab := FromLittleEndian(b[f..f + 8]), FromLittleEndian(b[f + 8..f + 16]),
                                      FromLittleEndian(b[f + 16..f + 24]);
            index + len == symtab <= f
    ensures var p := Open(crc, b).value;
            && ToU64(p.start) == FromLittleEndian(b[8..16]) && ToU64(p.end) == FromLittleEndian(b[16..24])
            && GetUvarint(b[24..]).Some? && |p.series| == GetUvarint(b[24..]).value.0
  {
    hide GetSymtab, GetIndex, ResolveIndex, FromLittleEndian, GetUvarint;
    HeaderAt(b);
    hide GetHeader, GetFooter;
    var f := |b| - 28;
    FooterAt(b);
    var (index, len, symtab) := GetFooter(b[f..]).value;
    var es := GetIndex(b[index..], GetHeader(b).value.count).value.0;
    GetIndexPaired(b[index..], GetHeader(b).value.count);
    ResolvedLength(GetSymtab(b[symtab..]).value, es, |b|);
  }

  /** And whatever passes those checks, down to the shortest length and to empty regions,
      opens just when its symbol table and its index can be read. */
  lemma OpensIff(crc: Crc, b: Bytes, f: nat, index: nat, len: nat, symtab: nat)
    requires |b| >= 53 && b[..8] == [65, 83, 65, 80, 67, 67, 49, 1] && GetUvarint(b[24..]).Some?
    requires FromLittleEndian(b[|b| - 4..]) == crc(b[..|b| - 4])
    requires f + 28 == |b| && FromLittleEndian(b[f..f + 8]) == index
    requires FromLittleEndian(b[f + 8..f + 16]) == len && FromLittleEndian(b[f + 16..f + 24]) == symtab
    ensures Open(crc, b).Some? <==>
            && index + len == symtab <= f && GetSymtab(b[symtab..]).Some?
            && var es := GetIndex(b[index..], GetUvarint(b[24..]).value.0);
            && es.Some? && Paired(es.value.0) && ResolveIndex(GetSymtab(b[symtab..]).value, es.value.0, |b|).Some?
  {
    hide GetSymtab, GetIndex, ResolveIndex, FromLittleEndian, GetUvarint, Paired, GetHeader, GetFooter, Open, OpenIndex;
    HeaderReads(b);
    HeaderAt(b);
    FooterAt(b);
    var h := GetHeader(b).value;
    OpenBySteps(crc, b, h, index, len, symtab);
    if index <= |b| && symtab <= |b| && GetSymtab(b[symtab..]).Some? {
      OpenIndexIff(b, h, index, GetSymtab(b[symtab..]).value);
    }
  }

  lemma OpenBySteps(crc: Crc, b: Bytes, h: Header, index: nat, len: nat, symtab: nat)
    requires Sealed(crc, b) && GetHeader(b) == Some(h) && GetFooter(b[|b| - 28..]) == Some((index, len, symtab))
    ensures Open(crc, b).Some? <==>
            && index + len == symtab <= |b| - 28 && GetSymtab(b[symtab..]).Some?
            && OpenIndex(b, h, index, GetSymtab(b[symtab..]).value).Some?
  {
    hide Sealed, GetHeader, GetFooter, GetSymtab, OpenIndex;
  }

  lemma OpenIndexIff(b: Bytes, h: Header, index: nat, syms: seq<Str>)
    requires index <= |b|
    ensures var es := GetIndex(b[index..], h.count);
            OpenIndex(b, h, index, syms).Some? <==>
              es.Some? && Paired(es.value.0) && ResolveIndex(syms, es.value.0, |b|).Some?
  {
    hide GetIndex, Paired, ResolveIndex;
    GetIndexPaired(b[index..], h.count);
  }

  lemma HeaderReads(b: Bytes)
    requires |b| >= 24 && b[..8] == [65, 83, 65, 80, 67, 67, 49, 1] && GetUvarint(b[24..]).Some?
    ensures GetHeader(b).Some?
  {
    hide FromLittleEndian, GetUvarint;
    assert b[..8] == b[..7] + b[7..][..1];
    assert b[7..][1..] == b[8..] && b[8..][8..] == b[16..] && b[16..][8..] == b[24..];
  }

  lemma HeaderAt(b: Bytes)
    requires GetHeader(b).Some?
    ensures |b| >= 24 && b[..8] == [65, 83, 65, 80, 67, 67, 49, 1]
    ensures var h := GetHeader(b).value;
            && ToU64(h.start) == FromLittleEndian(b[8..16]) && ToU64(h.end) == FromLittleEndian(b[16..24])
            && GetUvarint(b[24..]).Some? && h.count == GetUvarint(b[24..]).value.0
  {
    hide FromLittleEndian, GetUvarint;
    assert b[..8] == b[..7] + b[7..][..1];
    assert b[7..][1..] == b[8..] && b[8..][..8] == b[8..16] && b[8..][8..] == b[16..];
    assert b[16..][..8] == b[16..24] && b[16..][8..] == b[24..];
  }

  lemma FooterAt(b: Bytes)
    requires |b| >= 28
    ensures var f := |b| - 28;
            GetFooter(b[f..]) == Some((FromLittleEndian(b[f..f + 8]), FromLittleEndian(b[f + 8..f + 16]),
                                       FromLittleEndian(b[f + 16..f + 24])))
  {
    hide FromLittleEndian;
    var f := |b| - 28;
    var s := b[f..];
    assert s[..8] == b[f..f + 8] && s[8..][..8] == b[f + 8..f + 16];
    assert s[8..][8..] == s[16..] && s[16..][..8] == b[f + 16..f + 24];
  }

  lemma {:induction false} ResolvedLength(syms: seq<Str>, es: seq<Entry>, size: nat)
    requires Paired(es) && ResolveIndex(syms, es, size).Some?
    ensures |ResolveIndex(syms, es, size).value| == |es|
  {
    hide ResolveEntry;
    if es != [] {
      ResolvedLength(syms, es[1..], size);
    }
  }

  lemma {:induction false} GetIndexPaired(s: Bytes, k: nat)
    ensures GetIndex(s, k).Some? ==> Paired(GetIndex(s, k).value.0)
    decreases k
  {
    hide GetEntry;
    if k > 0 && GetEntry(s).Some? {
      GetIndexPaired(GetEntry(s).value.1, k - 1);
    }
  }

  // ---------------------------------------------------------------------
  // What a written image satisfies
  // ---------------------------------------------------------------------

  /** The reference pairs name the labels, in order. */
  predicate Names(syms: seq<Str>, refs: seq<nat>, ls: seq<Label>)
  {
    && |refs| == 2 * |ls|
    && forall i :: 0 <= i < |ls| ==>
         && refs[2 * i] < |syms| && syms[refs[2 * i]] == ls[i].name
         && refs[2 * i + 1] < |syms| && syms[refs[2 * i + 1]] == ls[i].value
  }

  function RunOff(im: Image, i: nat): (n: nat)
    requires i <= |im.runs|
  {
    |Head(im)| + |Concat(im.runs[..i])|
  }

  /** Series `i` is stored as the run of `chunks`. */
  predicate Stored(im: Image, i: nat, ls: seq<Label>, chunks: seq<Bytes>)
    requires i < |im.entries| == |im.runs|
  {
    var e := im.entries[i];
    && Names(im.syms, e.refs, ls)
    && im.runs[i] == Concat(chunks)
    && e.off == RunOff(im, i) && e.runLen == |im.runs[i]| && e.lens == Lengths(chunks)
  }

  predicate AllStored(im: Image, lss: seq<seq<Label>>, chunks: seq<seq<Bytes>>)
  {
    && |im.entries| == |im.runs| == |lss| == |chunks|
    && forall i :: 0 <= i < |lss| ==> Stored(im, i, lss[i], chunks[i])
  }

  predicate AllFit(im: Image)
  {
    forall i :: 0 <= i < |im.entries| ==> im.entries[i].runLen < TWO32
  }

  /** What opening makes of the entries: the label builder has gone over the labels. */
  function Recovered(im: Image, lss: seq<seq<Label>>): (r: seq<Indexed>)
    requires |im.entries| == |lss|
  {
    seq(|lss|, i requires 0 <= i < |lss| =>
      var e := im.entries[i]; Indexed(Build(lss[i]), e.off, e.runLen, e.lens, e.minTs, e.maxTs))
  }

  lemma {:induction false} SumLengths(chunks: seq<Bytes>)
    ensures Sum(Lengths(chunks)) == |Concat(chunks)|
  {
    if chunks != [] {
      SumLengths(chunks[1..]);
      assert Lengths(chunks)[1..] == Lengths(chunks[1..]);
    }
  }

  lemma {:induction false} ResolvesNames(syms: seq<Str>, refs: seq<nat>, ls: seq<Label>)
    requires Names(syms, refs, ls)
    ensures ResolveLabels(syms, refs) == Some(Build(ls))
    decreases |ls|
  {
    if ls != [] {
      var n := |ls| - 1;
      var init := refs[..2 * n];
      assert Names(syms, init, ls[..n]);
      ResolvesNames(syms, init, ls[..n]);
      assert ls[n] == Label(syms[refs[2 * n]], syms[refs[2 * n + 1]]);
    }
  }

  /** The sum check refuses a run whose length did not fit its 32-bit field, and
      nothing else. */
  lemma ResolvesEntry(im: Image, i: nat, ls: seq<Label>, chunks: seq<Bytes>, size: nat)
    requires i < |im.entries| == |im.runs| && Stored(im, i, ls, chunks)
    requires RunOff(im, i) + |im.runs[i]| <= size < TWO64
    ensures |im.entries[i].refs| % 2 == 0
    ensures var e := im.entries[i];
            ResolveEntry(im.syms, Truncated(e), size) ==
            if e.runLen < TWO32 then Some(Indexed(Build(ls), e.off, e.runLen, e.lens, e.minTs, e.maxTs)) else None
  {
    hide Concat, Lengths, Sum, HeaderWire, ResolveLabels, Build;
    var e := im.entries[i];
    ResolvesNames(im.syms, e.refs, ls);
    SumLengths(chunks);
  }

  lemma {:induction false} ResolvesIndex(syms: seq<Str>, es: seq<Entry>, size: nat, out: seq<Indexed>, fit: bool)
    requires Paired(es) && |out| == |es|
    requires forall i :: 0 <= i < |es| ==> ResolveEntry(syms, es[i], size) in {None, Some(out[i])}
    requires fit <==> forall i :: 0 <= i < |es| ==> ResolveEntry(syms, es[i], size) == Some(out[i])
    ensures ResolveIndex(syms, es, size) == if fit then Some(out) else None
  {
    hide ResolveEntry;
    if es != [] {
      assert out == [out[0]] + out[1..];
      if ResolveEntry(syms, es[0], size).Some? {
        var t := es[1..];
        assert forall i :: 0 <= i < |t| ==> t[i] == es[i + 1];
        assert (forall i :: 0 <= i < |t| ==> ResolveEntry(syms, t[i], size) == Some(out[1..][i])) <==>
               (forall i :: 1 <= i < |es| ==> ResolveEntry(syms, es[i], size) == Some(out[i])) by {
          assert forall i :: 1 <= i < |es| ==> es[i] == t[i - 1];
        }
        ResolvesIndex(syms, t, size, out[1..], fit);
      }
    } else {
      assert out == [];
    }
  }

  // ---------------------------------------------------------------------
  // Opening a written part
  // ---------------------------------------------------------------------

  lemma Slices(h: Bytes, r: Bytes, i: Bytes, s: Bytes, f: Bytes, c: Bytes)
    requires |f| == 24 && |c| == 4
    ensures var b := (h + (r + (i + (s + f)))) + c;
            && b == h + (r + (i + (s + (f + c))))
            && |b| == |h| + |r| + |i| + |s| + FOOTER_LEN
            && b[|b| - 4..] == c && b[..|b| - 4] == h + (r + (i + (s + f)))
            && b[|b| - FOOTER_LEN..] == f + c
            && b[|h| + |r|..] == i + (s + (f + c))
            && b[|h| + |r| + |i|..] == s + (f + c)
  {
    var b := (h + (r + (i + (s + f)))) + c;
    var n := |b|;
    assert b == h + (r + (i + (s + (f + c))));
    assert b[n - 4..] == c;
    assert b[..n - 4] == h + (r + (i + (s + f)));
    assert b[n - 28..] == f + c;
  }

  lemma SymtabRoundTrip(syms: seq<Str>, rest: Bytes)
    requires ShortStrings(syms) && |syms| < TWO63
    ensures GetSymtab(SymtabWire(syms) + rest) == Some(syms)
    ensures |SymtabWire(syms)| >= 1
  {
    hide Uvarint, GetUvarint, SymbolsWire, GetSymbols;
    Assoc(Uvarint(|syms|), SymbolsWire(syms), rest);
    UvarintRoundTrip(|syms|, SymbolsWire(syms) + rest);
    SymbolsRoundTrip(syms, rest);
    UvarintNonEmpty(|syms|);
  }

  lemma UvarintNonEmpty(v: nat)
    ensures |Uvarint(v)| >= 1
  {
  }

  predicate WellFormed(im: Image)
  {
    && AllFramed(im.entries) && ShortStrings(im.syms)
    && SymtabOff(im) < TWO63 && |im.entries| < TWO63 && |im.syms| < TWO63
  }

  lemma {:induction false} UvarintRunSize(ns: seq<nat>)
    ensures |UvarintRun(ns)| >= |ns|
  {
    if ns != [] {
      UvarintNonEmpty(ns[0]);
      UvarintRunSize(ns[1..]);
    }
  }

  lemma {:induction false} UvarintRunShort(ns: seq<nat>)
    requires AllU64(ns)
    ensures |UvarintRun(ns)| <= 10 * |ns|
  {
    if ns != [] {
      UvarintShort(ns[0]);
      UvarintRunShort(ns[1..]);
    }
  }

  lemma {:induction false} SymbolsSize(syms: seq<Str>)
    ensures |SymbolsWire(syms)| >= |syms|
    ensures forall i :: 0 <= i < |syms| ==> |SymbolsWire(syms)| >= |syms[i]|
  {
    if syms != [] {
      UvarintNonEmpty(|syms[0]|);
      SymbolsSize(syms[1..]);
      assert forall i :: 1 <= i < |syms| ==> syms[i] == syms[1..][i - 1];
    }
  }

  lemma EntrySize(e: Entry)
    ensures |EntryWire(e)| >= |e.refs| + |e.lens| + 1
  {
    hide Uvarint, UvarintRun, LittleEndian;
    UvarintRunSize(e.refs);
    UvarintRunSize(e.lens);
    UvarintNonEmpty(|e.lens|);
    assert |EntryTail(e)| >= |e.lens| + 1;
  }

  lemma {:induction false} IndexSize(es: seq<Entry>)
    ensures |IndexWire(es)| >= |es|
    ensures forall i :: 0 <= i < |es| ==> |IndexWire(es)| >= |es[i].refs| + |es[i].lens|
  {
    hide EntryWire;
    if es != [] {
      EntrySize(es[0]);
      IndexSize(es[1..]);
      assert forall i :: 1 <= i < |es| ==> es[i] == es[1..][i - 1];
    }
  }

  lemma {:induction false} SumBounds(ns: seq<nat>)
    ensures forall i :: 0 <= i < |ns| ==> ns[i] <= Sum(ns)
  {
    if ns != [] {
      SumBounds(ns[1..]);
      assert forall i :: 1 <= i < |ns| ==> ns[i] == ns[1..][i - 1];
    }
  }

  lemma StoredFramed(im: Image, i: nat, ls: seq<Label>, chunks: seq<Bytes>)
    requires i < |im.entries| == |im.runs| && Stored(im, i, ls, chunks)
    requires SymtabOff(im) < TWO63 && |im.syms| < TWO63
    ensures Framed(im.entries[i])
  {
    hide Concat, Lengths, Sum, HeaderWire, IndexWire;
    var e := im.entries[i];
    SumLengths(chunks);
    SumBounds(e.lens);
    ConcatPrefix(im.runs, i);
    IndexSize(im.entries);
    forall k | 0 <= k < |e.refs|
      ensures e.refs[k] < TWO64
    {
      assert k == 2 * (k / 2) || k == 2 * (k / 2) + 1;
    }
  }

  /** A part that fits in memory has every field in range. */
  lemma SizesFit(crc: Crc, im: Image, lss: seq<seq<Label>>, chunks: seq<seq<Bytes>>)
    requires AllStored(im, lss, chunks) && |Assemble(crc, im)| < TWO63
    ensures WellFormed(im)
  {
    hide Concat, HeaderWire, IndexWire, SymbolsWire, Stored, Framed, LittleEndian, Uvarint;
    SymbolsSize(im.syms);
    IndexSize(im.entries);
    assert SymtabOff(im) <= |Unsealed(im)| <= |Assemble(crc, im)|;
    assert |SymbolsWire(im.syms)| <= |Unsealed(im)|;
    forall i | 0 <= i < |im.entries|
      ensures Framed(im.entries[i])
    {
      StoredFramed(im, i, lss[i], chunks[i]);
    }
  }

  /** Header, footer, symbol table and index all read back what was laid out. */
  lemma OpensToIndex(crc: Crc, im: Image)
    requires Is32Bit(crc) && WellFormed(im)
    ensures var b := Assemble(crc, im);
            Paired(AllTruncated(im.entries)) &&
            Open(crc, b) == (var series :- ResolveIndex(im.syms, AllTruncated(im.entries), |b|);
                             Some(Part(im.start, im.end, b, series)))
  {
    hide HeaderWire, IndexWire, SymtabWire, FooterWire, Concat, GetHeader, GetFooter, GetIndex, GetSymtab,
         LittleEndian, FromLittleEndian, ResolveIndex, Framed, Truncated;
    var b := Assemble(crc, im);
    var h, r, i, s, f := Head(im), Concat(im.runs), IndexWire(im.entries), SymtabWire(im.syms), Foot(im);
    var c := LittleEndian(crc(Unsealed(im)), 4);
    Slices(h, r, i, s, f, c);
    Pow2Words();
    LittleEndianRoundTrip(crc(Unsealed(im)), 4);
    HeaderRoundTrip(im.start, im.end, |im.entries|, r + (i + (s + (f + c))));
    FooterRoundTrip(IndexOff(im), |i|, SymtabOff(im), c);
    SymtabRoundTrip(im.syms, f + c);
    IndexRoundTrip(im.entries, s + (f + c));
    TruncatedPaired(im.entries);
  }

  lemma TruncatedPaired(es: seq<Entry>)
    requires AllFramed(es)
    ensures Paired(AllTruncated(es))
  {
  }

  lemma {:induction false} ConcatPrefix(runs: seq<Bytes>, i: nat)
    requires i < |runs|
    ensures |Concat(runs[..i])| + |runs[i]| <= |Concat(runs)|
    ensures Concat(runs)[|Concat(runs[..i])|..|Concat(runs[..i])| + |runs[i]|] == runs[i]
    decreases i
  {
    var all := Concat(runs);
    if i == 0 {
      assert all[..|runs[0]|] == runs[0];
    } else {
      var t := runs[1..];
      ConcatPrefix(t, i - 1);
      assert runs[..i] == [runs[0]] + t[..i - 1];
      assert Concat(runs[..i]) == runs[0] + Concat(t[..i - 1]);
      assert all == runs[0] + Concat(t);
    }
  }

  /** Opening a written part succeeds exactly when no run length was truncated to
      32 bits, and then recovers every run, chunk length and time bound, and every
      label set as the builder leaves it. */
  lemma OpenWritten(crc: Crc, im: Image, lss: seq<seq<Label>>, chunks: seq<seq<Bytes>>)
    requires Is32Bit(crc) && |Assemble(crc, im)| < TWO63
    requires AllStored(im, lss, chunks)
    ensures var b := Assemble(crc, im);
            Open(crc, b) == if AllFit(im) then Some(Part(im.start, im.end, b, Recovered(im, lss))) else None
  {
    var b := Assemble(crc, im);
    var es, out := AllTruncated(im.entries), Recovered(im, lss);
    SizesFit(crc, im, lss, chunks);
    OpensToIndex(crc, im);
    assert |b| >= IndexOff(im);
    hide Assemble, Concat, Open, ResolveIndex, ResolveEntry, Stored, Build, Truncated;
    forall i | 0 <= i < |es|
      ensures ResolveEntry(im.syms, es[i], |b|) == if im.entries[i].runLen < TWO32 then Some(out[i]) else None
    {
      ConcatPrefix(im.runs, i);
      ResolvesEntry(im, i, lss[i], chunks[i], |b|);
    }
    ResolvesIndex(im.syms, es, |b|, out, AllFit(im));
  }

  // ---------------------------------------------------------------------
  // Queries
  // ---------------------------------------------------------------------

  /** A matcher tests the value of one label; `None` is the nil matcher. */
  datatype Matcher = Matcher(name: Str, accepts: Str -> bool)

  predicate MatchesAll(ls: seq<Label>, ms: seq<Option<Matcher>>)
  {
    forall i :: 0 <= i < |ms| && ms[i].Some? ==> ms[i].value.accepts(Get(ls, ms[i].value.name))
  }

  predicate Hits(ls: seq<Label>, minTs: int, maxTs: int, ms: seq<Option<Matcher>>, lo: Int64, hi: Int64)
  {
    !(minTs > hi || maxTs < lo) && MatchesAll(ls, ms)
  }

  function SplitChunks(run: Bytes, lens: seq<nat>): (r: seq<Bytes>)
    requires Sum(lens) <= |run|
    decreases |lens|
  {
    if lens == [] then [] else [run[..lens[0]]] + SplitChunks(run[lens[0]..], lens[1..])
  }

  /** The run lies inside the buffer and the chunk lengths add up to it. */
  predicate Located(buf: Bytes, s: Indexed)
  {
    s.off + s.runLen <= |buf| && Sum(s.lens) == s.runLen
  }

  predicate AllLocated(buf: Bytes, ix: seq<Indexed>)
  {
    forall i :: 0 <= i < |ix| ==> Located(buf, ix[i])
  }

  predicate HitBy(s: Indexed, ms: seq<Option<Matcher>>, lo: Int64, hi: Int64)
  {
    Hits(s.labels, s.minTs, s.maxTs, ms, lo, hi)
  }

  /** Every entry the query selects is located; the others are not looked at. */
  predicate HitsLocated(buf: Bytes, ix: seq<Indexed>, ms: seq<Option<Matcher>>, lo: Int64, hi: Int64)
  {
    forall i :: 0 <= i < |ix| && HitBy(ix[i], ms, lo, hi) ==> Located(buf, ix[i])
  }

  function DecodeSeries(a: Arith, x: Xor, buf: Bytes, s: Indexed): (r: Option<seq<Sample>>)
    requires Located(buf, s)
  {
    var run := buf[s.off..s.off + s.runLen];
    if |s.lens| <= 1 then DecodeChunk(a, x, run) else DecodeChunks(a, x, SplitChunks(run, s.lens))
  }

  function Query(a: Arith, x: Xor, buf: Bytes, ix: seq<Indexed>, ms: seq<Option<Matcher>>, lo: Int64, hi: Int64)
    : (r: Option<seq<Series>>)
    requires HitsLocated(buf, ix, ms, lo, hi)
  {
    if ix == [] then Some([])
    else if !HitBy(ix[0], ms, lo, hi) then Query(a, x, buf, ix[1..], ms, lo, hi)
    else
      var samples :- DecodeSeries(a, x, buf, ix[0]);
      var rest :- Query(a, x, buf, ix[1..], ms, lo, hi);
      Some([Series(ix[0].labels, samples)] + rest)
  }

  // ---------------------------------------------------------------------
  // Which series a query returns
  // ---------------------------------------------------------------------

  /** Every matcher that is not nil accepts the value of its label. */
  ghost predicate Accepted(ls: seq<Label>, ms: seq<Option<Matcher>>)
  {
    forall m :: m in ms && m.Some? ==> m.value.accepts(Get(ls, m.value.name))
  }

  /** From `first` to `last` overlaps the inclusive range, and the labels match. */
  ghost predicate Wanted(ls: seq<Label>, first: int, last: int, ms: seq<Option<Matcher>>, lo: Int64, hi: Int64)
  {
    first <= hi && lo <= last && Accepted(ls, ms)
  }

  lemma HitsIff(ls: seq<Label>, minTs: int, maxTs: int, ms: seq<Option<Matcher>>, lo: Int64, hi: Int64)
    ensures Hits(ls, minTs, maxTs, ms, lo, hi) <==> Wanted(ls, minTs, maxTs, ms, lo, hi)
  {
    assert MatchesAll(ls, ms) <==> Accepted(ls, ms) by {
      if MatchesAll(ls, ms) {
        forall m | m in ms && m.Some?
          ensures m.value.accepts(Get(ls, m.value.name))
        {
          var i :| 0 <= i < |ms| && ms[i] == m;
        }
      }
    }
  }

  predicate Ascending(at: seq<nat>)
  {
    forall i, j :: 0 <= i < j < |at| ==> at[i] < at[j]
  }

  function Shifted(at: seq<nat>): (r: seq<nat>)
    ensures |r| == |at| && forall i :: 0 <= i < |at| ==> r[i] == at[i] + 1
  {
    seq(|at|, i requires 0 <= i < |at| => at[i] + 1)
  }

  /** Where the flags are set. */
  function Positions(bs: seq<bool>): (at: seq<nat>)
  {
    if bs == [] then [] else (if bs[0] then [0] else []) + Shifted(Positions(bs[1..]))
  }

  lemma {:induction false} PositionsExact(bs: seq<bool>)
    ensures Ascending(Positions(bs)) && forall j :: 0 <= j < |Positions(bs)| ==> Positions(bs)[j] < |bs|
    ensures forall i: nat :: i < |bs| ==> (i in Positions(bs) <==> bs[i])
  {
    if bs != [] {
      var rest, at := Positions(bs[1..]), Positions(bs);
      PositionsExact(bs[1..]);
      forall i: nat | i < |bs|
        ensures i in at <==> bs[i]
      {
        if i > 0 {
          assert bs[1..][i - 1] == bs[i];
          ShiftedIn(rest, i - 1);
        }
      }
    }
  }

  lemma ShiftedIn(at: seq<nat>, i: nat)
    ensures i + 1 in Shifted(at) <==> i in at
    ensures 0 !in Shifted(at)
  {
    if i in at {
      var k :| 0 <= k < |at| && at[k] == i;
      assert Shifted(at)[k] == i + 1;
    }
  }

  ghost function Flags(ix: seq<Indexed>, ms: seq<Option<Matcher>>, lo: Int64, hi: Int64): (bs: seq<bool>)
    ensures |bs| == |ix|
  {
    seq(|ix|, i requires 0 <= i < |ix| => Wanted(ix[i].labels, ix[i].minTs, ix[i].maxTs, ms, lo, hi))
  }

  /** The series is the entry decoded. */
  ghost predicate Decoded(a: Arith, x: Xor, buf: Bytes, e: Indexed, s: Series)
  {
    s.labels == e.labels && Located(buf, e) && DecodeSeries(a, x, buf, e) == Some(s.samples)
  }

  /** `out` holds the entries at the positions `at`, decoded. */
  ghost predicate DecodedAt(a: Arith, x: Xor, buf: Bytes, ix: seq<Indexed>, at: seq<nat>, out: seq<Series>)
  {
    |out| == |at| && forall j :: 0 <= j < |at| ==> at[j] < |ix| && Decoded(a, x, buf, ix[at[j]], out[j])
  }

  lemma DecodedShift(a: Arith, x: Xor, buf: Bytes, ix: seq<Indexed>, at: seq<nat>, out: seq<Series>)
    requires ix != [] && DecodedAt(a, x, buf, ix[1..], at, out)
    ensures DecodedAt(a, x, buf, ix, Shifted(at), out)
  {
    hide Decoded;
  }

  lemma DecodedFront(a: Arith, x: Xor, buf: Bytes, ix: seq<Indexed>, at: seq<nat>, s: Series, out: seq<Series>)
    requires ix != [] && Decoded(a, x, buf, ix[0], s) && DecodedAt(a, x, buf, ix, at, out)
    ensures DecodedAt(a, x, buf, ix, [0] + at, [s] + out)
  {
    hide Decoded;
  }

  lemma {:induction false} QueryAt(a: Arith, x: Xor, buf: Bytes, ix: seq<Indexed>, ms: seq<Option<Matcher>>,
                                   lo: Int64, hi: Int64)
    requires HitsLocated(buf, ix, ms, lo, hi) && Query(a, x, buf, ix, ms, lo, hi).Some?
    ensures DecodedAt(a, x, buf, ix, Positions(Flags(ix, ms, lo, hi)), Query(a, x, buf, ix, ms, lo, hi).value)
  {
    hide DecodeSeries, Located, Hits, Wanted, Positions, Shifted, DecodedAt;
    var bs := Flags(ix, ms, lo, hi);
    NextPosition(bs);
    if ix == [] {
      NoneDecoded(a, x, buf);
    } else {
      var e, at := ix[0], Positions(bs[1..]);
      HitsIff(e.labels, e.minTs, e.maxTs, ms, lo, hi);
      QueryAt(a, x, buf, ix[1..], ms, lo, hi);
      assert bs[1..] == Flags(ix[1..], ms, lo, hi);
      var later := Query(a, x, buf, ix[1..], ms, lo, hi).value;
      DecodedShift(a, x, buf, ix, at, later);
      if HitBy(e, ms, lo, hi) {
        DecodedFront(a, x, buf, ix, Shifted(at), Query(a, x, buf, ix, ms, lo, hi).value[0], later);
      } else {
        assert [] + Shifted(at) == Shifted(at);
      }
    }
  }

  lemma NoneDecoded(a: Arith, x: Xor, buf: Bytes)
    ensures DecodedAt(a, x, buf, [], [], [])
  {
  }

  lemma NextPosition(bs: seq<bool>)
    ensures Positions(bs) == if bs == [] then [] else (if bs[0] then [0] else []) + Shifted(Positions(bs[1..]))
  {
  }

  /** A query that succeeds returns exactly the wanted entries of the index, each once,
      in order and decoded; `at` says where they are. */
  lemma QueryExact(a: Arith, x: Xor, buf: Bytes, ix: seq<Indexed>, ms: seq<Option<Matcher>>, lo: Int64, hi: Int64)
    returns (at: seq<nat>)
    requires HitsLocated(buf, ix, ms, lo, hi) && Query(a, x, buf, ix, ms, lo, hi).Some?
    ensures Ascending(at) && (forall j :: 0 <= j < |at| ==> at[j] < |ix|)
    ensures forall i: nat :: i < |ix| ==> (i in at <==> Wanted(ix[i].labels, ix[i].minTs, ix[i].maxTs, ms, lo, hi))
    ensures var out := Query(a, x, buf, ix, ms, lo, hi).value;
            |out| == |at| && forall j :: 0 <= j < |at| ==> Decoded(a, x, buf, ix[at[j]], out[j])
  {
    hide Query, Positions, Wanted, Decoded, HitsLocated;
    at := Positions(Flags(ix, ms, lo, hi));
    QueryAt(a, x, buf, ix, ms, lo, hi);
    PositionsExact(Flags(ix, ms, lo, hi));
  }

  /** It fails exactly when the run of a wanted entry does not decode. */
  lemma {:induction false} QueryFailsIff(a: Arith, x: Xor, buf: Bytes, ix: seq<Indexed>, ms: seq<Option<Matcher>>,
                                         lo: Int64, hi: Int64)
    requires HitsLocated(buf, ix, ms, lo, hi)
    ensures Query(a, x, buf, ix, ms, lo, hi).None? <==>
              exists i :: 0 <= i < |ix| && Wanted(ix[i].labels, ix[i].minTs, ix[i].maxTs, ms, lo, hi)
                          && Located(buf, ix[i]) && DecodeSeries(a, x, buf, ix[i]).None?
  {
    hide DecodeSeries, Located, Hits, Wanted;
    if ix != [] {
      var e, rest := ix[0], ix[1..];
      HitsIff(e.labels, e.minTs, e.maxTs, ms, lo, hi);
      QueryFailsIff(a, x, buf, rest, ms, lo, hi);
      assert forall i :: 0 <= i < |rest| ==> rest[i] == ix[i + 1];
      assert forall i :: 0 < i < |ix| ==> ix[i] == rest[i - 1];
    }
  }

  predicate NonEmpty(ss: seq<Series>)
  {
    forall i :: 0 <= i < |ss| ==> ss[i].samples != []
  }

  /** The series of the input a query is meant to return. */
  function Selected(ss: seq<Series>, ms: seq<Option<Matcher>>, lo: Int64, hi: Int64): (r: seq<Series>)
    requires NonEmpty(ss)
  {
    if ss == [] then []
    else
      var s := ss[0];
      var rest := Selected(ss[1..], ms, lo, hi);
      if Hits(s.labels, s.samples[0].t, s.samples[|s.samples| - 1].t, ms, lo, hi) then [s] + rest else rest
  }

  /** The samples themselves, or samples that compare equal to them. */
  predicate Returns(out: seq<Sample>, samples: seq<Sample>)
  {
    out == samples || SameSamples(out, samples)
  }

  predicate SameSeries(out: seq<Series>, ss: seq<Series>)
  {
    && |out| == |ss|
    && forall i :: 0 <= i < |ss| ==> out[i].labels == ss[i].labels && Returns(out[i].samples, ss[i].samples)
  }

  /** The answer to a query over `ss`: those series whose first and last timestamps
      overlap the range and whose labels match, each once and in order. */
  ghost predicate Answers(out: seq<Series>, ss: seq<Series>, ms: seq<Option<Matcher>>, lo: Int64, hi: Int64)
    requires NonEmpty(ss)
  {
    exists at: seq<nat> :: Picks(at, ss, ms, lo, hi) && SameAt(out, ss, at)
  }

  ghost predicate Picks(at: seq<nat>, ss: seq<Series>, ms: seq<Option<Matcher>>, lo: Int64, hi: Int64)
    requires NonEmpty(ss)
  {
    && Ascending(at) && (forall j :: 0 <= j < |at| ==> at[j] < |ss|)
    && forall i: nat :: i < |ss| ==>
         (i in at <==> Wanted(ss[i].labels, ss[i].samples[0].t, ss[i].samples[|ss[i].samples| - 1].t, ms, lo, hi))
  }

  ghost predicate SameAt(out: seq<Series>, ss: seq<Series>, at: seq<nat>)
  {
    && |out| == |at|
    && forall j :: 0 <= j < |at| && at[j] < |ss| ==>
         out[j].labels == ss[at[j]].labels && Returns(out[j].samples, ss[at[j]].samples)
  }

  lemma {:induction false} SplitConcat(chunks: seq<Bytes>)
    ensures Sum(Lengths(chunks)) == |Concat(chunks)|
    ensures SplitChunks(Concat(chunks), Lengths(chunks)) == chunks
  {
    SumLengths(chunks);
    if chunks != [] {
      var run := Concat(chunks);
      SplitConcat(chunks[1..]);
      assert Lengths(chunks)[1..] == Lengths(chunks[1..]);
      assert run[..|chunks[0]|] == chunks[0] && run[|chunks[0]|..] == Concat(chunks[1..]);
    }
  }

  lemma SingleChunk(a: Arith, x: Xor, c: Bytes)
    ensures Concat([c]) == c && DecodeChunks(a, x, [c]) == DecodeChunk(a, x, c)
  {
    hide DecodeChunk;
    assert [c] == [c] + [];
    assert Concat([c]) == c + [] == c;
    var d := DecodeChunk(a, x, c);
    if d.Some? {
      assert d.value + [] == d.value;
    }
  }

  /** One series decodes to its samples, whether stored as one chunk or several. */
  lemma DecodesStored(a: Arith, x: Xor, buf: Bytes, s: Indexed, c: Candidate, samples: seq<Sample>)
    requires s.off + s.runLen <= |buf| && buf[s.off..s.off + s.runLen] == Concat(c.chunks)
    requires s.lens == Lengths(c.chunks) && s.runLen == |Concat(c.chunks)| && c.chunks != []
    requires Faithful(a, x, c, samples)
    ensures Located(buf, s) && DecodeSeries(a, x, buf, s).Some?
    ensures Returns(DecodeSeries(a, x, buf, s).value, samples)
  {
    hide DecodeChunk, DecodeChunks, SameSamples, SplitChunks, Sum, Concat, Lengths;
    SplitConcat(c.chunks);
    assert |s.lens| == |c.chunks|;
    if |s.lens| == 1 {
      assert c.chunks == [c.chunks[0]];
      SingleChunk(a, x, c.chunks[0]);
    }
  }

  /** What WritePart stores for `ss`: every series under its own labels, with the
      chunks of a winning candidate and its first and last timestamps. */
  predicate Holds(a: Arith, x: Xor, im: Image, ss: seq<Series>, cs: seq<Candidate>)
  {
    && NonEmpty(ss) && |im.entries| == |im.runs| == |ss| == |cs|
    && forall i :: 0 <= i < |ss| ==> HoldsAt(a, x, im, i, ss[i], cs[i])
  }

  predicate HoldsAt(a: Arith, x: Xor, im: Image, i: nat, s: Series, c: Candidate)
    requires i < |im.entries| == |im.runs| && s.samples != []
  {
    && c.chunks != [] && Faithful(a, x, c, s.samples)
    && Stored(im, i, s.labels, c.chunks)
    && im.entries[i].minTs == s.samples[0].t && im.entries[i].maxTs == s.samples[|s.samples| - 1].t
  }

  /** `ix[i]` decodes to `ss[i]`. */
  predicate Backs(a: Arith, x: Xor, buf: Bytes, s: Indexed, want: Series)
  {
    && want.samples != [] && s.labels == want.labels
    && s.minTs == want.samples[0].t && s.maxTs == want.samples[|want.samples| - 1].t
    && Located(buf, s)
    && DecodeSeries(a, x, buf, s).Some? && Returns(DecodeSeries(a, x, buf, s).value, want.samples)
  }

  lemma {:induction false} QuerySelects(a: Arith, x: Xor, buf: Bytes, ix: seq<Indexed>, ss: seq<Series>,
                                        ms: seq<Option<Matcher>>, lo: Int64, hi: Int64)
    requires |ix| == |ss| && NonEmpty(ss) && AllLocated(buf, ix)
    requires forall i :: 0 <= i < |ss| ==> Backs(a, x, buf, ix[i], ss[i])
    ensures Query(a, x, buf, ix, ms, lo, hi).Some?
    ensures SameSeries(Query(a, x, buf, ix, ms, lo, hi).value, Selected(ss, ms, lo, hi))
    decreases |ix|
  {
    hide DecodeSeries, Hits, Returns;
    if ss != [] {
      assert Backs(a, x, buf, ix[0], ss[0]);
      assert forall i :: 0 <= i < |ss| - 1 ==> Backs(a, x, buf, ix[1..][i], ss[1..][i]);
      QuerySelects(a, x, buf, ix[1..], ss[1..], ms, lo, hi);
    }
  }

  /** Over entries that back `ss`, a query answers from `ss`. */
  lemma QueryAnswers(a: Arith, x: Xor, buf: Bytes, ix: seq<Indexed>, ss: seq<Series>, ms: seq<Option<Matcher>>,
                     lo: Int64, hi: Int64)
    requires |ix| == |ss| && NonEmpty(ss) && AllLocated(buf, ix)
    requires forall i :: 0 <= i < |ss| ==> Backs(a, x, buf, ix[i], ss[i])
    ensures Query(a, x, buf, ix, ms, lo, hi).Some? && Answers(Query(a, x, buf, ix, ms, lo, hi).value, ss, ms, lo, hi)
  {
    hide DecodeSeries, Hits, Returns, Wanted, Query, Located, Selected, SameSeries;
    QuerySelects(a, x, buf, ix, ss, ms, lo, hi);
    var out := Query(a, x, buf, ix, ms, lo, hi).value;
    var at := QueryExact(a, x, buf, ix, ms, lo, hi);
    forall i: nat | i < |ss|
      ensures i in at <==> Wanted(ss[i].labels, ss[i].samples[0].t, ss[i].samples[|ss[i].samples| - 1].t, ms, lo, hi)
    {
      assert Backs(a, x, buf, ix[i], ss[i]);
    }
    forall j | 0 <= j < |at| && at[j] < |ss|
      ensures out[j].labels == ss[at[j]].labels && Returns(out[j].samples, ss[at[j]].samples)
    {
      assert Backs(a, x, buf, ix[at[j]], ss[at[j]]);
    }
    assert Picks(at, ss, ms, lo, hi) && SameAt(out, ss, at);
  }

  lemma RunSlice(crc: Crc, im: Image, i: nat)
    requires i < |im.runs|
    ensures var b, o := Assemble(crc, im), RunOff(im, i);
            o + |im.runs[i]| <= |b| && b[o..o + |im.runs[i]|] == im.runs[i]
  {
    hide HeaderWire, IndexWire, SymtabWire, FooterWire, Concat, LittleEndian;
    ConcatPrefix(im.runs, i);
    var h, r := Head(im), Concat(im.runs);
    var rest := (IndexWire(im.entries) + (SymtabWire(im.syms) + Foot(im))) + LittleEndian(crc(Unsealed(im)), 4);
    var b := Assemble(crc, im);
    assert b == h + (r + rest);
    var o := RunOff(im, i);
    var p := o - |h|;
    assert (h + (r + rest))[o..o + |im.runs[i]|] == r[p..p + |im.runs[i]|];
  }

  lemma HoldsBacks(crc: Crc, a: Arith, x: Xor, im: Image, ss: seq<Series>, cs: seq<Candidate>, i: nat)
    requires Holds(a, x, im, ss, cs) && i < |ss|
    ensures var e := im.entries[i];
            Backs(a, x, Assemble(crc, im), Indexed(Build(ss[i].labels), e.off, e.runLen, e.lens, e.minTs, e.maxTs),
                  Built(ss[i]))
  {
    hide Assemble, DecodeSeries, Faithful, Build;
    var e := im.entries[i];
    assert HoldsAt(a, x, im, i, ss[i], cs[i]);
    RunSlice(crc, im, i);
    DecodesStored(a, x, Assemble(crc, im), Indexed(Build(ss[i].labels), e.off, e.runLen, e.lens, e.minTs, e.maxTs),
                  cs[i], ss[i].samples);
  }

  function LabelSets(ss: seq<Series>): (lss: seq<seq<Label>>)
    ensures |lss| == |ss|
  {
    seq(|ss|, i requires 0 <= i < |ss| => ss[i].labels)
  }

  function ChunkRuns(cs: seq<Candidate>): (r: seq<seq<Bytes>>)
    ensures |r| == |cs|
  {
    seq(|cs|, i requires 0 <= i < |cs| => cs[i].chunks)
  }

  /** A series under the labels the builder makes of its own. */
  function Built(s: Series): (r: Series)
  {
    s.(labels := Build(s.labels))
  }

  function AllBuilt(ss: seq<Series>): (r: seq<Series>)
    ensures |r| == |ss| && (NonEmpty(ss) ==> NonEmpty(r))
  {
    seq(|ss|, i requires 0 <= i < |ss| => Built(ss[i]))
  }

  /** The round trip: a part opens exactly when every run length fits 32 bits, and
      every query over it returns the selected series of the input, in label order,
      with their original samples. */
  lemma PartRoundTrip(crc: Crc, a: Arith, x: Xor, im: Image, ss: seq<Series>, cs: seq<Candidate>,
                      ms: seq<Option<Matcher>>, lo: Int64, hi: Int64)
    requires Is32Bit(crc) && |Assemble(crc, im)| < TWO63 && Holds(a, x, im, ss, cs)
    ensures var r := Open(crc, Assemble(crc, im));
            && (r.Some? <==> AllFit(im))
            && (r.Some? ==>
                 && r.value.start == im.start && r.value.end == im.end && AllLocated(r.value.buf, r.value.series)
                 && var out := Query(a, x, r.value.buf, r.value.series, ms, lo, hi);
                    && out.Some? && Answers(out.value, AllBuilt(ss), ms, lo, hi)
                    && SameSeries(out.value, Selected(AllBuilt(ss), ms, lo, hi)))
  {
    hide Assemble, Open, Faithful, Build, Stored, DecodeSeries, Answers, Query, Selected;
    var lss := LabelSets(ss);
    forall i | 0 <= i < |ss|
      ensures Stored(im, i, lss[i], ChunkRuns(cs)[i])
    {
      assert HoldsAt(a, x, im, i, ss[i], cs[i]);
    }
    OpenWritten(crc, im, lss, ChunkRuns(cs));
    if AllFit(im) {
      var b, ix := Assemble(crc, im), Recovered(im, lss);
      forall i | 0 <= i < |ss|
        ensures Backs(a, x, b, ix[i], AllBuilt(ss)[i])
      {
        HoldsBacks(crc, a, x, im, ss, cs, i);
      }
      QuerySelects(a, x, b, ix, AllBuilt(ss), ms, lo, hi);
      QueryAnswers(a, x, b, ix, AllBuilt(ss), ms, lo, hi);
    }
  }

  /** For label sets as the metrics library orders them, dropping empty values changes
      no selection: what is returned is exactly the series that match, and with their
      own labels if and only if none has an empty value. */
  lemma {:induction false} SelectedBuilt(ss: seq<Series>, ms: seq<Option<Matcher>>, lo: Int64, hi: Int64)
    requires NonEmpty(ss) && forall i :: 0 <= i < |ss| ==> Named(ss[i].labels)
    ensures Selected(AllBuilt(ss), ms, lo, hi) == AllBuilt(Selected(ss, ms, lo, hi))
    ensures AllBuilt(ss) == ss <==>
              forall i, k :: 0 <= i < |ss| && 0 <= k < |ss[i].labels| ==> ss[i].labels[k].value != []
  {
    hide Build, MatchesAll, Named;
    if ss != [] {
      SelectedBuilt(ss[1..], ms, lo, hi);
      assert AllBuilt(ss)[1..] == AllBuilt(ss[1..]);
      MatchesBuilt(ss[0].labels, ms);
      AllBuiltSelected(ss[0], Selected(ss[1..], ms, lo, hi));
    }
    AllBuiltSame(ss);
  }

  lemma AllBuiltSelected(s: Series, rest: seq<Series>)
    ensures AllBuilt([s] + rest) == [Built(s)] + AllBuilt(rest)
  {
  }

  lemma AllBuiltSame(ss: seq<Series>)
    requires forall i :: 0 <= i < |ss| ==> Named(ss[i].labels)
    ensures AllBuilt(ss) == ss <==>
              forall i, k :: 0 <= i < |ss| && 0 <= k < |ss[i].labels| ==> ss[i].labels[k].value != []
  {
    hide Build, Less;
    forall i | 0 <= i < |ss|
      ensures Built(ss[i]) == ss[i] <==> forall k :: 0 <= k < |ss[i].labels| ==> ss[i].labels[k].value != []
    {
      BuildSameIff(ss[i].labels);
    }
    if AllBuilt(ss) == ss {
      assert forall i :: 0 <= i < |ss| ==> AllBuilt(ss)[i] == Built(ss[i]);
    }
  }

  lemma MatchesBuilt(ls: seq<Label>, ms: seq<Option<Matcher>>)
    requires Named(ls)
    ensures MatchesAll(Build(ls), ms) <==> MatchesAll(ls, ms)
  {
    forall i | 0 <= i < |ms| && ms[i].Some?
      ensures Get(Build(ls), ms[i].value.name) == Get(ls, ms[i].value.name)
    {
      GetBuilt(ls, ms[i].value.name);
    }
  }

  /** With samples in time order the bounds prune nothing: a matching series with a
      sample in the range is always selected. */
  lemma {:induction false} NothingPruned(ss: seq<Series>, ms: seq<Option<Matcher>>, lo: Int64, hi: Int64, i: nat, k: nat)
    requires NonEmpty(ss) && i < |ss| && k < |ss[i].samples|
    requires forall p, q :: 0 <= p < q < |ss[i].samples| ==> ss[i].samples[p].t <= ss[i].samples[q].t
    requires lo <= ss[i].samples[k].t <= hi && MatchesAll(ss[i].labels, ms)
    ensures ss[i] in Selected(ss, ms, lo, hi)
    decreases i
  {
    hide MatchesAll;
    if i > 0 {
      NothingPruned(ss[1..], ms, lo, hi, i - 1, k);
    } else {
      var t := ss[0].samples;
      assert t[0].t <= t[k].t <= t[|t| - 1].t;
    }
  }
}
