/**
 The byte layout of an ASAPCC1 cold part: header, chunk region, label index,
 symbol table and footer, and the parse of each region.
 */
module ColdPartFormat {
  import opened Bits
  import opened Common
  import opened Wire
  import opened Order

  type Str = Bytes

  datatype Label = Label(name: Str, value: Str)

  /** A label set as the metrics library keeps it: names strictly increasing and
      no empty value. */
  predicate Canonical(ls: seq<Label>)
  {
    && (forall i, j :: 0 <= i < j < |ls| ==> Less(ls[i].name, ls[j].name))
    && (forall i :: 0 <= i < |ls| ==> ls[i].value != [])
  }

  /** Value of a label, empty when absent. */
  function Get(ls: seq<Label>, name: Str): (v: Str)
  {
    if ls == [] then [] else if ls[0].name == name then ls[0].value else Get(ls[1..], name)
  }

  /** `Builder.Set`: an empty value deletes, any other replaces or inserts in
      name order. */
  function BuilderSet(ls: seq<Label>, l: Label): (r: seq<Label>)
  {
    if ls == [] then (if l.value == [] then [] else [l])
    else if ls[0].name == l.name then (if l.value == [] then ls[1..] else [l] + ls[1..])
    else if Less(l.name, ls[0].name) then (if l.value == [] then ls else [l] + ls)
    else [ls[0]] + BuilderSet(ls[1..], l)
  }

  function Build(ls: seq<Label>): (r: seq<Label>)
  {
    if ls == [] then [] else BuilderSet(Build(ls[..|ls| - 1]), ls[|ls| - 1])
  }

  lemma {:induction false} BuilderAppends(ls: seq<Label>, l: Label)
    requires l.value != []
    requires forall i :: 0 <= i < |ls| ==> Less(ls[i].name, l.name)
    ensures BuilderSet(ls, l) == ls + [l]
  {
    if ls != [] {
      LessAsymmetric(ls[0].name, l.name);
      BuilderAppends(ls[1..], l);
      assert ls == [ls[0]] + ls[1..];
    }
  }

  lemma {:induction false} BuildCanonical(ls: seq<Label>)
    requires Canonical(ls)
    ensures Build(ls) == ls
  {
    if ls != [] {
      var n := |ls| - 1;
      assert ls == ls[..n] + [ls[n]];
      BuildCanonical(ls[..n]);
      BuilderAppends(ls[..n], ls[n]);
    }
  }

  lemma {:induction false} SetCanonical(ls: seq<Label>, l: Label)
    requires Canonical(ls)
    ensures Canonical(BuilderSet(ls, l))
    ensures forall m :: m in BuilderSet(ls, l) ==> m in ls || m == l
  {
    if ls != [] {
      assert ls == [ls[0]] + ls[1..];
      var rest := BuilderSet(ls[1..], l);
      SetCanonical(ls[1..], l);
      if Less(l.name, ls[0].name) {
        forall i | 0 <= i < |ls|
          ensures Less(l.name, ls[i].name)
        {
          if i > 0 {
            LessTransitive(l.name, ls[0].name, ls[i].name);
          }
        }
      } else if ls[0].name != l.name {
        LessTotal(ls[0].name, l.name);
        forall i | 0 <= i < |rest|
          ensures Less(ls[0].name, rest[i].name)
        {
          assert rest[i] in rest;
        }
      }
    }
  }

  lemma {:induction false} BuildIsCanonical(ls: seq<Label>)
    ensures Canonical(Build(ls))
  {
    if ls != [] {
      BuildIsCanonical(ls[..|ls| - 1]);
      SetCanonical(Build(ls[..|ls| - 1]), ls[|ls| - 1]);
    }
  }

  /** A label list comes back from the builder if and only if it is sorted, names each
      label once and has no empty value. */
  lemma BuildSameIff(ls: seq<Label>)
    ensures Build(ls) == ls <==> Canonical(ls)
  {
    BuildIsCanonical(ls);
    if Canonical(ls) {
      BuildCanonical(ls);
    }
  }

  /** Sorted and each name once; values may be empty. */
  predicate Named(ls: seq<Label>)
  {
    forall i, j :: 0 <= i < j < |ls| ==> Less(ls[i].name, ls[j].name)
  }

  function Present(ls: seq<Label>): (r: seq<Label>)
  {
    if ls == [] then [] else Present(ls[..|ls| - 1]) + (if ls[|ls| - 1].value == [] then [] else [ls[|ls| - 1]])
  }

  lemma {:induction false} PresentIn(ls: seq<Label>)
    ensures forall l :: l in Present(ls) <==> l in ls && l.value != []
  {
    if ls != [] {
      var n := |ls| - 1;
      assert ls == ls[..n] + [ls[n]];
      PresentIn(ls[..n]);
    }
  }

  lemma {:induction false} BuilderDeletes(ls: seq<Label>, l: Label)
    requires l.value == [] && forall i :: 0 <= i < |ls| ==> Less(ls[i].name, l.name)
    ensures BuilderSet(ls, l) == ls
  {
    if ls != [] {
      LessAsymmetric(ls[0].name, l.name);
      BuilderDeletes(ls[1..], l);
      assert ls == [ls[0]] + ls[1..];
    }
  }

  /** Of a named list exactly the empty values are dropped. */
  lemma {:induction false} BuildDrops(ls: seq<Label>)
    requires Named(ls)
    ensures Build(ls) == Present(ls)
  {
    hide Less, BuilderSet;
    if ls != [] {
      var n := |ls| - 1;
      BuildDrops(ls[..n]);
      var kept := Present(ls[..n]);
      PresentIn(ls[..n]);
      forall i | 0 <= i < |kept|
        ensures Less(kept[i].name, ls[n].name)
      {
        assert kept[i] in kept;
        var j :| 0 <= j < n && ls[..n][j] == kept[i];
        assert ls[j] == kept[i];
      }
      if ls[n].value == [] {
        BuilderDeletes(kept, ls[n]);
        assert kept + [] == kept;
      } else {
        BuilderAppends(kept, ls[n]);
      }
    }
  }

  lemma {:induction false} GetIs(ls: seq<Label>, l: Label)
    requires Named(ls) && l in ls
    ensures Get(ls, l.name) == l.value
  {
    if ls[0] != l {
      var i :| 0 < i < |ls| && ls[i] == l;
      assert ls[1..][i - 1] == l;
      LessIrreflexive(l.name);
      GetIs(ls[1..], l);
    }
  }

  lemma {:induction false} GetAbsent(ls: seq<Label>, name: Str)
    requires forall l :: l in ls ==> l.name != name
    ensures Get(ls, name) == []
  {
    if ls != [] {
      GetAbsent(ls[1..], name);
    }
  }

  /** Dropping empty values changes no look-up. */
  lemma GetBuilt(ls: seq<Label>, name: Str)
    requires Named(ls)
    ensures Get(Build(ls), name) == Get(ls, name)
  {
    BuildDrops(ls);
    BuildIsCanonical(ls);
    PresentIn(ls);
    hide Get, Build, Present;
    if l :| l in ls && l.name == name {
      GetIs(ls, l);
      if l.value != [] {
        GetIs(Build(ls), l);
      } else if m :| m in Build(ls) && m.name == name {
        GetIs(ls, m);
      } else {
        GetAbsent(Build(ls), name);
      }
    } else {
      GetAbsent(ls, name);
      GetAbsent(Build(ls), name);
    }
  }

  // ---------------------------------------------------------------------
  // Symbol table
  // ---------------------------------------------------------------------

  class SymbolTable {
    var syms: seq<Str>
    var idx: map<Str, nat>

    ghost predicate Valid()
      reads this
    {
      && (forall i :: 0 <= i < |syms| ==> syms[i] in idx && idx[syms[i]] == i)
      && (forall s :: s in idx ==> idx[s] < |syms| && syms[idx[s]] == s)
    }

    constructor ()
      ensures Valid() && syms == []
    {
      syms, idx := [], map[];
    }

    /** Adds `s` unless present; ordinals already handed out never move. */
    method Intern(s: Str)
      requires Valid()
      modifies this
      ensures Valid() && s in idx
      ensures old(syms) <= syms
      ensures forall t :: t in old(idx) ==> t in idx && idx[t] == old(idx)[t]
    {
      if s in idx {
        return;
      }
      idx := idx[s := |syms|];
      syms := syms + [s];
    }
  }

  function SymbolsWire(syms: seq<Str>): (bs: Bytes)
  {
    if syms == [] then [] else Uvarint(|syms[0]|) + (syms[0] + SymbolsWire(syms[1..]))
  }

  function GetSymbols(s: Bytes, k: nat): (r: Option<(seq<Str>, Bytes)>)
    decreases k
  {
    if k == 0 then Some(([], s))
    else
      var (n, s1) :- GetUvarint(s);
      var (sym, s2) :- Take(s1, n);
      var (syms, rest) :- GetSymbols(s2, k - 1);
      Some(([sym] + syms, rest))
  }

  predicate ShortStrings(syms: seq<Str>)
  {
    forall i :: 0 <= i < |syms| ==> |syms[i]| < TWO63
  }

  lemma {:induction false} SymbolsRoundTrip(syms: seq<Str>, rest: Bytes)
    requires ShortStrings(syms)
    ensures GetSymbols(SymbolsWire(syms) + rest, |syms|) == Some((syms, rest))
  {
    if syms == [] {
      assert [] + rest == rest;
    } else {
      assert syms == [syms[0]] + syms[1..];
      var tail := SymbolsWire(syms[1..]);
      Assoc(Uvarint(|syms[0]|), syms[0] + tail, rest);
      Assoc(syms[0], tail, rest);
      UvarintRoundTrip(|syms[0]|, syms[0] + (tail + rest));
      TakeRoundTrip(syms[0], tail + rest);
      SymbolsRoundTrip(syms[1..], rest);
    }
  }

  // ---------------------------------------------------------------------
  // Index entries
  // ---------------------------------------------------------------------

  function UvarintRun(ns: seq<nat>): (bs: Bytes)
  {
    if ns == [] then [] else Uvarint(ns[0]) + UvarintRun(ns[1..])
  }

  function GetUvarintRun(s: Bytes, k: nat): (r: Option<(seq<nat>, Bytes)>)
    ensures r.Some? ==> |r.value.0| == k
    decreases k
  {
    if k == 0 then Some(([], s))
    else
      var (n, s1) :- GetUvarint(s);
      var (ns, rest) :- GetUvarintRun(s1, k - 1);
      Some(([n] + ns, rest))
  }

  predicate AllU64(ns: seq<nat>)
  {
    forall i :: 0 <= i < |ns| ==> ns[i] < TWO64
  }

  lemma {:induction false} UvarintRunRoundTrip(ns: seq<nat>, rest: Bytes)
    requires AllU64(ns)
    ensures GetUvarintRun(UvarintRun(ns) + rest, |ns|) == Some((ns, rest))
  {
    if ns == [] {
      assert [] + rest == rest;
    } else {
      assert ns == [ns[0]] + ns[1..];
      var tail := UvarintRun(ns[1..]);
      Assoc(Uvarint(ns[0]), tail, rest);
      UvarintRoundTrip(ns[0], tail + rest);
      UvarintRunRoundTrip(ns[1..], rest);
    }
  }

  /** One index entry: label references as name and value ordinals in turn. */
  datatype Entry = Entry(refs: seq<nat>, off: nat, runLen: nat, lens: seq<nat>, minTs: Int64, maxTs: Int64)

  predicate Framed(e: Entry)
  {
    && |e.refs| % 2 == 0 && |e.refs| < TWO63 && AllU64(e.refs)
    && e.off < TWO64
    && |e.lens| < TWO63 && AllU64(e.lens)
  }

  const TWO32: int := 0x1_0000_0000

  function EntryTail(e: Entry): (bs: Bytes)
  {
    LittleEndian(e.off, 8)
    + (LittleEndian(e.runLen % TWO32, 4)
       + (Uvarint(|e.lens|)
          + (UvarintRun(e.lens)
             + (LittleEndian(ToU64(e.minTs), 8)
                + LittleEndian(ToU64(e.maxTs), 8)))))
  }

  /** The stored run length is the low 32 bits of the real one. */
  function EntryWire(e: Entry): (bs: Bytes)
  {
    Uvarint(|e.refs| / 2) + (UvarintRun(e.refs) + EntryTail(e))
  }

  function GetEntryTail(s: Bytes, refs: seq<nat>): (r: Option<(Entry, Bytes)>)
    ensures r.Some? ==> r.value.0.refs == refs
  {
    var (off, s1) :- GetU64(s);
    var (len, s2) :- GetLittleEndian(s1, 4);
    var (n, s3) :- GetUvarint(s2);
    var (lens, s4) :- GetUvarintRun(s3, n);
    var (lo, s5) :- GetInt64(s4);
    var (hi, s6) :- GetInt64(s5);
    Some((Entry(refs, off, len, lens, lo, hi), s6))
  }

  function GetEntry(s: Bytes): (r: Option<(Entry, Bytes)>)
    ensures r.Some? ==> |r.value.0.refs| % 2 == 0
  {
    var (n, s1) :- GetUvarint(s);
    var (refs, s2) :- GetUvarintRun(s1, 2 * n);
    GetEntryTail(s2, refs)
  }

  function Truncated(e: Entry): (r: Entry)
  {
    e.(runLen := e.runLen % TWO32)
  }

  lemma TailAssoc(a: Bytes, b: Bytes, c: Bytes, d: Bytes, e: Bytes, f: Bytes, rest: Bytes)
    ensures (a + (b + (c + (d + (e + f))))) + rest == a + (b + (c + (d + (e + (f + rest)))))
  {
  }

  lemma EntryTailRoundTrip(e: Entry, rest: Bytes)
    requires Framed(e)
    ensures GetEntryTail(EntryTail(e) + rest, e.refs) == Some((Truncated(e), rest))
  {
    hide LittleEndian, FromLittleEndian, Uvarint, UvarintRun, GetUvarint, GetUvarintRun;
    var a, b := LittleEndian(e.off, 8), LittleEndian(e.runLen % TWO32, 4);
    var c, d := Uvarint(|e.lens|), UvarintRun(e.lens);
    var lo, hi := LittleEndian(ToU64(e.minTs), 8), LittleEndian(ToU64(e.maxTs), 8);
    TailAssoc(a, b, c, d, lo, hi, rest);
    var s4 := lo + (hi + rest);
    U64RoundTrip(e.off, b + (c + (d + s4)));
    Pow2Words();
    GetLittleEndianRoundTrip(e.runLen % TWO32, 4, c + (d + s4));
    UvarintRoundTrip(|e.lens|, d + s4);
    UvarintRunRoundTrip(e.lens, s4);
    Int64RoundTrip(e.minTs, hi + rest);
    Int64RoundTrip(e.maxTs, rest);
  }

  lemma EntryRoundTrip(e: Entry, rest: Bytes)
    requires Framed(e)
    ensures GetEntry(EntryWire(e) + rest) == Some((Truncated(e), rest))
  {
    hide Uvarint, UvarintRun, GetUvarint, GetUvarintRun, EntryTail, GetEntryTail;
    var tail := EntryTail(e);
    Assoc(Uvarint(|e.refs| / 2), UvarintRun(e.refs) + tail, rest);
    Assoc(UvarintRun(e.refs), tail, rest);
    UvarintRoundTrip(|e.refs| / 2, UvarintRun(e.refs) + (tail + rest));
    UvarintRunRoundTrip(e.refs, tail + rest);
    EntryTailRoundTrip(e, rest);
  }

  function IndexWire(es: seq<Entry>): (bs: Bytes)
  {
    if es == [] then [] else EntryWire(es[0]) + IndexWire(es[1..])
  }

  function GetIndex(s: Bytes, k: nat): (r: Option<(seq<Entry>, Bytes)>)
    ensures r.Some? ==> |r.value.0| == k
    decreases k
  {
    if k == 0 then Some(([], s))
    else
      var (e, s1) :- GetEntry(s);
      var (es, rest) :- GetIndex(s1, k - 1);
      Some(([e] + es, rest))
  }

  predicate AllFramed(es: seq<Entry>)
  {
    forall i :: 0 <= i < |es| ==> Framed(es[i])
  }

  function AllTruncated(es: seq<Entry>): (r: seq<Entry>)
    ensures |r| == |es|
  {
    seq(|es|, i requires 0 <= i < |es| => Truncated(es[i]))
  }

  lemma {:induction false} IndexRoundTrip(es: seq<Entry>, rest: Bytes)
    requires AllFramed(es)
    ensures GetIndex(IndexWire(es) + rest, |es|) == Some((AllTruncated(es), rest))
  {
    hide EntryWire, GetEntry, Framed, Truncated;
    if es == [] {
      assert [] + rest == rest;
    } else {
      assert AllTruncated(es) == [Truncated(es[0])] + AllTruncated(es[1..]);
      var tail := IndexWire(es[1..]);
      Assoc(EntryWire(es[0]), tail, rest);
      EntryRoundTrip(es[0], tail + rest);
      IndexRoundTrip(es[1..], rest);
    }
  }

  // ---------------------------------------------------------------------
  // Header and footer
  // ---------------------------------------------------------------------

  const MAGIC: Bytes := [65, 83, 65, 80, 67, 67, 49]
  const VERSION: Byte := 1
  const FOOTER_LEN: nat := 28

  function HeaderWire(start: Int64, end: Int64, count: nat): (bs: Bytes)
  {
    MAGIC + ([VERSION]
             + (LittleEndian(ToU64(start), 8) + (LittleEndian(ToU64(end), 8) + Uvarint(count))))
  }

  datatype Header = Header(start: Int64, end: Int64, count: nat)

  function GetHeader(s: Bytes): (r: Option<Header>)
  {
    var (magic, s1) :- Take(s, 7);
    var (version, s2) :- Take(s1, 1);
    if magic != MAGIC || version != [VERSION] then None
    else
      var (start, s3) :- GetInt64(s2);
      var (end, s4) :- GetInt64(s3);
      var (count, _) :- GetUvarint(s4);
      Some(Header(start, end, count))
  }

  lemma HeaderAssoc(a: Bytes, b: Bytes, c: Bytes, d: Bytes, e: Bytes, rest: Bytes)
    ensures (a + (b + (c + (d + e)))) + rest == a + (b + (c + (d + (e + rest))))
  {
  }

  lemma HeaderRoundTrip(start: Int64, end: Int64, count: nat, rest: Bytes)
    requires count < TWO64
    ensures GetHeader(HeaderWire(start, end, count) + rest) == Some(Header(start, end, count))
    ensures |HeaderWire(start, end, count)| >= 25
  {
    hide LittleEndian, FromLittleEndian, Uvarint, GetUvarint;
    var a, b := LittleEndian(ToU64(start), 8), LittleEndian(ToU64(end), 8);
    var n := Uvarint(count);
    HeaderAssoc(MAGIC, [VERSION], a, b, n, rest);
    TakeRoundTrip(MAGIC, [VERSION] + (a + (b + (n + rest))));
    TakeRoundTrip([VERSION], a + (b + (n + rest)));
    Int64RoundTrip(start, b + (n + rest));
    Int64RoundTrip(end, n + rest);
    UvarintRoundTrip(count, rest);
  }

  function FooterWire(indexOff: nat, indexLen: nat, symtabOff: nat): (bs: Bytes)
    ensures |bs| == 24
  {
    LittleEndian(indexOff, 8) + (LittleEndian(indexLen, 8) + LittleEndian(symtabOff, 8))
  }

  function GetFooter(s: Bytes): (r: Option<(nat, nat, nat)>)
  {
    var (a, s1) :- GetU64(s);
    var (b, s2) :- GetU64(s1);
    var (c, _) :- GetU64(s2);
    Some((a, b, c))
  }

  lemma FooterRoundTrip(a: nat, b: nat, c: nat, rest: Bytes)
    requires a < TWO64 && b < TWO64 && c < TWO64
    ensures GetFooter(FooterWire(a, b, c) + rest) == Some((a, b, c))
  {
    hide LittleEndian, FromLittleEndian;
    var x, y, z := LittleEndian(a, 8), LittleEndian(b, 8), LittleEndian(c, 8);
    Assoc(x, y + z, rest);
    Assoc(y, z, rest);
    U64RoundTrip(a, y + (z + rest));
    U64RoundTrip(b, z + rest);
    U64RoundTrip(c, rest);
  }
}
