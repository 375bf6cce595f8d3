/**
 Heap order over (last seen, key) ranks, and what one sift step of
 container/heap does to it.
 */
module RankHeap {
  import opened Order

  datatype Rank = Rank(seen: nat, key: string)

  predicate Before(a: Rank, b: Rank)
  {
    a.seen < b.seen || (a.seen == b.seen && StrLess(a.key, b.key))
  }

  /** `a` does not come after `b`. */
  predicate Le(a: Rank, b: Rank)
  {
    !Before(b, a)
  }

  lemma LeTotal(a: Rank, b: Rank)
    ensures Le(a, b) || Le(b, a)
    ensures Le(a, b) && Le(b, a) ==> a == b
    ensures !Le(a, b) ==> Before(b, a)
  {
    hide StrLess;
    StrTotal(a.key, b.key);
    if StrLess(a.key, b.key) {
      StrAsymmetric(a.key, b.key);
    } else if StrLess(b.key, a.key) {
      StrAsymmetric(b.key, a.key);
    }
  }

  lemma LeTransitive(a: Rank, b: Rank, c: Rank)
    requires Le(a, b) && Le(b, c)
    ensures Le(a, c)
  {
    hide StrLess;
    if Before(c, a) {
      LeTotal(a, b);
      LeTotal(b, c);
      if a != b && b != c {
        assert Before(a, b) && Before(b, c);
        if a.seen == b.seen == c.seen {
          StrTransitive(a.key, b.key, c.key);
          StrAsymmetric(a.key, c.key);
        }
      }
    }
  }

  function Up(k: nat): (p: nat)
    requires k > 0
    ensures p < k
  {
    (k - 1) / 2
  }

  predicate Edge(r: seq<Rank>, k: nat)
    requires 0 < k < |r|
  {
    Le(r[Up(k)], r[k])
  }

  predicate IsHeap(r: seq<Rank>)
  {
    forall k :: 0 < k < |r| ==> Edge(r, k)
  }

  function Swap(r: seq<Rank>, i: nat, j: nat): (s: seq<Rank>)
    requires i < |r| && j < |r|
    ensures |s| == |r|
  {
    r[i := r[j]][j := r[i]]
  }

  /** Only the edges at position `i` may be broken. */
  predicate BrokenAt(r: seq<Rank>, i: nat)
  {
    && (forall k :: 0 < k < |r| && k != i && Up(k) != i ==> Edge(r, k))
    && (forall k :: 0 < i < k < |r| && Up(k) == i ==> Le(r[Up(i)], r[k]))
  }

  /** Only the edge above `j` may be broken. */
  predicate BrokenAbove(r: seq<Rank>, j: nat)
  {
    BrokenAt(r, j) && forall k :: 0 < k < |r| && Up(k) == j ==> Edge(r, k)
  }

  /** Only the edges below `i` may be broken. */
  predicate BrokenBelow(r: seq<Rank>, i: nat)
  {
    BrokenAt(r, i) && (0 < i < |r| ==> Edge(r, i))
  }

  lemma UpStep(r: seq<Rank>, j: nat)
    requires 0 < j < |r| && BrokenAbove(r, j) && !Edge(r, j)
    ensures BrokenAbove(Swap(r, Up(j), j), Up(j))
  {
    hide Le;
    var p := Up(j);
    var s := Swap(r, p, j);
    LeTotal(r[p], r[j]);
    forall k | 0 < k < |r| && k != p
      ensures Edge(s, k)
    {
      if Up(k) == p && k != j {
        assert Edge(r, k);
        LeTransitive(r[j], r[p], r[k]);
      } else if Up(k) == j {
        assert Le(r[Up(j)], r[k]);
      } else if k != j {
        assert Edge(r, k);
      }
    }
    forall k | 0 < p < k < |r| && Up(k) == p
      ensures Le(s[Up(p)], s[k])
    {
      assert Edge(r, p);
      if k != j {
        assert Edge(r, k);
        LeTransitive(r[Up(p)], r[p], r[k]);
      }
    }
  }

  /** The child sifting down compares with. */
  predicate SmallerChild(r: seq<Rank>, i: nat, c: nat)
  {
    && 0 < c < |r| && Up(c) == i
    && forall k :: 0 < k < |r| && Up(k) == i ==> Le(r[c], r[k])
  }

  lemma ChooseChild(r: seq<Rank>, i: nat, c: nat)
    requires 2 * i + 1 < |r|
    requires c == if 2 * i + 2 < |r| && Before(r[2 * i + 2], r[2 * i + 1]) then 2 * i + 2 else 2 * i + 1
    ensures SmallerChild(r, i, c)
  {
    forall k | 0 < k < |r| && Up(k) == i
      ensures Le(r[c], r[k])
    {
      assert k == 2 * i + 1 || k == 2 * i + 2;
      LeTotal(r[c], r[k]);
    }
  }

  lemma DownStep(r: seq<Rank>, i: nat, c: nat)
    requires i < |r| && BrokenAt(r, i) && SmallerChild(r, i, c) && !Le(r[i], r[c])
    ensures BrokenBelow(Swap(r, i, c), c)
  {
    hide Le;
    var s := Swap(r, i, c);
    LeTotal(r[i], r[c]);
    forall k | 0 < k < |r| && Up(k) != c
      ensures Edge(s, k)
    {
      if Up(k) == i {
        assert Le(r[c], r[k]);
      } else if k == i {
        assert Le(r[Up(i)], r[c]);
      } else {
        assert Edge(r, k);
      }
    }
    forall k | 0 < c < k < |r| && Up(k) == c
      ensures Le(s[Up(c)], s[k])
    {
      assert Edge(r, k);
    }
  }

  lemma DownDone(r: seq<Rank>, i: nat, c: nat)
    requires i < |r| && SmallerChild(r, i, c) && Le(r[i], r[c])
    ensures forall k :: 0 < k < |r| && Up(k) == i ==> Edge(r, k)
  {
    hide Le;
    forall k | 0 < k < |r| && Up(k) == i
      ensures Edge(r, k)
    {
      LeTransitive(r[i], r[c], r[k]);
    }
  }

  lemma {:induction false} RootLeast(r: seq<Rank>, k: nat)
    requires IsHeap(r) && k < |r|
    ensures Le(r[0], r[k])
    decreases k
  {
    hide Before;
    if k > 0 {
      RootLeast(r, Up(k));
      assert Edge(r, k);
      LeTransitive(r[0], r[Up(k)], r[k]);
    } else {
      LeTotal(r[0], r[0]);
    }
  }

  lemma BelowDone(r: seq<Rank>, i: nat)
    requires BrokenBelow(r, i) && forall k :: 0 < k < |r| && Up(k) == i ==> Edge(r, k)
    ensures IsHeap(r)
  {
    hide Edge;
  }

  lemma AboveDone(r: seq<Rank>, j: nat)
    requires BrokenAbove(r, j) && (0 < j < |r| ==> Edge(r, j))
    ensures IsHeap(r)
  {
    hide Edge;
  }

  /** Changing one rank breaks the order at its own position only. */
  lemma UpdateBreaks(r: seq<Rank>, i: nat, x: Rank)
    requires IsHeap(r) && i < |r|
    ensures BrokenAt(r[i := x], i)
  {
    hide Le;
    var s := r[i := x];
    forall k | 0 < k < |s| && k != i && Up(k) != i
      ensures Edge(s, k)
    {
      assert Edge(r, k);
    }
    forall k | 0 < i < k < |s| && Up(k) == i
      ensures Le(s[Up(i)], s[k])
    {
      assert Edge(r, i) && Edge(r, k);
      LeTransitive(r[Up(i)], r[i], r[k]);
    }
  }

  lemma AppendBreaks(r: seq<Rank>, x: Rank)
    requires IsHeap(r)
    ensures BrokenAbove(r + [x], |r|)
  {
    hide Le;
    var s := r + [x];
    forall k | 0 < k < |s| && k != |r|
      ensures Edge(s, k)
    {
      assert Edge(r, k);
    }
  }

  /** Taking the last item for the root breaks the order at the root only. */
  lemma ReplaceRootBreaks(r: seq<Rank>)
    requires IsHeap(r) && r != []
    ensures BrokenAt(Swap(r, 0, |r| - 1)[..|r| - 1], 0)
  {
    hide Le;
    var s := Swap(r, 0, |r| - 1)[..|r| - 1];
    forall k | 0 < k < |s| && Up(k) != 0
      ensures Edge(s, k)
    {
      assert Edge(r, k);
    }
  }

  lemma SwapPrefix(r: seq<Rank>, i: nat, j: nat, n: nat)
    requires i < n && j < n <= |r|
    ensures Swap(r, i, j)[..n] == Swap(r[..n], i, j)
  {
  }
}
