/**
 The binary min-heap of Go's container/heap, on sequences of items keyed by a
 timestamp.  The reorder engine uses it for pending points, the drain queue and
 the eviction queue.
 */
module MinHeap {
  datatype Item<T> = Item(t: int, v: T)

  function Parent(k: nat): (p: nat)
    requires k > 0
    ensures p < k
  {
    (k - 1) / 2
  }

  predicate Edge<T>(h: seq<Item<T>>, k: nat)
    requires 0 < k < |h|
  {
    h[Parent(k)].t <= h[k].t
  }

  predicate IsHeap<T>(h: seq<Item<T>>)
  {
    forall k :: 0 < k < |h| ==> Edge(h, k)
  }

  function Swap<T>(h: seq<Item<T>>, i: nat, j: nat): (r: seq<Item<T>>)
    requires i < |h| && j < |h|
    ensures |r| == |h| && multiset(r) == multiset(h)
  {
    h[i := h[j]][j := h[i]]
  }

  function Up<T>(h: seq<Item<T>>, j: nat): (r: seq<Item<T>>)
    requires j < |h|
    ensures |r| == |h| && multiset(r) == multiset(h)
    decreases j
  {
    if j == 0 || Edge(h, j) then h else Up(Swap(h, Parent(j), j), Parent(j))
  }

  /** The child `down` compares with: the right one only if strictly smaller. */
  function SmallerChild<T>(h: seq<Item<T>>, i: nat): (c: nat)
    requires 2 * i + 1 < |h|
    ensures i < c < |h| && Parent(c) == i
    ensures forall k :: 0 < k < |h| && Parent(k) == i ==> h[c].t <= h[k].t
  {
    if 2 * i + 2 < |h| && h[2 * i + 2].t < h[2 * i + 1].t then 2 * i + 2 else 2 * i + 1
  }

  function Down<T>(h: seq<Item<T>>, i: nat): (r: seq<Item<T>>)
    requires i < |h|
    ensures |r| == |h| && multiset(r) == multiset(h)
    decreases |h| - i
  {
    if 2 * i + 1 >= |h| then h
    else
      var c := SmallerChild(h, i);
      if h[i].t <= h[c].t then h else Down(Swap(h, i, c), c)
  }

  function Push<T>(h: seq<Item<T>>, x: Item<T>): (r: seq<Item<T>>)
    ensures |r| == |h| + 1
    ensures multiset(r) == multiset(h) + multiset{x}
  {
    Up(h + [x], |h|)
  }

  /** The heap without its root: the last item takes the root's place and sinks. */
  function Pop<T>(h: seq<Item<T>>): (r: seq<Item<T>>)
    requires h != []
    ensures |r| == |h| - 1
    ensures multiset(h) == multiset(r) + multiset{h[0]}
  {
    var n := |h| - 1;
    if n == 0 then
      assert h == [h[0]];
      []
    else
      assert h == [h[0]] + h[1..n] + [h[n]];
      var m := [h[n]] + h[1..n];
      assert multiset(h) == multiset(m) + multiset{h[0]};
      Down(m, 0)
  }

  /** Heap order except between `j` and its parent. */
  predicate BrokenAbove<T>(h: seq<Item<T>>, j: nat)
  {
    && (forall k :: 0 < k < |h| && k != j ==> Edge(h, k))
    && (forall k :: 0 < j < k < |h| && Parent(k) == j ==> h[Parent(j)].t <= h[k].t)
  }

  /** Heap order except between `i` and its children. */
  predicate BrokenBelow<T>(h: seq<Item<T>>, i: nat)
  {
    && (forall k :: 0 < k < |h| && Parent(k) != i ==> Edge(h, k))
    && (forall k :: 0 < i < k < |h| && Parent(k) == i ==> h[Parent(i)].t <= h[k].t)
  }

  lemma UpStep<T>(h: seq<Item<T>>, j: nat)
    requires 0 < j < |h| && BrokenAbove(h, j) && !Edge(h, j)
    ensures BrokenAbove(Swap(h, Parent(j), j), Parent(j))
  {
    var p := Parent(j);
    var r := Swap(h, p, j);
    forall k | 0 < k < |h| && k != p
      ensures Edge(r, k)
    {
      assert k != j ==> Edge(h, k);
    }
    forall k | 0 < p < k < |h| && Parent(k) == p
      ensures r[Parent(p)].t <= r[k].t
    {
      assert Edge(h, p);
      assert k != j ==> Edge(h, k);
    }
  }

  lemma {:induction false} UpHeap<T>(h: seq<Item<T>>, j: nat)
    requires j < |h| && BrokenAbove(h, j)
    ensures IsHeap(Up(h, j))
    decreases j
  {
    if j != 0 && !Edge(h, j) {
      UpStep(h, j);
      UpHeap(Swap(h, Parent(j), j), Parent(j));
    }
  }

  lemma DownStep<T>(h: seq<Item<T>>, i: nat)
    requires 2 * i + 1 < |h| && BrokenBelow(h, i) && h[SmallerChild(h, i)].t < h[i].t
    ensures BrokenBelow(Swap(h, i, SmallerChild(h, i)), SmallerChild(h, i))
  {
    var c := SmallerChild(h, i);
    var r := Swap(h, i, c);
    forall k | 0 < k < |h| && Parent(k) != c
      ensures Edge(r, k)
    {
      assert Parent(k) != i ==> Edge(h, k);
    }
    forall k | 0 < c < k < |h| && Parent(k) == c
      ensures r[Parent(c)].t <= r[k].t
    {
      assert Edge(h, k);
    }
  }

  lemma {:induction false} DownHeap<T>(h: seq<Item<T>>, i: nat)
    requires i < |h| && BrokenBelow(h, i)
    ensures IsHeap(Down(h, i))
    decreases |h| - i
  {
    if 2 * i + 1 < |h| {
      var c := SmallerChild(h, i);
      if h[c].t < h[i].t {
        DownStep(h, i);
        DownHeap(Swap(h, i, c), c);
      } else {
        forall k | 0 < k < |h|
          ensures Edge(h, k)
        {
          assert Parent(k) == i ==> h[c].t <= h[k].t;
        }
      }
    }
  }

  lemma {:induction false} RootLeast<T>(h: seq<Item<T>>, j: nat)
    requires IsHeap(h) && j < |h|
    ensures h[0].t <= h[j].t
    decreases j
  {
    if j > 0 {
      assert Edge(h, j);
      RootLeast(h, Parent(j));
    }
  }

  /** The root is no later than anything in the heap. */
  lemma RootLeastAll<T>(h: seq<Item<T>>)
    requires IsHeap(h) && h != []
    ensures forall x :: x in multiset(h) ==> h[0].t <= x.t
  {
    forall x | x in multiset(h)
      ensures h[0].t <= x.t
    {
      var j :| 0 <= j < |h| && h[j] == x;
      RootLeast(h, j);
    }
  }

  lemma PushHeap<T>(h: seq<Item<T>>, x: Item<T>)
    requires IsHeap(h)
    ensures IsHeap(Push(h, x))
  {
    var g := h + [x];
    forall k | 0 < k < |g| && k != |h|
      ensures Edge(g, k)
    {
      assert Edge(h, k);
    }
    UpHeap(g, |h|);
  }

  lemma PopHeap<T>(h: seq<Item<T>>)
    requires IsHeap(h) && h != []
    ensures IsHeap(Pop(h))
  {
    var n := |h| - 1;
    if n > 0 {
      var m := [h[n]] + h[1..n];
      forall k | 0 < k < |m| && Parent(k) != 0
        ensures Edge(m, k)
      {
        assert Edge(h, k);
      }
      DownHeap(m, 0);
    }
  }

  // ---------------------------------------------------------------------
  // Counting the ready items
  // ---------------------------------------------------------------------

  function Ready<T>(h: seq<Item<T>>, w: int): (n: nat)
  {
    if h == [] then 0 else (if h[0].t <= w then 1 else 0) + Ready(h[1..], w)
  }

  lemma {:induction false} ReadyRemove<T>(h: seq<Item<T>>, k: nat, w: int)
    requires k < |h|
    ensures Ready(h, w) == Ready(h[..k] + h[k + 1..], w) + (if h[k].t <= w then 1 else 0)
    decreases k
  {
    if k == 0 {
      assert h[..0] + h[1..] == h[1..];
    } else {
      ReadyRemove(h[1..], k - 1, w);
      assert (h[..k] + h[k + 1..])[1..] == h[1..][..k - 1] + h[1..][k..];
    }
  }

  lemma RemoveFrom<T>(b: seq<Item<T>>, x: Item<T>) returns (k: nat)
    requires x in multiset(b)
    ensures k < |b| && b[k] == x
    ensures multiset(b[..k] + b[k + 1..]) == multiset(b) - multiset{x}
  {
    k :| 0 <= k < |b| && b[k] == x;
    assert b == b[..k] + [b[k]] + b[k + 1..];
  }

  lemma {:induction false} ReadyPermutation<T>(a: seq<Item<T>>, b: seq<Item<T>>, w: int)
    requires multiset(a) == multiset(b)
    ensures Ready(a, w) == Ready(b, w)
    decreases |a|
  {
    if a == [] {
      assert |multiset(b)| == 0;
    } else {
      assert a == [a[0]] + a[1..];
      var k := RemoveFrom(b, a[0]);
      assert multiset(a[1..]) == multiset(a) - multiset{a[0]};
      ReadyPermutation(a[1..], b[..k] + b[k + 1..], w);
      ReadyRemove(b, k, w);
    }
  }

  /** Popping a ready root leaves one ready item less. */
  lemma ReadyPop<T>(h: seq<Item<T>>, w: int)
    requires h != [] && h[0].t <= w
    ensures Ready(Pop(h), w) == Ready(h, w) - 1
  {
    var c := [h[0]] + Pop(h);
    assert c[1..] == Pop(h);
    ReadyPermutation(h, c, w);
  }

  lemma ReadyPush<T>(h: seq<Item<T>>, x: Item<T>, w: int)
    requires x.t > w
    ensures Ready(Push(h, x), w) == Ready(h, w)
  {
    var c := [x] + h;
    assert c[1..] == h;
    ReadyPermutation(Push(h, x), c, w);
  }
}
