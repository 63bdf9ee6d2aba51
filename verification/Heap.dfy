/** The 4-ary heap with cached keys behind timers and periodics: `upheap`, `downheap`,
    `adjustheap`, `reheap`.  Slots `HEAP0 .. HEAP0 + n` are in use; every watcher's `active`
    is the slot that holds it. */
module Heap {
  import opened Watchers

  const DHEAP := 4
  const HEAP0 := 3

  /** A heap element: a key cached from the watcher, and the watcher. */
  datatype Anhe = Anhe(at: real, w: Watcher)

  /** C's integer division, which truncates toward zero. */
  function TruncDiv(a: int, b: int): int
    requires b > 0
  {
    if a >= 0 then a / b else -(-a / b)
  }

  function FirstChild(k: nat): nat
    requires k >= HEAP0
  {
    DHEAP * (k - HEAP0) + HEAP0 + 1
  }

  /** The parent slot; the root is its own parent because -1 / 4 truncates to 0. */
  function Parent(k: nat): (p: nat)
    requires k >= HEAP0
    ensures p == k <==> k == HEAP0
    ensures k > HEAP0 ==> HEAP0 <= p < k && FirstChild(p) <= k < FirstChild(p) + DHEAP
  {
    TruncDiv(k - HEAP0 - 1, DHEAP) + HEAP0
  }

  lemma ChildrenOf(p: nat, k: nat)
    requires p >= HEAP0 && k > HEAP0
    ensures Parent(k) == p <==> FirstChild(p) <= k < FirstChild(p) + DHEAP
  {}

  function Swap(h: seq<Anhe>, i: nat, j: nat): (r: seq<Anhe>)
    requires i < |h| && j < |h|
    ensures |r| == |h|
  {
    h[i := h[j]][j := h[i]]
  }

  // ---------- what the heap functions compute ----------

  /** Moves the element in slot `k` toward the root, past every larger ancestor. */
  function Up(h: seq<Anhe>, k: nat): (r: seq<Anhe>)
    requires HEAP0 <= k < |h|
    ensures |r| == |h|
    decreases k
  {
    var p := Parent(k);
    if p == k || h[p].at <= h[k].at then h else Up(Swap(h, k, p), p)
  }

  /** The first slot in `lo .. hi` with the least key. */
  function MinSlot(h: seq<Anhe>, lo: nat, hi: nat): (m: nat)
    requires lo < hi <= |h|
    ensures lo <= m < hi && forall i :: lo <= i < hi ==> h[m].at <= h[i].at
    decreases hi
  {
    if hi == lo + 1 then lo
    else
      var m := MinSlot(h, lo, hi - 1);
      if h[hi - 1].at < h[m].at then hi - 1 else m
  }

  function Min(a: nat, b: nat): nat { if a < b then a else b }

  function LeastChild(h: seq<Anhe>, n: nat, k: nat): (m: nat)
    requires HEAP0 <= k && FirstChild(k) < HEAP0 + n <= |h|
    ensures k < m < HEAP0 + n && Parent(m) == k
    ensures forall i :: HEAP0 < i < HEAP0 + n && Parent(i) == k ==> h[m].at <= h[i].at
  {
    var m := MinSlot(h, FirstChild(k), Min(FirstChild(k) + DHEAP, HEAP0 + n));
    ChildrenOf(k, m);
    m
  }

  /** Moves the element in slot `k` away from the root, past every smaller least child. */
  function Down(h: seq<Anhe>, n: nat, k: nat): (r: seq<Anhe>)
    requires HEAP0 <= k < HEAP0 + n <= |h|
    ensures |r| == |h|
    decreases HEAP0 + n - k
  {
    if FirstChild(k) >= HEAP0 + n then h
    else
      var m := LeastChild(h, n, k);
      if h[k].at <= h[m].at then h else Down(Swap(h, k, m), n, m)
  }

  function Adjust(h: seq<Anhe>, n: nat, k: nat): (r: seq<Anhe>)
    requires HEAP0 <= k < HEAP0 + n <= |h|
    ensures |r| == |h|
  {
    if k > HEAP0 && h[k].at <= h[Parent(k)].at then Up(h, k) else Down(h, n, k)
  }

  /** `upheap` on the growing prefixes of length 1 .. i. */
  function Reheaped(h: seq<Anhe>, i: nat): (r: seq<Anhe>)
    requires HEAP0 + i <= |h|
    ensures |r| == |h|
  {
    if i == 0 then h else Up(Reheaped(h, i - 1), i - 1 + HEAP0)
  }

  // ---------- the heap property ----------

  ghost predicate EdgeOk(h: seq<Anhe>, k: nat)
    requires HEAP0 <= k < |h|
  {
    h[Parent(k)].at <= h[k].at
  }

  ghost predicate IsHeap(h: seq<Anhe>, n: nat) {
    HEAP0 + n <= |h| && forall k :: HEAP0 <= k < HEAP0 + n ==> EdgeOk(h, k)
  }

  /** A heap but for the edge from slot `k` to its parent, or the edges from `k` to its
      children; going around `k` the order is kept. */
  ghost predicate HeapAbove(h: seq<Anhe>, n: nat, k: nat)
    requires HEAP0 <= k < HEAP0 + n <= |h|
  {
    && (forall i :: HEAP0 <= i < HEAP0 + n && i != k ==> EdgeOk(h, i))
    && (forall i :: HEAP0 < i < HEAP0 + n && Parent(i) == k ==> h[Parent(k)].at <= h[i].at)
  }

  ghost predicate HeapBelow(h: seq<Anhe>, n: nat, k: nat)
    requires HEAP0 <= k < HEAP0 + n <= |h|
  {
    && (forall i :: HEAP0 <= i < HEAP0 + n && Parent(i) != k ==> EdgeOk(h, i))
    && EdgeOk(h, k)
    && (k > HEAP0 ==> forall i :: HEAP0 < i < HEAP0 + n && Parent(i) == k ==> h[Parent(k)].at <= h[i].at)
  }

  lemma {:induction false} UpRestores(h: seq<Anhe>, n: nat, k: nat)
    requires HEAP0 <= k < HEAP0 + n <= |h| && HeapAbove(h, n, k)
    ensures IsHeap(Up(h, k), n)
    decreases k
  {
    var p := Parent(k);
    if p != k && h[k].at < h[p].at {
      var g := Swap(h, k, p);
      forall i | HEAP0 <= i < HEAP0 + n && i != p ensures EdgeOk(g, i) {
        assert i != k ==> EdgeOk(h, i);
      }
      forall i | HEAP0 < i < HEAP0 + n && Parent(i) == p ensures g[Parent(p)].at <= g[i].at {
        assert EdgeOk(h, p);
        assert i != k ==> EdgeOk(h, i);
      }
      UpRestores(g, n, p);
    }
  }

  lemma DownStep(h: seq<Anhe>, n: nat, k: nat, m: nat)
    requires HEAP0 <= k < HEAP0 + n <= |h| && HeapBelow(h, n, k)
    requires FirstChild(k) < HEAP0 + n && m == LeastChild(h, n, k) && h[m].at < h[k].at
    ensures HeapBelow(Swap(h, k, m), n, m)
  {
    var g := Swap(h, k, m);
    forall i | HEAP0 <= i < HEAP0 + n && Parent(i) != m ensures EdgeOk(g, i) {
      assert Parent(i) != k ==> EdgeOk(h, i);
    }
    forall i | HEAP0 < i < HEAP0 + n && Parent(i) == m ensures g[Parent(m)].at <= g[i].at {
      assert EdgeOk(h, i);
    }
  }

  lemma {:induction false} DownRestores(h: seq<Anhe>, n: nat, k: nat)
    requires HEAP0 <= k < HEAP0 + n <= |h| && HeapBelow(h, n, k)
    ensures IsHeap(Down(h, n, k), n)
    decreases HEAP0 + n - k
  {
    if FirstChild(k) < HEAP0 + n {
      var m := LeastChild(h, n, k);
      if h[m].at < h[k].at {
        DownStep(h, n, k, m);
        DownRestores(Swap(h, k, m), n, m);
      }
    }
  }

  /** `adjustheap` repairs one slot whose key was changed arbitrarily. */
  lemma AdjustRestores(h: seq<Anhe>, n: nat, k: nat, was: Anhe)
    requires HEAP0 <= k < HEAP0 + n <= |h| && IsHeap(h[k := was], n)
    ensures IsHeap(Adjust(h, n, k), n)
  {
    var g := h[k := was];
    forall i | HEAP0 <= i < HEAP0 + n && i != k && Parent(i) != k ensures EdgeOk(h, i) {
      assert EdgeOk(g, i);
    }
    forall i | HEAP0 < i < HEAP0 + n && Parent(i) == k ensures k > HEAP0 ==> h[Parent(k)].at <= h[i].at {
      assert EdgeOk(g, i) && EdgeOk(g, k);
    }
    if k > HEAP0 && h[k].at <= h[Parent(k)].at {
      UpRestores(h, n, k);
    } else {
      DownRestores(h, n, k);
    }
  }

  lemma {:induction false} RootIsLeast(h: seq<Anhe>, n: nat, k: nat)
    requires IsHeap(h, n) && HEAP0 <= k < HEAP0 + n
    ensures h[HEAP0].at <= h[k].at
    decreases k
  {
    if k > HEAP0 {
      assert EdgeOk(h, k);
      RootIsLeast(h, n, Parent(k));
    }
  }

  // ---------- the elements stay the same ----------

  ghost function Elements(h: seq<Anhe>, n: nat): multiset<Anhe>
    requires HEAP0 + n <= |h|
  {
    multiset(h[HEAP0..HEAP0 + n])
  }

  lemma SwapSlice(h: seq<Anhe>, n: nat, i: nat, j: nat)
    requires HEAP0 <= i < HEAP0 + n <= |h| && HEAP0 <= j < HEAP0 + n
    ensures Swap(h, i, j)[HEAP0..HEAP0 + n] == Swap(h[HEAP0..HEAP0 + n], i - HEAP0, j - HEAP0)
  {}

  lemma SwapMultiset(s: seq<Anhe>, i: nat, j: nat)
    requires i < |s| && j < |s|
    ensures multiset(Swap(s, i, j)) == multiset(s)
  {}

  lemma SwapElements(h: seq<Anhe>, n: nat, i: nat, j: nat)
    requires HEAP0 <= i < HEAP0 + n <= |h| && HEAP0 <= j < HEAP0 + n
    ensures Elements(Swap(h, i, j), n) == Elements(h, n)
  {
    SwapSlice(h, n, i, j);
    SwapMultiset(h[HEAP0..HEAP0 + n], i - HEAP0, j - HEAP0);
  }

  lemma {:induction false} UpElements(h: seq<Anhe>, n: nat, k: nat)
    requires HEAP0 <= k < HEAP0 + n <= |h|
    ensures Elements(Up(h, k), n) == Elements(h, n)
    ensures forall i :: 0 <= i < HEAP0 || k < i < |h| ==> Up(h, k)[i] == h[i]
    decreases k
  {
    var p := Parent(k);
    if p != k && h[k].at < h[p].at {
      SwapElements(h, n, k, p);
      UpElements(Swap(h, k, p), n, p);
    }
  }

  lemma {:induction false} DownElements(h: seq<Anhe>, n: nat, k: nat)
    requires HEAP0 <= k < HEAP0 + n <= |h|
    ensures Elements(Down(h, n, k), n) == Elements(h, n)
    ensures forall i :: 0 <= i < HEAP0 || HEAP0 + n <= i < |h| ==> Down(h, n, k)[i] == h[i]
    decreases HEAP0 + n - k
  {
    if FirstChild(k) < HEAP0 + n {
      var m := LeastChild(h, n, k);
      if h[m].at < h[k].at {
        SwapElements(h, n, k, m);
        DownElements(Swap(h, k, m), n, m);
      }
    }
  }

  lemma AdjustElements(h: seq<Anhe>, n: nat, k: nat)
    requires HEAP0 <= k < HEAP0 + n <= |h|
    ensures Elements(Adjust(h, n, k), n) == Elements(h, n)
    ensures forall i :: 0 <= i < HEAP0 || HEAP0 + n <= i < |h| ==> Adjust(h, n, k)[i] == h[i]
  {
    if k > HEAP0 && h[k].at <= h[Parent(k)].at {
      UpElements(h, n, k);
    } else {
      DownElements(h, n, k);
    }
  }

  /** From any order of the keys, `reheap` makes a heap of the same elements. */
  lemma {:induction false} ReheapedIsHeap(h: seq<Anhe>, n: nat, i: nat)
    requires i <= n && HEAP0 + n <= |h|
    ensures IsHeap(Reheaped(h, i), i) && Elements(Reheaped(h, i), n) == Elements(h, n)
    ensures forall j :: 0 <= j < HEAP0 || HEAP0 + i <= j < |h| ==> Reheaped(h, i)[j] == h[j]
  {
    if i > 0 {
      ReheapedIsHeap(h, n, i - 1);
      var g := Reheaped(h, i - 1);
      var k := i - 1 + HEAP0;
      assert forall j :: HEAP0 <= j < k ==> EdgeOk(g, j);
      UpRestores(g, i, k);
      UpElements(g, n, k);
    }
  }

  // ---------- in place, with back-pointers ----------

  ghost function WatchersOf(h: seq<Anhe>, n: nat): set<Watcher>
    requires HEAP0 + n <= |h|
  {
    set i | HEAP0 <= i < HEAP0 + n :: h[i].w
  }

  lemma SameWatchers(h: seq<Anhe>, g: seq<Anhe>, n: nat)
    requires HEAP0 + n <= |h| && HEAP0 + n <= |g| && Elements(h, n) == Elements(g, n)
    ensures WatchersOf(h, n) == WatchersOf(g, n)
  {
    forall i | HEAP0 <= i < HEAP0 + n ensures h[i].w in WatchersOf(g, n) && g[i].w in WatchersOf(h, n) {
      assert h[HEAP0..HEAP0 + n][i - HEAP0] in Elements(g, n);
      assert h[i] in g[HEAP0..HEAP0 + n];
      assert g[HEAP0..HEAP0 + n][i - HEAP0] in Elements(h, n);
      assert g[i] in h[HEAP0..HEAP0 + n];
    }
  }

  /** `active` of every watcher is the slot that holds it. */
  ghost predicate Linked(h: seq<Anhe>, n: nat)
    requires HEAP0 + n <= |h|
    reads WatchersOf(h, n)`active
  {
    forall i :: HEAP0 <= i < HEAP0 + n ==> h[i].w.active == i
  }

  /** The same but for the watcher in slot `k`, which occurs only there. */
  ghost predicate LinkedBut(h: seq<Anhe>, n: nat, k: nat)
    requires HEAP0 <= k < HEAP0 + n <= |h|
    reads WatchersOf(h, n)`active
  {
    forall i :: HEAP0 <= i < HEAP0 + n && i != k ==> h[i].w.active == i && h[i].w != h[k].w
  }

  /** Moves the element of slot `m` into the hole at `k`; `h` is the heap with the element
      `he` that is held back put into the hole. */
  method FillHole(heap: array<Anhe>, k: nat, m: nat, ghost n: nat, ghost he: Anhe, ghost h: seq<Anhe>)
    requires HEAP0 <= k < HEAP0 + n <= heap.Length && HEAP0 <= m < HEAP0 + n && m != k
    requires h == heap[..][k := he] && LinkedBut(h, n, k)
    modifies heap, heap[m].w`active
    ensures heap[..][m := he] == Swap(h, k, m) && LinkedBut(Swap(h, k, m), n, m)
    ensures WatchersOf(Swap(h, k, m), n) <= WatchersOf(h, n)
  {
    heap[k] := heap[m];
    heap[k].w.active := k;
    assert heap[..][m := he] == Swap(h, k, m);
  }

  /** `upheap`: the element is held back while larger ancestors move down one step each. */
  method UpHeap(heap: array<Anhe>, k0: nat, ghost n: nat)
    requires HEAP0 <= k0 < HEAP0 + n <= heap.Length && LinkedBut(heap[..], n, k0)
    modifies heap, WatchersOf(heap[..], n)`active
    ensures heap[..] == Up(old(heap[..]), k0)
    ensures Linked(heap[..], n)
  {
    var k := k0;
    var he := heap[k];
    ghost var h := heap[..];
    while true
      invariant HEAP0 <= k <= k0 && h == heap[..][k := he] && |h| == heap.Length
      invariant Up(h, k) == Up(old(heap[..]), k0)
      invariant WatchersOf(h, n) <= old(WatchersOf(heap[..], n)) && LinkedBut(h, n, k)
      decreases k
    {
      var p := Parent(k);
      if p == k || heap[p].at <= he.at {
        break;
      }
      FillHole(heap, k, p, n, he, h);
      h := Swap(h, k, p);
      k := p;
    }
    heap[k] := he;
    he.w.active := k;
    assert heap[..] == h;
  }

  lemma {:induction false} MinSlotSame(h: seq<Anhe>, g: seq<Anhe>, lo: nat, hi: nat)
    requires lo < hi <= |h| && hi <= |g| && forall i :: lo <= i < hi ==> h[i] == g[i]
    ensures MinSlot(h, lo, hi) == MinSlot(g, lo, hi)
  {
    if hi > lo + 1 {
      MinSlotSame(h, g, lo, hi - 1);
    }
  }

  lemma LeastChildIgnoresParent(g: seq<Anhe>, n: nat, k: nat, he: Anhe)
    requires HEAP0 <= k && FirstChild(k) < HEAP0 + n <= |g|
    ensures LeastChild(g[k := he], n, k) == LeastChild(g, n, k)
  {
    MinSlotSame(g, g[k := he], FirstChild(k), Min(FirstChild(k) + DHEAP, HEAP0 + n));
  }

  lemma OneSlot(h: seq<Anhe>, lo: nat)
    requires lo < |h|
    ensures MinSlot(h, lo, lo + 1) == lo
  {}

  /** One comparison of the search below: `minpos` is the least slot of `lo .. pos`. */
  method Compare(heap: array<Anhe>, ghost lo: nat, pos: nat, minpos: nat, minat: real) returns (m: nat, at: real)
    requires lo < pos < heap.Length && minpos == MinSlot(heap[..], lo, pos) && minat == heap[minpos].at
    ensures m == MinSlot(heap[..], lo, pos + 1) && at == heap[m].at
  {
    m, at := minpos, minat;
    if heap[pos].at < minat {
      m, at := pos, heap[pos].at;
    }
  }

  /** The search from the first child on, with its fast path (four children) and slow path. */
  method FindLeast(heap: array<Anhe>, pos: nat, e: nat) returns (minpos: nat, minat: real)
    requires pos < e <= heap.Length
    ensures minpos == MinSlot(heap[..], pos, Min(pos + DHEAP, e)) && minat == heap[minpos].at
  {
    hide MinSlot;
    minpos, minat := pos, heap[pos].at;
    OneSlot(heap[..], pos);
    if pos + DHEAP - 1 < e {
      minpos, minat := Compare(heap, pos, pos + 1, minpos, minat);
      minpos, minat := Compare(heap, pos, pos + 2, minpos, minat);
      minpos, minat := Compare(heap, pos, pos + 3, minpos, minat);
    } else {
      if pos + 1 < e {
        minpos, minat := Compare(heap, pos, pos + 1, minpos, minat);
      }
      if pos + 2 < e {
        minpos, minat := Compare(heap, pos, pos + 2, minpos, minat);
      }
      // the source's last test, pos + 3 < e, is never true on this path
    }
  }

  method FindLeastChild(heap: array<Anhe>, n: nat, k: nat, ghost he: Anhe) returns (minpos: nat, minat: real)
    requires HEAP0 <= k && FirstChild(k) < HEAP0 + n <= heap.Length
    ensures k < minpos < HEAP0 + n && minat == heap[minpos].at
    ensures minpos == LeastChild(heap[..][k := he], n, k)
  {
    hide MinSlot;
    LeastChildIgnoresParent(heap[..], n, k, he);
    minpos, minat := FindLeast(heap, FirstChild(k), HEAP0 + n);
  }

  /** `downheap` */
  method DownHeap(heap: array<Anhe>, n: nat, k0: nat)
    requires HEAP0 <= k0 < HEAP0 + n <= heap.Length && LinkedBut(heap[..], n, k0)
    modifies heap, WatchersOf(heap[..], n)`active
    ensures heap[..] == Down(old(heap[..]), n, k0)
    ensures Linked(heap[..], n)
  {
    hide LeastChild;
    var k := k0;
    var he := heap[k];
    ghost var h := heap[..];
    while FirstChild(k) < HEAP0 + n
      invariant k0 <= k < HEAP0 + n && h == heap[..][k := he] && |h| == heap.Length
      invariant Down(h, n, k) == Down(old(heap[..]), n, k0)
      invariant WatchersOf(h, n) <= old(WatchersOf(heap[..], n)) && LinkedBut(h, n, k)
      decreases HEAP0 + n - k
    {
      var minpos, minat := FindLeastChild(heap, n, k, he);
      if he.at <= minat {
        break;
      }
      FillHole(heap, k, minpos, n, he, h);
      h := Swap(h, k, minpos);
      k := minpos;
    }
    heap[k] := he;
    he.w.active := k;
    assert heap[..] == h;
  }

  /** `adjustheap` */
  method AdjustHeap(heap: array<Anhe>, n: nat, k: nat)
    requires HEAP0 <= k < HEAP0 + n <= heap.Length && LinkedBut(heap[..], n, k)
    modifies heap, WatchersOf(heap[..], n)`active
    ensures heap[..] == Adjust(old(heap[..]), n, k)
    ensures Linked(heap[..], n)
  {
    if k > HEAP0 && heap[k].at <= heap[Parent(k)].at {
      UpHeap(heap, k, n);
    } else {
      DownHeap(heap, n, k);
    }
  }

  method ReHeapSlot(heap: array<Anhe>, i: nat, ghost n: nat)
    requires i < n && HEAP0 + n <= heap.Length && Linked(heap[..], n)
    modifies heap, WatchersOf(heap[..], n)`active
    ensures heap[..] == Up(old(heap[..]), i + HEAP0) && Linked(heap[..], n)
    ensures WatchersOf(heap[..], n) == old(WatchersOf(heap[..], n))
  {
    hide Up, Elements;
    ghost var h := heap[..];
    UpHeap(heap, i + HEAP0, n);
    UpElements(h, n, i + HEAP0);
    SameWatchers(h, heap[..], n);
  }

  /** `reheap`: not Floyd's algorithm but `upheap` slot after slot. */
  method ReHeap(heap: array<Anhe>, n: nat)
    requires HEAP0 + n <= heap.Length && Linked(heap[..], n)
    modifies heap, WatchersOf(heap[..], n)`active
    ensures heap[..] == Reheaped(old(heap[..]), n)
    ensures Linked(heap[..], n)
  {
    for i := 0 to n
      invariant heap[..] == Reheaped(old(heap[..]), i) && Linked(heap[..], n)
      invariant WatchersOf(heap[..], n) == old(WatchersOf(heap[..], n))
    {
      ReHeapSlot(heap, i, n);
    }
  }
}
