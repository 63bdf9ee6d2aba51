/** A heap array in use: what timers and periodics share. */
module HeapArray {
  import opened Watchers
  import opened Heap
  import opened ArraySize

  const ANHE_SIZE := 16

  /** Every cached key equals its watcher's key. */
  ghost predicate Cached(h: seq<Anhe>, n: nat)
    requires HEAP0 + n <= |h|
    reads WatchersOf(h, n)`at
  {
    forall i :: HEAP0 <= i < HEAP0 + n ==> h[i].at == h[i].w.at
  }

  /** What `verify_heap` checks: heap order, back-pointers, cached keys. */
  ghost predicate HeapOk(h: seq<Anhe>, n: nat)
    reads (if HEAP0 + n <= |h| then WatchersOf(h, n) else {})`active
    reads (if HEAP0 + n <= |h| then WatchersOf(h, n) else {})`at
  {
    HEAP0 + n <= |h| && IsHeap(h, n) && Linked(h, n) && Cached(h, n)
  }

  /** Reordering keeps the watchers and their cached keys. */
  lemma Reordered(h: seq<Anhe>, g: seq<Anhe>, n: nat)
    requires HEAP0 + n <= |h| && HEAP0 + n <= |g| && Elements(h, n) == Elements(g, n)
    ensures WatchersOf(h, n) == WatchersOf(g, n)
    ensures Cached(h, n) ==> Cached(g, n)
  {
    SameWatchers(h, g, n);
    if Cached(h, n) {
      forall i | HEAP0 <= i < HEAP0 + n ensures g[i].at == g[i].w.at {
        assert g[HEAP0..HEAP0 + n][i - HEAP0] in Elements(h, n);
        assert g[i] in h[HEAP0..HEAP0 + n];
      }
    }
  }

  /** Writing an element behind the last slot leaves only its own edge in doubt. */
  lemma Appended(g: seq<Anhe>, h: seq<Anhe>, n: nat)
    requires IsHeap(g, n) && HEAP0 + n < |h| && h[..HEAP0 + n] == g[..HEAP0 + n]
    ensures HeapAbove(h, n + 1, HEAP0 + n)
    ensures WatchersOf(h, n + 1) == WatchersOf(g, n) + {h[HEAP0 + n].w}
  {
    assert forall i :: 0 <= i < HEAP0 + n ==> h[i] == h[..HEAP0 + n][i] == g[i];
    forall i | HEAP0 <= i < HEAP0 + n ensures EdgeOk(h, i) {
      assert EdgeOk(g, i);
    }
  }

  lemma AppendedLinks(g: seq<Anhe>, h: seq<Anhe>, n: nat)
    requires HEAP0 + n <= |g| && HEAP0 + n < |h| && h[..HEAP0 + n] == g[..HEAP0 + n]
    requires Linked(g, n) && Cached(g, n)
    requires var e := h[HEAP0 + n]; e.w !in WatchersOf(g, n) && e.at == e.w.at
    ensures LinkedBut(h, n + 1, HEAP0 + n) && Cached(h, n + 1)
  {
    forall i | HEAP0 <= i < HEAP0 + n ensures h[i] == g[i] {
      assert h[i] == h[..HEAP0 + n][i];
    }
  }

  /** The least key is at the root. */
  lemma LeastAtRoot(h: seq<Anhe>, n: nat, w: Watcher)
    requires HeapOk(h, n) && w in WatchersOf(h, n)
    ensures n > 0 && h[HEAP0].at <= w.at
  {
    RootIsLeast(h, n, w.active);
  }

  method Store(heap: array<Anhe>, n: nat, w: Watcher)
    requires HEAP0 + n < heap.Length && HeapOk(heap[..], n)
    requires w !in WatchersOf(heap[..], n) && w.active == HEAP0 + n
    modifies heap
    ensures LinkedBut(heap[..], n + 1, HEAP0 + n) && Cached(heap[..], n + 1)
    ensures HeapAbove(heap[..], n + 1, HEAP0 + n)
    ensures WatchersOf(heap[..], n + 1) == old(WatchersOf(heap[..], n)) + {w}
  {
    ghost var g := heap[..];
    AppendedLinks(g, g[HEAP0 + n := Anhe(w.at, w)], n);
    heap[w.active] := Anhe(w.at, w);
    assert heap[..] == g[HEAP0 + n := Anhe(w.at, w)];
    Appended(g, heap[..], n);
  }

  method SiftUp(heap: array<Anhe>, k: nat, ghost n: nat)
    requires HEAP0 <= k < HEAP0 + n <= heap.Length
    requires LinkedBut(heap[..], n, k) && Cached(heap[..], n) && HeapAbove(heap[..], n, k)
    modifies heap, WatchersOf(heap[..], n)`active
    ensures HeapOk(heap[..], n)
    ensures WatchersOf(heap[..], n) == old(WatchersOf(heap[..], n))
  {
    ghost var h := heap[..];
    UpRestores(h, n, k);
    UpElements(h, n, k);
    UpHeap(heap, k, n);
    Reordered(h, heap[..], n);
  }

  /** The end of `ev_timer_start` and `ev_periodic_start`: store behind the last slot, `upheap`. */
  method Insert(heap: array<Anhe>, n: nat, w: Watcher)
    requires HEAP0 + n < heap.Length && HeapOk(heap[..], n)
    requires w !in WatchersOf(heap[..], n) && w.active == HEAP0 + n
    modifies heap, WatchersOf(heap[..], n)`active, w`active
    ensures HeapOk(heap[..], n + 1)
    ensures WatchersOf(heap[..], n + 1) == old(WatchersOf(heap[..], n)) + {w}
  {
    Store(heap, n, w);
    SiftUp(heap, HEAP0 + n, n + 1);
  }

  /** `ANHE_at_cache` for a watcher whose key was changed, then `adjustheap`. */
  method Rekey(heap: array<Anhe>, n: nat, k: nat)
    requires HEAP0 <= k < HEAP0 + n <= heap.Length
    requires IsHeap(heap[..], n) && Linked(heap[..], n)
    requires forall i :: HEAP0 <= i < HEAP0 + n && i != k ==> heap[i].at == heap[i].w.at
    modifies heap, WatchersOf(heap[..], n)`active
    ensures HeapOk(heap[..], n)
    ensures WatchersOf(heap[..], n) == old(WatchersOf(heap[..], n))
  {
    ghost var was := heap[k];
    heap[k] := heap[k].(at := heap[k].w.at);
    ghost var h := heap[..];
    assert h[k := was] == old(heap[..]);
    assert WatchersOf(h, n) == old(WatchersOf(heap[..], n));
    AdjustHeap(heap, n, k);
    AdjustRestores(h, n, k, was);
    AdjustElements(h, n, k);
    Reordered(h, heap[..], n);
  }

  /** Changes the cached key of slot `k` to its watcher's key. */
  lemma Recached(h: seq<Anhe>, n: nat, k: nat)
    requires HEAP0 <= k < HEAP0 + n <= |h| && Linked(h, n)
    requires forall i :: HEAP0 <= i < HEAP0 + n && i != k ==> h[i].at == h[i].w.at
    ensures var g := h[k := h[k].(at := h[k].w.at)];
      LinkedBut(g, n, k) && Cached(g, n) && WatchersOf(g, n) == WatchersOf(h, n)
  {
    var g := h[k := h[k].(at := h[k].w.at)];
    assert forall i :: HEAP0 <= i < HEAP0 + n ==> g[i].w == h[i].w;
  }

  /** `ANHE_at_cache` at the root followed by `downheap`, as the reify loops do. */
  method RekeyRoot(heap: array<Anhe>, n: nat)
    requires 0 < n && HEAP0 + n <= heap.Length
    requires IsHeap(heap[..], n) && Linked(heap[..], n)
    requires forall i :: HEAP0 < i < HEAP0 + n ==> heap[i].at == heap[i].w.at
    modifies heap, WatchersOf(heap[..], n)`active
    ensures HeapOk(heap[..], n)
    ensures WatchersOf(heap[..], n) == old(WatchersOf(heap[..], n))
  {
    ghost var g := heap[..];
    Recached(g, n, HEAP0);
    heap[HEAP0] := heap[HEAP0].(at := heap[HEAP0].w.at);
    ghost var h := heap[..];
    assert h == g[HEAP0 := Anhe(g[HEAP0].w.at, g[HEAP0].w)] && h[HEAP0 := g[HEAP0]] == g;
    AdjustRestores(h, n, HEAP0, g[HEAP0]);
    DownElements(h, n, HEAP0);
    DownHeap(heap, n, HEAP0);
    Reordered(h, heap[..], n);
  }

  /** Dropping the last slot, with the last element moved to slot `k`. */
  lemma MovedLast(h: seq<Anhe>, n: nat, k: nat)
    requires HEAP0 <= k < HEAP0 + n < |h| && HeapOk(h, n + 1)
    ensures var g := h[k := h[HEAP0 + n]];
      && LinkedBut(g, n, k) && Cached(g, n)
      && IsHeap(g[k := h[k]], n)
      && WatchersOf(g, n) == WatchersOf(h, n + 1) - {h[k].w}
  {
    var g := h[k := h[HEAP0 + n]];
    var was := g[k := h[k]];
    forall i | HEAP0 <= i < HEAP0 + n ensures EdgeOk(was, i) {
      assert EdgeOk(h, i);
    }
    forall w | w in WatchersOf(h, n + 1) - {h[k].w} ensures w in WatchersOf(g, n) {
      var i :| HEAP0 <= i < HEAP0 + n + 1 && h[i].w == w;
      assert if i == HEAP0 + n then g[k].w == w else g[i].w == w;
    }
  }

  lemma DroppedLast(h: seq<Anhe>, n: nat)
    requires HEAP0 + n < |h| && HeapOk(h, n + 1)
    ensures HeapOk(h, n) && WatchersOf(h, n) == WatchersOf(h, n + 1) - {h[HEAP0 + n].w}
  {
    forall i | HEAP0 <= i < HEAP0 + n ensures EdgeOk(h, i) && h[i].w != h[HEAP0 + n].w {
      assert EdgeOk(h, i) && h[i].w.active == i;
    }
  }

  /** The middle of `ev_timer_stop` and `ev_periodic_stop`; `n` is the count after the stop. */
  method Remove(heap: array<Anhe>, n: nat, w: Watcher)
    requires HEAP0 + n < heap.Length && HeapOk(heap[..], n + 1) && w in WatchersOf(heap[..], n + 1)
    modifies heap, (WatchersOf(heap[..], n + 1) - {w})`active
    ensures HeapOk(heap[..], n)
    ensures WatchersOf(heap[..], n) == old(WatchersOf(heap[..], n + 1)) - {w}
  {
    var k := w.active;
    ghost var h := heap[..];
    if k < n + HEAP0 {
      MovedLast(h, n, k);
      heap[k] := heap[n + HEAP0];
      ghost var g := heap[..];
      assert g == h[k := h[HEAP0 + n]];
      AdjustRestores(g, n, k, h[k]);
      AdjustElements(g, n, k);
      AdjustHeap(heap, n, k);
      Reordered(g, heap[..], n);
    } else {
      DroppedLast(h, n);
    }
  }

  lemma SamePrefix(g: seq<Anhe>, h: seq<Anhe>, n: nat)
    requires HEAP0 + n <= |g| <= |h| && h[..|g|] == g && HeapOk(g, n)
    ensures HeapOk(h, n) && WatchersOf(h, n) == WatchersOf(g, n)
  {
    assert forall i :: 0 <= i < |g| ==> h[i] == h[..|g|][i];
    forall i | HEAP0 <= i < HEAP0 + n ensures EdgeOk(h, i) {
      assert EdgeOk(g, i);
    }
  }

  /** `array_needsize` for a heap array; the `n` elements in use move along. */
  method NeedSize(heap: array<Anhe>, cnt: nat, ghost n: nat) returns (a: array<Anhe>)
    requires HeapOk(heap[..], n)
    ensures a.Length >= cnt && (a == heap || fresh(a))
    ensures HeapOk(a[..], n) && WatchersOf(a[..], n) == WatchersOf(heap[..], n)
  {
    a := heap;
    if cnt > heap.Length {
      var size := NextSize(ANHE_SIZE, heap.Length, cnt);
      a := new Anhe[size](i requires i >= 0 reads heap =>
        if i < heap.Length then heap[i] else heap[0]);
      assert a[..heap.Length] == heap[..];
      SamePrefix(heap[..], a[..], n);
    }
  }

  /** `reheap` after the keys have been changed arbitrarily. */
  method Rebuild(heap: array<Anhe>, n: nat)
    requires HEAP0 + n <= heap.Length && Linked(heap[..], n) && Cached(heap[..], n)
    modifies heap, WatchersOf(heap[..], n)`active
    ensures HeapOk(heap[..], n) && WatchersOf(heap[..], n) == old(WatchersOf(heap[..], n))
  {
    ghost var g := heap[..];
    ReheapedIsHeap(g, n, n);
    ReHeap(heap, n);
    Reordered(g, heap[..], n);
  }

  /** `array_needsize`, store and `upheap` in one: the new last element finds its place. */
  method Append(heap: array<Anhe>, n: nat, w: Watcher) returns (a: array<Anhe>)
    requires HeapOk(heap[..], n) && w !in WatchersOf(heap[..], n) && w.active == HEAP0 + n
    modifies heap, WatchersOf(heap[..], n)`active, w`active
    ensures a == heap || fresh(a)
    ensures HeapOk(a[..], n + 1) && WatchersOf(a[..], n + 1) == old(WatchersOf(heap[..], n)) + {w}
  {
    a := NeedSize(heap, w.active + 1, n);
    Insert(a, n, w);
  }
}
