/** `array_nextsize`: the size to which a full array grows.  Sizes are unbounded integers here;
    overflow of the C `int` is not modelled. */
module ArraySize {

  const MALLOC_ROUND: int := 4096
  const OVERHEAD: int := 32 // four pointers

  /** Doubles `n` until it is at least `cnt`. */
  function Doubled(n: nat, cnt: nat): (r: nat)
    requires n > 0
    ensures r >= n && r >= cnt
    decreases if cnt > n then cnt - n else 0
  {
    if cnt > n then Doubled(2 * n, cnt) else n
  }

  ghost predicate EndsIn(elem: nat, n: nat, blocks: nat) {
    elem * n + OVERHEAD <= MALLOC_ROUND * blocks < elem * n + OVERHEAD + elem
  }

  /** With `elem`-byte elements and the allocator's overhead the array ends less than one
      element short of a multiple of the allocation unit. */
  ghost predicate FillsBlocks(elem: nat, n: nat) {
    exists blocks: nat :: EndsIn(elem, n, blocks)
  }

  lemma Quotient(x: nat, y: nat, n: nat)
    requires y > 0 && x >= n * y
    ensures y * (x / y) <= x < y * (x / y) + y && x / y >= n
  {
    var q := x / y;
    assert x == y * q + x % y;
    assert q < n ==> (q + 1) * y <= n * y;
  }

  method NextSize(elem: nat, cur: nat, cnt: nat) returns (ncur: nat)
    requires elem > 0
    ensures ncur >= cnt && ncur >= 2 * (cur + 1)
    ensures var d := Doubled(2 * (cur + 1), cnt);
      if elem * d > MALLOC_ROUND - OVERHEAD then ncur > d && FillsBlocks(elem, ncur) else ncur == d
  {
    ncur := 2 * (cur + 1);
    while cnt > ncur
      invariant ncur >= 2 * (cur + 1) && Doubled(ncur, cnt) == Doubled(2 * (cur + 1), cnt)
      decreases cnt - ncur
    {
      ncur := 2 * ncur;
    }
    if elem * ncur > MALLOC_ROUND - OVERHEAD {
      ghost var d := ncur;
      var bytes := ncur * elem + elem + (MALLOC_ROUND - 1) + OVERHEAD;
      bytes := bytes - bytes % MALLOC_ROUND;
      ghost var blocks := bytes / MALLOC_ROUND;
      bytes := bytes - OVERHEAD;
      Quotient(bytes, elem, d + 1);
      ncur := bytes / elem;
      assert EndsIn(elem, ncur, blocks);
    }
  }
}
