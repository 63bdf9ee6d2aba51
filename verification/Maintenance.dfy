/** When `milter-client.c` asks for maintenance. */
module Maintenance {

  /** A batch of `n` sessions that ends at `processed` crosses a multiple of the interval. */
  ghost predicate Crosses(processed: nat, n: nat, interval: nat) {
    exists k: nat :: processed - n < k * interval <= processed
  }

  /** `milter_client_need_maintain`. */
  function NeedMaintain(nProcessing: int, nProcessed: nat, interval: nat, n: nat): bool {
    if nProcessing == 0 && n > 0 then true
    else if interval == 0 then false
    else nProcessed % interval < n
  }

  lemma DivMod(n: nat, d: nat)
    requires d > 0
    ensures n == (n / d) * d + n % d && n < (n / d + 1) * d
  {}

  lemma MulMonotone(a: nat, b: nat, d: nat)
    requires a <= b
    ensures a * d <= b * d
  {
    assert (b - a) * d >= 0;
  }

  lemma CrossesIff(processed: nat, n: nat, interval: nat)
    requires n <= processed && interval > 0
    ensures Crosses(processed, n, interval) <==> processed % interval < n
  {
    var q := processed / interval;
    DivMod(processed, interval);
    if processed % interval < n {
      assert processed - n < q * interval <= processed;
    }
    forall k: nat | processed - n < k * interval <= processed ensures processed % interval < n {
      if k > q {
        MulMonotone(q + 1, k, interval);
      } else {
        MulMonotone(k, q, interval);
      }
    }
  }

  /** Maintenance is due when a batch leaves nothing running or crosses a multiple of the interval. */
  lemma MaintainIff(nProcessing: int, nProcessed: nat, interval: nat, n: nat)
    requires n <= nProcessed
    ensures NeedMaintain(nProcessing, nProcessed, interval, n) <==>
              (n > 0 && nProcessing == 0) || (interval > 0 && Crosses(nProcessed, n, interval))
  {
    if interval > 0 {
      CrossesIff(nProcessed, n, interval);
    }
  }

  const GUINT := 0x1_0000_0000

  lemma RemainderUnique(n: nat, q: nat, r: nat, d: nat)
    requires n == q * d + r && r < d
    ensures n % d == r
  {
    var q' := n / d;
    assert n == q' * d + n % d;
    if q' < q {
      MulMonotone(q' + 1, q, d);
    } else if q < q' {
      MulMonotone(q + 1, q', d);
    }
  }

  lemma RemainderOfSum(k: nat, r: nat, interval: nat)
    requires interval > 0
    ensures (k * interval + r) % interval == r % interval
  {
    var q := r / interval;
    assert k * interval + r == (k + q) * interval + r % interval;
    RemainderUnique(k * interval + r, k + q, r % interval, interval);
  }

  lemma WrappedRemainder(total: nat, interval: nat)
    requires interval > 0 && GUINT % interval == 0
    ensures total % GUINT % interval == total % interval
  {
    var w, m := total / GUINT, GUINT / interval;
    assert total == w * GUINT + total % GUINT;
    assert GUINT == m * interval;
    assert w * GUINT == (w * m) * interval;
    RemainderOfSum(w * m, total % GUINT, interval);
  }

  /** The counter is a 32-bit number. Wrapping it leaves every maintenance test as it was if and only
      if there is no interval or it divides 2 to the 32nd. */
  lemma WrapHarmlessIff(interval: nat)
    ensures (forall p: int, total: nat, n: nat | n <= total ::
               NeedMaintain(p, total % GUINT, interval, n) == NeedMaintain(p, total, interval, n))
            <==> interval == 0 || GUINT % interval == 0
  {
    if interval > 0 && GUINT % interval == 0 {
      forall p: int, total: nat, n: nat | n <= total
        ensures NeedMaintain(p, total % GUINT, interval, n) == NeedMaintain(p, total, interval, n)
      {
        WrappedRemainder(total, interval);
      }
    } else if interval > 0 {
      assert NeedMaintain(1, GUINT % GUINT, interval, 1) != NeedMaintain(1, GUINT, interval, 1);
    }
  }
}
