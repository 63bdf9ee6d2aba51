/** Interest masks and what a backend promises about them. */
module Interest {
  const EV_READ: bv8 := 1
  const EV_WRITE: bv8 := 2
  const EV_IOFDSET: bv8 := 0x80

  /** Only the two interest bits. */
  predicate IsMask(m: bv8) {
    m & (EV_READ | EV_WRITE) == m
  }

  function Combine(read: bool, write: bool): (m: bv8)
    ensures IsMask(m) && (m & EV_READ != 0 <==> read) && (m & EV_WRITE != 0 <==> write)
    ensures m != 0 <==> read || write
  {
    (if read then EV_READ else 0) | (if write then EV_WRITE else 0)
  }

  lemma MaskParts(m: bv8)
    requires IsMask(m)
    ensures m == Combine(m & EV_READ != 0, m & EV_WRITE != 0)
  {}
}

/** The `poll` backend: a dense array of pollfds, an inverse index, removal by swapping. */
module PollBackend {
  import opened Interest

  datatype PollFd = PollFd(fd: nat, pollin: bool, pollout: bool)

  class Poll {
    var polls: seq<PollFd>
    var pollcnt: nat
    var pollidxs: seq<int>

    /** `polls` and `pollidxs` are inverse to each other, and nothing is polled for no event. */
    ghost predicate Valid()
      reads this
    {
      && pollcnt <= |polls|
      && (forall i :: 0 <= i < pollcnt ==>
            polls[i].fd < |pollidxs| && pollidxs[polls[i].fd] == i && (polls[i].pollin || polls[i].pollout))
      && (forall fd :: 0 <= fd < |pollidxs| && pollidxs[fd] != -1 ==>
            0 <= pollidxs[fd] < pollcnt && polls[pollidxs[fd]].fd == fd)
    }

    /** The events polled for on `fd`. */
    ghost function MaskOf(fd: nat): bv8
      requires Valid()
      reads this
    {
      if fd < |pollidxs| && pollidxs[fd] != -1 then
        Combine(polls[pollidxs[fd]].pollin, polls[pollidxs[fd]].pollout)
      else 0
    }

    constructor ()
      ensures Valid() && forall fd: nat :: MaskOf(fd) == 0
    {
      polls, pollcnt, pollidxs := [], 0, [];
    }

    /** `array_needsize` of `pollidxs`, with new entries -1. */
    method GrowIndex(fd: nat)
      requires Valid()
      modifies this`pollidxs
      ensures Valid() && fd < |pollidxs| && forall g: nat :: MaskOf(g) == old(MaskOf(g))
    {
      if fd >= |pollidxs| {
        pollidxs := pollidxs + seq(fd + 1 - |pollidxs|, _ => -1);
      }
    }

    /** Allocates a pollfd if `fd` has none, and sets its events. */
    method Want(fd: nat, nev: bv8)
      requires Valid() && IsMask(nev) && nev != 0 && fd < |pollidxs|
      modifies this
      ensures Valid() && MaskOf(fd) == nev
      ensures forall g: nat :: g != fd ==> MaskOf(g) == old(MaskOf(g))
    {
      MaskParts(nev);
      var idx := pollidxs[fd];
      if idx < 0 {
        idx := pollcnt;
        pollidxs := pollidxs[fd := idx];
        pollcnt := pollcnt + 1;
        if |polls| < pollcnt {
          polls := polls + [PollFd(fd, false, false)];
        }
      }
      polls := polls[idx := PollFd(fd, nev & EV_READ != 0, nev & EV_WRITE != 0)];
    }

    /** Gives the slot of `fd` to the last pollfd. */
    method Remove(fd: nat)
      requires Valid() && fd < |pollidxs| && pollidxs[fd] != -1
      modifies this
      ensures Valid() && MaskOf(fd) == 0
      ensures forall g: nat :: g != fd ==> MaskOf(g) == old(MaskOf(g))
    {
      var idx := pollidxs[fd];
      pollidxs := pollidxs[fd := -1];
      pollcnt := pollcnt - 1;
      if idx < pollcnt {
        polls := polls[idx := polls[pollcnt]];
        pollidxs := pollidxs[polls[idx].fd := idx];
      }
    }

    /** POLLIN stands for EV_READ, POLLOUT for EV_WRITE. */
    lemma PolledFor(fd: nat)
      requires Valid()
      ensures forall i :: 0 <= i < pollcnt && polls[i].fd == fd ==>
        && (polls[i].pollin <==> MaskOf(fd) & EV_READ != 0)
        && (polls[i].pollout <==> MaskOf(fd) & EV_WRITE != 0)
    {}

    /** `poll_modify` */
    method Modify(fd: nat, oev: bv8, nev: bv8)
      requires Valid() && IsMask(nev) && MaskOf(fd) == oev
      modifies this
      ensures Valid() && MaskOf(fd) == nev
      ensures forall i :: 0 <= i < pollcnt && polls[i].fd == fd ==>
        (polls[i].pollin <==> nev & EV_READ != 0) && (polls[i].pollout <==> nev & EV_WRITE != 0)
      ensures forall g: nat :: g != fd ==> MaskOf(g) == old(MaskOf(g))
    {
      PolledFor(fd);
      if oev == nev {
        return;
      }
      MaskParts(nev);
      GrowIndex(fd);
      if nev != 0 {
        Want(fd, nev);
      } else {
        Remove(fd);
      }
      PolledFor(fd);
    }

    /** The array handed to `poll` lists each fd of interest once and no other. */
    lemma ListsEachOnce(fd: nat)
      requires Valid()
      ensures MaskOf(fd) != 0 <==> exists i :: 0 <= i < pollcnt && polls[i].fd == fd
      ensures forall i, j :: 0 <= i < j < pollcnt ==> polls[i].fd != polls[j].fd
    {
      if MaskOf(fd) != 0 {
        assert polls[pollidxs[fd]].fd == fd;
      }
    }
  }
}

/** The `select` backend: bit vectors of 64-bit words that grow on demand. */
module SelectBackend {
  import opened Interest

  const NFDBITS := 64

  // ---------- machine words ----------

  function Shl(x: bv64): bv64 {
    x << 1
  }

  function And(x: bv64, y: bv64): bv64 {
    x & y
  }

  function Or(x: bv64, y: bv64): bv64 {
    x | y
  }

  function AndNot(x: bv64, y: bv64): bv64 {
    x & !y
  }

  /** `1UL << b` */
  function Bit(b: nat): bv64 {
    if b == 0 then 1 else Shl(Bit(b - 1))
  }

  predicate On(w: bv64, b: nat) {
    And(w, Bit(b)) != 0
  }

  // ---------- different bits have disjoint masks ----------

  predicate Power(x: bv64) {
    x != 0 && x & (x - 1) == 0
  }

  lemma Doubled(x: bv64)
    requires Power(x) && Shl(x) != 0
    ensures Power(Shl(x)) && x < Shl(x)
  {}

  lemma PowersApart(x: bv64, y: bv64)
    requires Power(x) && Power(y) && x != y
    ensures And(x, y) == 0
  {}

  lemma ThreeShifts(x: bv64)
    ensures Shl(Shl(Shl(x))) == x << 3
  {}

  lemma ThreeOn(b: nat, x: bv64)
    requires Bit(b) == x
    ensures Bit(b + 3) == x << 3
  {
    assert Bit(b + 1) == Shl(x);
    assert Bit(b + 2) == Shl(Shl(x));
    ThreeShifts(x);
  }

  /** The last bit of a word is still in it. */
  lemma LastBit()
    ensures Bit(NFDBITS - 1) == 0x8000_0000_0000_0000
  {
    ThreeOn(0, 1);
    ThreeOn(3, 0x8);
    ThreeOn(6, 0x40);
    ThreeOn(9, 0x200);
    ThreeOn(12, 0x1000);
    ThreeOn(15, 0x8000);
    ThreeOn(18, 0x4_0000);
    ThreeOn(21, 0x20_0000);
    ThreeOn(24, 0x100_0000);
    ThreeOn(27, 0x800_0000);
    ThreeOn(30, 0x4000_0000);
    ThreeOn(33, 0x2_0000_0000);
    ThreeOn(36, 0x10_0000_0000);
    ThreeOn(39, 0x80_0000_0000);
    ThreeOn(42, 0x400_0000_0000);
    ThreeOn(45, 0x2000_0000_0000);
    ThreeOn(48, 0x1_0000_0000_0000);
    ThreeOn(51, 0x8_0000_0000_0000);
    ThreeOn(54, 0x40_0000_0000_0000);
    ThreeOn(57, 0x200_0000_0000_0000);
    ThreeOn(60, 0x1000_0000_0000_0000);
  }

  lemma {:induction false} ZeroStays(b: nat, c: nat)
    requires b <= c && Bit(b) == 0
    ensures Bit(c) == 0
  {
    if b < c {
      ZeroStays(b, c - 1);
    }
  }

  lemma {:induction false} BitIsPower(b: nat)
    requires b < NFDBITS
    ensures Power(Bit(b))
  {
    LastBit();
    if Bit(b) == 0 {
      ZeroStays(b, NFDBITS - 1);
    }
    if b > 0 {
      BitIsPower(b - 1);
      Doubled(Bit(b - 1));
    }
  }

  lemma {:induction false} BitsRise(a: nat, b: nat)
    requires a < b < NFDBITS
    ensures Bit(a) < Bit(b)
  {
    BitIsPower(b - 1);
    BitIsPower(b);
    Doubled(Bit(b - 1));
    if a < b - 1 {
      BitsRise(a, b - 1);
    }
  }

  lemma BitsApart(a: nat, b: nat)
    requires a < NFDBITS && b < NFDBITS && a != b
    ensures And(Bit(a), Bit(b)) == 0
  {
    BitIsPower(a);
    BitIsPower(b);
    if a < b {
      BitsRise(a, b);
    } else {
      BitsRise(b, a);
    }
    PowersApart(Bit(a), Bit(b));
  }

  lemma OrOwn(w: bv64, m: bv64)
    ensures And(Or(w, m), m) == m
  {}

  lemma AndNotOwn(w: bv64, m: bv64)
    ensures And(AndNot(w, m), m) == 0
  {}

  lemma OrOther(w: bv64, m: bv64, n: bv64)
    requires And(m, n) == 0
    ensures And(Or(w, m), n) == And(w, n)
  {}

  lemma AndNotOther(w: bv64, m: bv64, n: bv64)
    requires And(m, n) == 0
    ensures And(AndNot(w, m), n) == And(w, n)
  {}

  /** `|= mask` and `&= ~mask` switch the bit of the mask ... */
  lemma SwitchesOwnBit(w: bv64, a: nat)
    requires a < NFDBITS
    ensures On(Or(w, Bit(a)), a) && !On(AndNot(w, Bit(a)), a)
  {
    BitIsPower(a);
    OrOwn(w, Bit(a));
    AndNotOwn(w, Bit(a));
  }

  /** ... and no other. */
  lemma SetsNoOtherBit(w: bv64, a: nat, b: nat)
    requires a < NFDBITS && b < NFDBITS && a != b
    ensures On(Or(w, Bit(a)), b) == On(w, b)
  {
    BitsApart(a, b);
    OrOther(w, Bit(a), Bit(b));
  }

  lemma ClearsNoOtherBit(w: bv64, a: nat, b: nat)
    requires a < NFDBITS && b < NFDBITS && a != b
    ensures On(AndNot(w, Bit(a)), b) == On(w, b)
  {
    BitsApart(a, b);
    AndNotOther(w, Bit(a), Bit(b));
  }

  // ---------- vectors of words ----------

  predicate IsSet(vec: seq<bv64>, fd: nat) {
    fd / NFDBITS < |vec| && On(vec[fd / NFDBITS], fd % NFDBITS)
  }

  datatype Ready = Ready(fd: nat, mask: bv8)

  function Got(ro: seq<bv64>, wo: seq<bv64>, fd: nat): bv8 {
    Combine(IsSet(ro, fd), IsSet(wo, fd))
  }

  method SetWord(vec: seq<bv64>, word: nat, bit: nat) returns (vec': seq<bv64>)
    requires word < |vec| && bit < NFDBITS
    ensures |vec'| == |vec| && forall v, b: nat | 0 <= v < |vec| && b < NFDBITS ::
              On(vec'[v], b) <==> (v == word && b == bit) || On(vec[v], b)
  {
    vec' := vec[word := Or(vec[word], Bit(bit))];
    SwitchesOwnBit(vec[word], bit);
    forall b: nat | b < NFDBITS && b != bit ensures On(vec'[word], b) == On(vec[word], b) {
      SetsNoOtherBit(vec[word], bit, b);
    }
  }

  method ClearWord(vec: seq<bv64>, word: nat, bit: nat) returns (vec': seq<bv64>)
    requires word < |vec| && bit < NFDBITS
    ensures |vec'| == |vec| && forall v, b: nat | 0 <= v < |vec| && b < NFDBITS ::
              On(vec'[v], b) <==> !(v == word && b == bit) && On(vec[v], b)
  {
    vec' := vec[word := AndNot(vec[word], Bit(bit))];
    SwitchesOwnBit(vec[word], bit);
    forall b: nat | b < NFDBITS && b != bit ensures On(vec'[word], b) == On(vec[word], b) {
      ClearsNoOtherBit(vec[word], bit, b);
    }
  }

  /** Sets the bit of `fd`, then clears it again unless it is wanted. */
  method SwitchBit(vec: seq<bv64>, fd: nat, on: bool) returns (vec': seq<bv64>)
    requires fd / NFDBITS < |vec|
    ensures |vec'| == |vec| && forall g: nat :: IsSet(vec', g) <==> if g == fd then on else IsSet(vec, g)
  {
    vec' := SetWord(vec, fd / NFDBITS, fd % NFDBITS);
    if !on {
      vec' := ClearWord(vec', fd / NFDBITS, fd % NFDBITS);
    }
    forall g: nat ensures IsSet(vec', g) <==> if g == fd then on else IsSet(vec, g) {
      assert g == fd <==> g / NFDBITS == fd / NFDBITS && g % NFDBITS == fd % NFDBITS;
    }
  }

  class Select {
    var vec_ri: seq<bv64>
    var vec_wi: seq<bv64>

    ghost predicate Valid()
      reads this
    {
      |vec_ri| == |vec_wi|
    }

    /** The events selected for on `fd`. */
    ghost function MaskOf(fd: nat): bv8
      reads this
    {
      Got(vec_ri, vec_wi, fd)
    }

    constructor ()
      ensures Valid() && forall fd: nat :: MaskOf(fd) == 0
    {
      vec_ri, vec_wi := [], [];
    }

    /** New words are zero. */
    method Grow(word: nat)
      requires Valid()
      modifies this
      ensures Valid() && word < |vec_ri|
      ensures forall g: nat :: IsSet(vec_ri, g) == old(IsSet(vec_ri, g)) && IsSet(vec_wi, g) == old(IsSet(vec_wi, g))
    {
      while |vec_ri| <= word
        invariant Valid()
        invariant forall g: nat ::
          IsSet(vec_ri, g) == old(IsSet(vec_ri, g)) && IsSet(vec_wi, g) == old(IsSet(vec_wi, g))
        decreases word - |vec_ri|
      {
        vec_ri, vec_wi := vec_ri + [0], vec_wi + [0];
      }
    }

    /** `select_modify`, without `fd_set` */
    method Modify(fd: nat, oev: bv8, nev: bv8)
      requires Valid() && IsMask(nev) && MaskOf(fd) == oev
      modifies this
      ensures Valid() && MaskOf(fd) == nev
      ensures (IsSet(vec_ri, fd) <==> nev & EV_READ != 0) && (IsSet(vec_wi, fd) <==> nev & EV_WRITE != 0)
      ensures forall g: nat :: g != fd ==> MaskOf(g) == old(MaskOf(g))
    {
      if oev == nev {
        return;
      }
      MaskParts(nev);
      Grow(fd / NFDBITS);
      vec_ri := SwitchBit(vec_ri, fd, nev & EV_READ != 0);
      vec_wi := SwitchBit(vec_wi, fd, nev & EV_WRITE != 0);
    }
  }

  predicate Names(out: seq<Ready>, fd: nat) {
    exists k :: 0 <= k < |out| && out[k].fd == fd
  }

  /** `out` reports exactly the fds from `lo` on that got events, each once, highest first. */
  ghost predicate Reports(out: seq<Ready>, got: nat -> bv8, lo: nat) {
    && (forall k :: 0 <= k < |out| ==> out[k].fd >= lo && out[k].mask == got(out[k].fd) != 0)
    && (forall j, k :: 0 <= j < k < |out| ==> out[j].fd > out[k].fd)
    && (forall fd: nat :: fd >= lo && got(fd) != 0 ==> Names(out, fd))
  }

  /** The events of each fd in the vectors the kernel returned. */
  function Gots(ro: seq<bv64>, wo: seq<bv64>): nat -> bv8 {
    (fd: nat) => Got(ro, wo, fd)
  }

  lemma ReportsMore(out: seq<Ready>, got: nat -> bv8, fd: nat)
    requires Reports(out, got, fd + 1)
    ensures Reports(if got(fd) != 0 then out + [Ready(fd, got(fd))] else out, got, fd)
  {
    if got(fd) != 0 {
      var more := out + [Ready(fd, got(fd))];
      assert more[|out|].fd == fd;
      forall g: nat | Names(out, g) ensures Names(more, g) {
        var k :| 0 <= k < |out| && out[k].fd == g;
        assert more[k].fd == g;
      }
    }
  }

  method ScanBit(ro: seq<bv64>, wo: seq<bv64>, word: nat, bit: nat, out0: seq<Ready>) returns (out: seq<Ready>)
    requires word < |ro| == |wo| && bit < NFDBITS && Reports(out0, Gots(ro, wo), NFDBITS * word + bit + 1)
    ensures Reports(out, Gots(ro, wo), NFDBITS * word + bit)
  {
    var fd := NFDBITS * word + bit;
    assert fd / NFDBITS == word && fd % NFDBITS == bit;
    var events := Combine(On(ro[word], bit), On(wo[word], bit));
    ReportsMore(out0, Gots(ro, wo), fd);
    out := out0;
    if events != 0 {
      out := out + [Ready(fd, events)];
    }
  }

  lemma NoneOn()
    ensures forall b: nat :: !On(0, b)
  {}

  lemma ZeroWords(ro: seq<bv64>, wo: seq<bv64>, word: nat, out: seq<Ready>)
    requires word < |ro| == |wo| && ro[word] == 0 && wo[word] == 0
    requires Reports(out, Gots(ro, wo), NFDBITS * (word + 1))
    ensures Reports(out, Gots(ro, wo), NFDBITS * word)
  {
    NoneOn();
    forall fd: nat | NFDBITS * word <= fd < NFDBITS * (word + 1) ensures Got(ro, wo, fd) == 0 {
      assert fd / NFDBITS == word;
    }
  }

  /** The word and bit scan of `select_poll` over the vectors the kernel returned. */
  method ScanVectors(ro: seq<bv64>, wo: seq<bv64>) returns (out: seq<Ready>)
    requires |ro| == |wo|
    ensures Reports(out, Gots(ro, wo), 0)
    ensures forall k :: 0 <= k < |out| ==>
      && (out[k].mask & EV_READ != 0 <==> IsSet(ro, out[k].fd))
      && (out[k].mask & EV_WRITE != 0 <==> IsSet(wo, out[k].fd))
  {
    out := [];
    for word := |ro| downto 0
      invariant Reports(out, Gots(ro, wo), NFDBITS * word)
    {
      if ro[word] != 0 || wo[word] != 0 {
        for bit := NFDBITS downto 0
          invariant Reports(out, Gots(ro, wo), NFDBITS * word + bit)
        {
          out := ScanBit(ro, wo, word, bit, out);
        }
      } else {
        ZeroWords(ro, wo, word, out);
      }
    }
  }
}
