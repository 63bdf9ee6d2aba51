/** The dense watcher arrays: idle watchers by priority, prepare, check, fork and cleanup. A
    watcher is appended when it starts and swapped out for the last one when it stops, and its
    `active` field is its place counted from one. The C code has this once per kind. */
module DenseArrays {
  import opened Watchers

  datatype Kind = IdleKind | PrepareKind | CheckKind | ForkKind | CleanupKind

  datatype List = Idle(pri: nat) | Prepares | Checks | Forks | Cleanups

  function ListFor(kind: Kind, w: Watcher): List {
    match kind
    case IdleKind => Idle(w.AbsPri())
    case PrepareKind => Prepares
    case CheckKind => Checks
    case ForkKind => Forks
    case CleanupKind => Cleanups
  }

  // ---------- swap-remove ----------

  /** `ws [active - 1] = ws [--cnt]` */
  function SwapRemove(ws: seq<Watcher>, i: nat): seq<Watcher>
    requires i < |ws|
  {
    ws[i := ws[|ws| - 1]][..|ws| - 1]
  }

  /** Exactly the one watcher goes. */
  lemma SwapRemoveTakesOne(ws: seq<Watcher>, i: nat)
    requires i < |ws|
    ensures multiset(SwapRemove(ws, i)) == multiset(ws) - multiset{ws[i]}
  {
    var u := ws[i := ws[|ws| - 1]];
    assert u == SwapRemove(ws, i) + [ws[|ws| - 1]];
    assert multiset(u) == multiset(ws) - multiset{ws[i]} + multiset{ws[|ws| - 1]};
    assert multiset(SwapRemove(ws, i)) == multiset(u) - multiset{ws[|ws| - 1]};
  }

  // ---------- counts ----------

  predicate Known(l: List) {
    l.Idle? ==> l.pri < NUMPRI
  }

  type Lists = map<List, seq<Watcher>>

  ghost predicate Total(lists: Lists) {
    forall l :: l in lists <==> Known(l)
  }

  function IdleSize(lists: Lists): nat
    requires forall p: nat | p < NUMPRI :: Idle(p) in lists
  {
    |lists[Idle(0)]| + |lists[Idle(1)]| + |lists[Idle(2)]| + |lists[Idle(3)]| + |lists[Idle(4)]|
  }

  /** All but the cleanup watchers. */
  ghost function ActiveSize(lists: Lists): nat
    requires Total(lists)
  {
    IdleSize(lists) + |lists[Prepares]| + |lists[Checks]| + |lists[Forks]|
  }

  lemma SizesUpdate(lists: Lists, l: List, ws: seq<Watcher>)
    requires Total(lists) && Known(l)
    ensures Total(lists[l := ws])
    ensures IdleSize(lists[l := ws]) == IdleSize(lists) + if l.Idle? then |ws| - |lists[l]| else 0
    ensures ActiveSize(lists[l := ws]) == ActiveSize(lists) + if l == Cleanups then 0 else |ws| - |lists[l]|
  {
    assert l.Idle? ==> l.pri == 0 || l.pri == 1 || l.pri == 2 || l.pri == 3 || l.pri == 4;
  }

  function EmptyLists(): (lists: Lists)
    ensures Total(lists) && forall l <- lists :: lists[l] == []
  {
    map[Idle(0) := [], Idle(1) := [], Idle(2) := [], Idle(3) := [], Idle(4) := [],
        Prepares := [], Checks := [], Forks := [], Cleanups := []]
  }

  // ---------- places ----------

  /** The watchers of a list are those the list is for, and each knows its place. */
  ghost predicate InPlace(kinds: map<Watcher, Kind>, act: map<Watcher, int>, l: List, ws: seq<Watcher>) {
    forall i | 0 <= i < |ws| ::
      ws[i] in kinds && ws[i] in act && ListFor(kinds[ws[i]], ws[i]) == l && act[ws[i]] == i + 1
  }

  ghost predicate PlaceOf(lists: Lists, l: List, w: Watcher, active: int) {
    l in lists && 0 < active <= |lists[l]| && lists[l][active - 1] == w
  }

  /** Every place holds a watcher that knows its place, and every active watcher has one. */
  ghost predicate PlacesIn(kinds: map<Watcher, Kind>, lists: Lists, act: map<Watcher, int>) {
    && Total(lists)
    && act.Keys == kinds.Keys
    && (forall l {:trigger InPlace(kinds, act, l, lists[l])} | l in lists :: InPlace(kinds, act, l, lists[l]))
    && (forall w {:trigger act[w]} | w in kinds :: act[w] != 0 ==> PlaceOf(lists, ListFor(kinds[w], w), w, act[w]))
  }

  /** No watcher is in two places. */
  lemma NoDuplicates(kinds: map<Watcher, Kind>, lists: Lists, act: map<Watcher, int>,
                     l: List, i: nat, m: List, j: nat)
    requires PlacesIn(kinds, lists, act) && l in lists && m in lists && i < |lists[l]| && j < |lists[m]|
    requires lists[l][i] == lists[m][j]
    ensures l == m && i == j
  {
    assert InPlace(kinds, act, l, lists[l]) && InPlace(kinds, act, m, lists[m]);
  }

  lemma AppendKeepsList(kinds: map<Watcher, Kind>, act: map<Watcher, int>, l: List, w: Watcher,
                        m: List, ws: seq<Watcher>, n: nat)
    requires InPlace(kinds, act, m, ws) && w in kinds && w in act && act[w] == 0 && l == ListFor(kinds[w], w)
    ensures InPlace(kinds, act[w := n], m, ws)
    ensures m == l && n == |ws| + 1 ==> InPlace(kinds, act[w := n], l, ws + [w])
  {}

  lemma AppendKeepsPlaces(kinds: map<Watcher, Kind>, lists: Lists, act: map<Watcher, int>, l: List, w: Watcher)
    requires PlacesIn(kinds, lists, act) && w in kinds && act[w] == 0 && l == ListFor(kinds[w], w)
    ensures PlacesIn(kinds, lists[l := lists[l] + [w]], act[w := |lists[l]| + 1])
  {
    hide InPlace;
    var n := |lists[l]| + 1;
    forall m <- lists ensures InPlace(kinds, act[w := n], m, if m == l then lists[l] + [w] else lists[m]) {
      assert InPlace(kinds, act, m, lists[m]);
      AppendKeepsList(kinds, act, l, w, m, lists[m], n);
    }
  }

  lemma SwapKeepsPlace(kinds: map<Watcher, Kind>, lists: Lists, act: map<Watcher, int>, w: Watcher, v: Watcher)
    requires PlacesIn(kinds, lists, act) && w in kinds && v in kinds && act[w] != 0
    requires PlaceOf(lists, ListFor(kinds[w], w), w, act[w])
    ensures
      var l := ListFor(kinds[w], w);
      var last := lists[l][|lists[l]| - 1];
      var active := if v == w then 0 else if v == last then act[w] else act[v];
      && last in kinds && ListFor(kinds[last], last) == l
      && (active != 0 ==>
            PlaceOf(lists[l := SwapRemove(lists[l], act[w] - 1)], ListFor(kinds[v], v), v, active))
  {
    var l := ListFor(kinds[w], w);
    assert InPlace(kinds, act, l, lists[l]);
    assert act[v] != 0 ==> PlaceOf(lists, ListFor(kinds[v], v), v, act[v]);
  }

  lemma SwapKeepsList(kinds: map<Watcher, Kind>, lists: Lists, act: map<Watcher, int>, w: Watcher, m: List)
    requires PlacesIn(kinds, lists, act) && w in kinds && act[w] != 0 && m in lists
    requires PlaceOf(lists, ListFor(kinds[w], w), w, act[w])
    ensures
      var ws := lists[ListFor(kinds[w], w)];
      var last := ws[|ws| - 1];
      last in kinds && InPlace(kinds, act[last := act[w]][w := 0], m,
        if m == ListFor(kinds[w], w) then SwapRemove(ws, act[w] - 1) else lists[m])
  {
    assert InPlace(kinds, act, m, lists[m]);
    var l := ListFor(kinds[w], w);
    assert InPlace(kinds, act, l, lists[l]);
  }

  /** The last watcher of the list learns its new place before the stopped one forgets its own;
      they may be the same one. */
  lemma SwapKeepsPlaces(kinds: map<Watcher, Kind>, lists: Lists, act: map<Watcher, int>, w: Watcher)
    requires PlacesIn(kinds, lists, act) && w in kinds && act[w] != 0
    ensures
      var l := ListFor(kinds[w], w);
      && PlaceOf(lists, l, w, act[w])
      && var last := lists[l][|lists[l]| - 1];
      && last in kinds
      && PlacesIn(kinds, lists[l := SwapRemove(lists[l], act[w] - 1)], act[last := act[w]][w := 0])
  {
    hide InPlace, SwapRemove, ListFor;
    var l := ListFor(kinds[w], w);
    var ws := lists[l];
    var last := ws[|ws| - 1];
    var act1 := act[last := act[w]][w := 0];
    var after := SwapRemove(ws, act[w] - 1);
    SwapKeepsPlace(kinds, lists, act, w, w);
    forall m <- lists ensures InPlace(kinds, act1, m, if m == l then after else lists[m]) {
      SwapKeepsList(kinds, lists, act, w, m);
    }
    forall v <- kinds ensures act1[v] != 0 ==> PlaceOf(lists[l := after], ListFor(kinds[v], v), v, act1[v]) {
      SwapKeepsPlace(kinds, lists, act, w, v);
    }
  }

  class WatcherArrays {
    /** Of which kind each watcher is. */
    const kinds: map<Watcher, Kind>
    var lists: map<List, seq<Watcher>>
    var idleall: int

    var activecnt: int
    /** `ev_ref` calls less `ev_unref` calls of the application. */
    ghost var refs: int

    ghost function Actives(): map<Watcher, int>
      reads kinds.Keys`active
    {
      map w | w in kinds :: w.active
    }

    ghost predicate Places()
      reads `lists, kinds.Keys`active
    {
      PlacesIn(kinds, lists, Actives())
    }

    ghost predicate Counts()
      requires Total(lists)
      reads `lists, `idleall, `activecnt, `refs
    {
      && idleall == IdleSize(lists)
      && activecnt == ActiveSize(lists) + refs
    }

    ghost predicate Valid()
      reads this, kinds.Keys`active
    {
      Places() && Counts()
    }

    constructor (kinds: map<Watcher, Kind>)
      requires forall w <- kinds :: w.active == 0
      ensures Valid() && this.kinds == kinds && refs == 0 && activecnt == 0
    {
      this.kinds := kinds;
      lists := EmptyLists();
      idleall, activecnt, refs := 0, 0, 0;
    }

    /** `ev_ref` */
    method Ref()
      requires Valid()
      modifies `activecnt, `refs
      ensures Valid() && refs == old(refs) + 1
    {
      activecnt, refs := activecnt + 1, refs + 1;
    }

    /** `ev_unref` */
    method Unref()
      requires Valid()
      modifies `activecnt, `refs
      ensures Valid() && refs == old(refs) - 1
    {
      activecnt, refs := activecnt - 1, refs - 1;
    }

    method Append(l: List, w: Watcher)
      requires Places() && w in kinds && w.active == 0 && l == ListFor(kinds[w], w) && l in lists
      modifies `lists, w`active
      ensures Places() && lists == old(lists)[l := old(lists)[l] + [w]] && w.active != 0
      ensures IdleSize(lists) == IdleSize(old(lists)) + if l.Idle? then 1 else 0
      ensures ActiveSize(lists) == ActiveSize(old(lists)) + if l == Cleanups then 0 else 1
    {
      SizesUpdate(lists, l, lists[l] + [w]);
      AppendKeepsPlaces(kinds, lists, Actives(), l, w);
      ghost var act := Actives()[w := |lists[l]| + 1];
      w.active := |lists[l]| + 1;
      lists := lists[l := lists[l] + [w]];
      assert Actives() == act;
    }

    /** `ev_ref` or `ev_unref` for every kind, undone for cleanup watchers, and `idleall` for idle ones. */
    method Count(kind: Kind, delta: int)
      modifies `activecnt, `idleall
      ensures activecnt == old(activecnt) + if kind == CleanupKind then 0 else delta
      ensures idleall == old(idleall) + if kind == IdleKind then delta else 0
    {
      activecnt := activecnt + delta;
      if kind == CleanupKind {
        activecnt := activecnt - delta;
      }
      if kind == IdleKind {
        idleall := idleall + delta;
      }
    }

    /** The common start of the ten functions: a watcher that runs already stays where it is. */
    method Start(w: Watcher)
      requires Valid() && w in kinds
      modifies `lists, `idleall, `activecnt, w`active
      ensures Valid() && w.active != 0
      ensures old(w.active) != 0 ==> lists == old(lists) && w.active == old(w.active) && activecnt == old(activecnt)
      ensures old(w.active) == 0 ==>
        var l := ListFor(kinds[w], w);
        && lists == old(lists)[l := old(lists)[l] + [w]]
        && activecnt == old(activecnt) + if kinds[w] == CleanupKind then 0 else 1
    {
      if w.active != 0 {
        return;
      }
      var l := ListFor(kinds[w], w);
      Append(l, w);
      Count(kinds[w], 1);
    }

    method TakeOut(l: List, w: Watcher)
      requires Places() && w in kinds && w.active != 0 && l == ListFor(kinds[w], w)
      modifies `lists, kinds.Keys`active
      ensures Places() && w.active == 0
      ensures PlaceOf(old(lists), l, w, old(w.active))
      ensures lists == old(lists)[l := SwapRemove(old(lists)[l], old(w.active) - 1)]
      ensures IdleSize(lists) == IdleSize(old(lists)) - if l.Idle? then 1 else 0
      ensures ActiveSize(lists) == ActiveSize(old(lists)) - if l == Cleanups then 0 else 1
    {
      SwapKeepsPlaces(kinds, lists, Actives(), w);
      var active := w.active;
      var last := lists[l][|lists[l]| - 1];
      ghost var act := Actives()[last := active][w := 0];
      SizesUpdate(lists, l, SwapRemove(lists[l], active - 1));
      lists := lists[l := SwapRemove(lists[l], active - 1)];
      last.active := active;
      w.active := 0;
      assert Actives() == act;
    }

    method Unlink(w: Watcher)
      requires Valid() && w in kinds && w.active != 0
      modifies `lists, `idleall, `activecnt, kinds.Keys`active
      ensures Valid() && w.active == 0
      ensures PlaceOf(old(lists), ListFor(kinds[w], w), w, old(w.active))
      ensures
        var l := ListFor(kinds[w], w);
        lists == old(lists)[l := SwapRemove(old(lists)[l], old(w.active) - 1)]
      ensures activecnt == old(activecnt) - if kinds[w] == CleanupKind then 0 else 1
    {
      TakeOut(ListFor(kinds[w], w), w);
      Count(kinds[w], -1);
    }

    /** The common end: `clear_pending` apart, a watcher that does not run is left alone. */
    method Stop(w: Watcher)
      requires Valid() && w in kinds
      modifies `lists, `idleall, `activecnt, kinds.Keys`active
      ensures Valid() && w.active == 0
      ensures old(w.active) == 0 ==> lists == old(lists) && activecnt == old(activecnt)
      ensures old(w.active) != 0 ==>
        var l := ListFor(kinds[w], w);
        && PlaceOf(old(lists), l, w, old(w.active))
        && lists == old(lists)[l := SwapRemove(old(lists)[l], old(w.active) - 1)]
        && activecnt == old(activecnt) - if kinds[w] == CleanupKind then 0 else 1
    {
      if w.active != 0 {
        Unlink(w);
      }
    }

    ghost predicate IdleTurn(pendingcnt: seq<nat>, p: nat)
      requires Places() && |pendingcnt| == NUMPRI && p < NUMPRI
      reads `lists, kinds.Keys`active
    {
      && lists[Idle(p)] != []
      && (forall q: nat | p <= q < NUMPRI :: pendingcnt[q] == 0)
      && (forall q: nat | p < q < NUMPRI :: lists[Idle(q)] == [])
    }

    /** `idle_reify`: the watchers it queues are all those of the highest priority that has any,
        unless something of that or a higher priority is pending. */
    method IdleReify(pendingcnt: seq<nat>) returns (queued: seq<Watcher>)
      requires Valid() && |pendingcnt| == NUMPRI
      ensures queued != [] ==> exists p: nat :: p < NUMPRI && IdleTurn(pendingcnt, p) && queued == lists[Idle(p)]
      ensures queued == [] ==> forall p: nat | p < NUMPRI :: !IdleTurn(pendingcnt, p)
    {
      queued := [];
      if idleall != 0 {
        var pri := NUMPRI;
        while pri > 0
          invariant 0 <= pri <= NUMPRI
          invariant forall p: nat | pri <= p < NUMPRI :: pendingcnt[p] == 0 && lists[Idle(p)] == []
        {
          pri := pri - 1;
          if pendingcnt[pri] != 0 {
            return;
          }
          if lists[Idle(pri)] != [] {
            queued := lists[Idle(pri)];
            assert IdleTurn(pendingcnt, pri);
            return;
          }
        }
      }
    }
  }
}
