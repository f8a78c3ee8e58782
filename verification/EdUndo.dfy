/** The invariant that ties ed's undo stack to the buffer, and its preservation by
    every recorded edit and by undo itself. */
module EdUndo {
  import opened SeqUtil
  import opened EdLinks
  import opened EdStack

  ghost function Dels<N>(e: Item<N>): multiset<N> {
    if e.Del? then multiset(e.seg) else multiset{}
  }

  ghost function Adds<N>(e: Item<N>): multiset<N> {
    if e.Add? then multiset(e.seg) else multiset{}
  }

  /** The nodes named by the `Del` items, with multiplicity. */
  ghost function RemovedBag<N>(es: seq<Item<N>>): multiset<N> {
    if |es| == 0 then multiset{} else RemovedBag(es[..|es| - 1]) + Dels(es[|es| - 1])
  }

  /** The nodes named by the `Add` items, with multiplicity. */
  ghost function AddedBag<N>(es: seq<Item<N>>): multiset<N> {
    if |es| == 0 then multiset{} else AddedBag(es[..|es| - 1]) + Adds(es[|es| - 1])
  }

  /** A run that a walk along `q_forw` visits node by node and then leaves. */
  ghost predicate Chained<N>(m: Mem<N>, seg: seq<N>) {
    && |seg| > 0 && Distinct(seg) && Path(m, seg)
    && seg[|seg| - 1] in m.forw && m.forw[seg[|seg| - 1]] !in seg
  }

  ghost predicate DelChains<N>(m: Mem<N>, es: seq<Item<N>>) {
    forall i :: 0 <= i < |es| && es[i].Del? ==> Chained(m, es[i].seg)
  }

  ghost predicate AddChains<N>(m: Mem<N>, es: seq<Item<N>>) {
    forall i :: 0 <= i < |es| && es[i].Add? ==> Chained(m, es[i].seg)
  }

  /** The undo invariant.  `l` is the buffer, `saved` the buffer undo must restore.
      - The items can be undone one after another, and doing so leads to `saved`.
      - The nodes off the buffer are exactly those of the `Del` items, each once.
      - The nodes off the saved buffer are exactly those of the `Add` items, each once.
      The two halves are mirror images: undo exchanges them. */
  ghost predicate UndoOk<N>(m: Mem<N>, l: seq<N>, es: seq<Item<N>>, saved: seq<N>) {
    && AllReady(m, es)
    && IsList(UndoAll(m, es), saved)
    && RemovedBag(es) == multiset(m.forw.Keys - Elems(l))
    && AddedBag(es) == multiset(m.forw.Keys - Elems(saved))
    && DelChains(m, es)
    && AddChains(UndoAll(m, es), es)
  }

  // ---------------------------------------------------------------- bags

  lemma {:induction false} DistinctBag<N>(s: seq<N>)
    requires Distinct(s)
    ensures multiset(s) == multiset(Elems(s))
  {
    DistinctIff(s);
    UniqueBag(s);
  }

  lemma {:induction false} UniqueBag<N>(s: seq<N>)
    requires Unique(s)
    ensures multiset(s) == multiset(Elems(s))
  {
    if |s| > 0 {
      var t, x := s[..|s| - 1], s[|s| - 1];
      assert s == t + [x];
      UniqueBag(t);
      assert Elems(s) == Elems(t) + {x};
      assert x !in t;
    }
  }

  lemma {:induction false} InRemoved<N>(es: seq<Item<N>>, i: nat, n: N)
    requires i < |es| && es[i].Del? && n in es[i].seg
    ensures n in RemovedBag(es)
  {
    if i < |es| - 1 {
      assert es[..|es| - 1][i] == es[i];
      InRemoved(es[..|es| - 1], i, n);
    }
  }

  lemma {:induction false} InAdded<N>(es: seq<Item<N>>, i: nat, n: N)
    requires i < |es| && es[i].Add? && n in es[i].seg
    ensures n in AddedBag(es)
  {
    if i < |es| - 1 {
      assert es[..|es| - 1][i] == es[i];
      InAdded(es[..|es| - 1], i, n);
    }
  }

  lemma {:induction false} RemovedBottom<N>(e: Item<N>, es: seq<Item<N>>)
    ensures RemovedBag([e] + es) == Dels(e) + RemovedBag(es)
  {
    var s := [e] + es;
    if |es| == 0 {
      assert s == [e] && s[..0] == [];
    } else {
      assert s[|s| - 1] == es[|es| - 1] && s[..|s| - 1] == [e] + es[..|es| - 1];
      RemovedBottom(e, es[..|es| - 1]);
    }
  }

  lemma {:induction false} AddedBottom<N>(e: Item<N>, es: seq<Item<N>>)
    ensures AddedBag([e] + es) == Adds(e) + AddedBag(es)
  {
    var s := [e] + es;
    if |es| == 0 {
      assert s == [e] && s[..0] == [];
    } else {
      assert s[|s| - 1] == es[|es| - 1] && s[..|s| - 1] == [e] + es[..|es| - 1];
      AddedBottom(e, es[..|es| - 1]);
    }
  }

  /** Flipping exchanges added and removed nodes. */
  lemma {:induction false} FlippedBags<N>(es: seq<Item<N>>)
    ensures RemovedBag(Flipped(es)) == AddedBag(es)
    ensures AddedBag(Flipped(es)) == RemovedBag(es)
  {
    if |es| > 0 {
      hide RemovedBag, AddedBag, Flipped;
      var e, r := es[|es| - 1], es[..|es| - 1];
      FlippedBags(r);
      BagsTop(es);
      RemovedBottom(Flip(e), Flipped(r));
      AddedBottom(Flip(e), Flipped(r));
    }
  }

  lemma {:induction false} BagsTop<N>(es: seq<Item<N>>)
    requires |es| > 0
    ensures var e, r := es[|es| - 1], es[..|es| - 1];
      && RemovedBag(es) == RemovedBag(r) + Dels(e) && AddedBag(es) == AddedBag(r) + Adds(e)
      && Flipped(es) == [Flip(e)] + Flipped(r)
  {
  }

  lemma {:induction false} FlippedItems<N>(es: seq<Item<N>>)
    ensures |Flipped(es)| == |es|
    ensures forall i :: 0 <= i < |es| ==> Flipped(es)[i] == Flip(es[|es| - 1 - i])
  {
    if |es| > 0 {
      FlippedItems(es[..|es| - 1]);
    }
  }

  // ---------------------------------------------------------------- undo

  /** `pop_undo_stack` exchanges the buffer and the saved buffer, and keeps the
      invariant, so a second call exchanges them back. */
  lemma {:induction false} PopKeeps<N>(m: Mem<N>, l: seq<N>, es: seq<Item<N>>, saved: seq<N>)
    requires IsList(m, l) && UndoOk(m, l, es, saved)
    ensures IsList(UndoAll(m, es), saved)
    ensures UndoOk(UndoAll(m, es), saved, Flipped(es), l)
    ensures UndoAll(UndoAll(m, es), Flipped(es)) == m
  {
    hide IsList, AllReady, UndoAll, Flipped, RemovedBag, AddedBag, Chained;
    UndoInvolution(m, es);
    UndoKeys(m, es);
    FlippedBags(es);
    FlippedItems(es);
    var m', es' := UndoAll(m, es), Flipped(es);
    forall i | 0 <= i < |es'| && es'[i].Del? ensures Chained(m', es'[i].seg) {
      assert es[|es| - 1 - i] == Add(es'[i].seg);
    }
    forall i | 0 <= i < |es'| && es'[i].Add? ensures Chained(m, es'[i].seg) {
      assert es[|es| - 1 - i] == Del(es'[i].seg);
    }
  }

  /** An empty stack saves the buffer itself, once the nodes off the buffer are gone. */
  lemma {:induction false} ClearKeeps<N>(m: Mem<N>, l: seq<N>)
    requires IsList(m, l) && m.forw.Keys == Elems(l)
    ensures UndoOk(m, l, [], l)
  {
    assert m.forw.Keys - Elems(l) == {};
  }

  lemma {:induction false} EmptyKeeps<N>(m: Mem<N>, h: N)
    requires m.forw == map[h := h] && m.back == map[h := h]
    ensures IsList(m, [h]) && UndoOk(m, [h], [], [h])
  {
    EmptyList(m, h);
    assert Elems([h]) == {h};
    ClearKeeps(m, [h]);
  }

  // ---------------------------------------------------------------- chains off the buffer

  /** The pointers of `m2` differ from those of `m1` only in nodes of `l`. */
  ghost predicate SameOff<N>(m1: Mem<N>, m2: Mem<N>, l: seq<N>) {
    && (forall n :: n in m1.forw && n !in l ==> n in m2.forw && m2.forw[n] == m1.forw[n])
    && (forall n :: n in m1.back && n !in l ==> n in m2.back && m2.back[n] == m1.back[n])
  }

  lemma {:induction false} ChainedFrame<N>(m1: Mem<N>, m2: Mem<N>, seg: seq<N>)
    requires Chained(m1, seg)
    requires forall n :: n in seg && n in m1.forw ==> n in m2.forw && m2.forw[n] == m1.forw[n]
    requires forall n :: n in seg && n in m1.back ==> n in m2.back && m2.back[n] == m1.back[n]
    ensures Chained(m2, seg)
  {
    PathIff(m1, seg);
    PathIff(m2, seg);
    forall i | 0 <= i < |seg| ensures Has(m2, seg[i]) {
      assert Has(m1, seg[i]);
    }
  }

  lemma {:induction false} DelChainsFrame<N>(m1: Mem<N>, m2: Mem<N>, l: seq<N>, es: seq<Item<N>>)
    requires DelChains(m1, es) && SameOff(m1, m2, l)
    requires RemovedBag(es) == multiset(m1.forw.Keys - Elems(l))
    ensures DelChains(m2, es)
  {
    forall i | 0 <= i < |es| && es[i].Del? ensures Chained(m2, es[i].seg) {
      forall n | n in es[i].seg ensures n !in l {
        InRemoved(es, i, n);
      }
      ChainedFrame(m1, m2, es[i].seg);
    }
  }

  lemma {:induction false} AddChainsSub<N>(m1: Mem<N>, m2: Mem<N>, es: seq<Item<N>>)
    requires AddChains(m1, es) && Sub(m1, m2)
    ensures AddChains(m2, es)
  {
    forall i | 0 <= i < |es| && es[i].Add? ensures Chained(m2, es[i].seg) {
      ChainedFrame(m1, m2, es[i].seg);
    }
  }

  // ---------------------------------------------------------------- recording a deletion

  lemma {:induction false} DeleteReady<N>(m: Mem<N>, l: seq<N>, from: nat, to: nat)
    requires IsList(m, l) && 1 <= from <= to < |l|
    ensures var m' := Link(m, l[from - 1], Ring(l)[to + 1]);
      Ready(m', Del(l[from..to + 1])) && Undo1(m', Del(l[from..to + 1])) == m
  {
    var p, h, t, n := l[from - 1], l[from], l[to], Ring(l)[to + 1];
    ListLinks(m, l, from - 1);
    ListLinks(m, l, to);
    DistinctIff(l);
    var m', e := Link(m, p, n), Del(l[from..to + 1]);
    assert Undo1(m', e).forw == m.forw;
    assert Undo1(m', e).back == m.back;
  }

  lemma {:induction false} DeletedBag<N>(keys: set<N>, l: seq<N>, from: nat, to: nat)
    requires Distinct(l) && 1 <= from <= to < |l| && Elems(l) <= keys
    ensures multiset(keys - Elems(l[..from] + l[to + 1..])) == multiset(keys - Elems(l)) + multiset(l[from..to + 1])
  {
    var l', seg := l[..from] + l[to + 1..], l[from..to + 1];
    assert l == l[..from] + seg + l[to + 1..];
    assert Elems(l) == Elems(l') + Elems(seg);
    DistinctIff(l);
    DistinctIff(seg);
    DistinctBag(seg);
    forall n | n in seg ensures n !in l' {
    }
    assert keys - Elems(l') == (keys - Elems(l)) + Elems(seg);
    assert (keys - Elems(l)) !! Elems(seg);
  }

  lemma {:induction false} DeleteKeeps<N>(m: Mem<N>, l: seq<N>, es: seq<Item<N>>, saved: seq<N>, from: nat, to: nat)
    requires IsList(m, l) && UndoOk(m, l, es, saved) && 1 <= from <= to < |l|
    ensures var m' := Link(m, l[from - 1], Ring(l)[to + 1]);
      && IsList(m', l[..from] + l[to + 1..])
      && UndoOk(m', l[..from] + l[to + 1..], es + [Del(l[from..to + 1])], saved)
  {
    DeleteList(m, l, from, to);
    DeleteReady(m, l, from, to);
    DeleteOff(m, l, from, to);
    ListKeys(m, l);
    DeletedBag(m.forw.Keys, l, from, to);
    DeleteChain(m, l, from, to);
    DropKeeps(m, l, es, saved, Link(m, l[from - 1], Ring(l)[to + 1]), l[..from] + l[to + 1..], l[from..to + 1]);
  }

  /** Recording an edit that takes the run `seg` off the buffer. */
  lemma {:induction false} DropKeeps<N>(m: Mem<N>, l: seq<N>, es: seq<Item<N>>, saved: seq<N>, m': Mem<N>,
      l': seq<N>, seg: seq<N>)
    requires UndoOk(m, l, es, saved)
    requires Ready(m', Del(seg)) && Undo1(m', Del(seg)) == m
    requires m'.forw.Keys == m.forw.Keys && SameOff(m, m', l) && Chained(m', seg)
    requires multiset(m.forw.Keys - Elems(l')) == multiset(m.forw.Keys - Elems(l)) + multiset(seg)
    ensures UndoOk(m', l', es + [Del(seg)], saved)
  {
    hide AllReady, UndoAll, RemovedBag, AddedBag, IsList, Elems, Chained, SameOff, Ready, Undo1;
    OneMore(m, es, m', Del(seg));
    DelChainsFrame(m, m', l, es);
  }

  /** One item more on the stack: undoing it leads back to where the others can be undone. */
  lemma {:induction false} OneMore<N>(m: Mem<N>, es: seq<Item<N>>, m': Mem<N>, e: Item<N>)
    requires AllReady(m, es) && Ready(m', e) && Undo1(m', e) == m
    ensures AllReady(m', es + [e]) && UndoAll(m', es + [e]) == UndoAll(m, es)
    ensures RemovedBag(es + [e]) == RemovedBag(es) + Dels(e) && AddedBag(es + [e]) == AddedBag(es) + Adds(e)
  {
    hide Ready, Undo1;
    var s := es + [e];
    assert s[|s| - 1] == e && s[..|s| - 1] == es;
  }

  lemma {:induction false} DeleteOff<N>(m: Mem<N>, l: seq<N>, from: nat, to: nat)
    requires IsList(m, l) && 1 <= from <= to < |l|
    ensures var m' := Link(m, l[from - 1], Ring(l)[to + 1]); SameOff(m, m', l) && m'.forw.Keys == m.forw.Keys
  {
    assert Ring(l)[to + 1] == if to + 1 < |l| then l[to + 1] else l[0];
    ListLinks(m, l, from - 1);
  }

  /** The deleted run keeps the pointers between its nodes and the one that leaves it. */
  lemma {:induction false} DeleteChain<N>(m: Mem<N>, l: seq<N>, from: nat, to: nat)
    requires IsList(m, l) && 1 <= from <= to < |l|
    ensures Chained(Link(m, l[from - 1], Ring(l)[to + 1]), l[from..to + 1])
  {
    var r, seg := Ring(l), l[from..to + 1];
    ListIff(m, l);
    assert seg == r[from..to + 1];
    PathSlice(m, r, from, to + 1);
    PathFrame(m, l[from - 1], r[to + 1], seg);
    PathIff(Link(m, l[from - 1], r[to + 1]), seg);
    DistinctIff(seg);
    assert m.forw[r[to]] == r[to + 1];
  }

  // ---------------------------------------------------------------- recording a move

  /** The item recorded when the block `j..k` moves down in front of the block `i..j`. */
  ghost function MovedDown<N>(l: seq<N>, i: nat, j: nat, k: nat): Item<N>
    requires 1 <= i < j < k <= |l|
  {
    Mov(l[j - 1], Ring(l)[k], l[i - 1], l[i])
  }

  /** The item recorded when the block `i..j` moves up behind the block `j..k`. */
  ghost function MovedUp<N>(l: seq<N>, i: nat, j: nat, k: nat): Item<N>
    requires 1 <= i < j < k <= |l|
  {
    Mov(l[i - 1], l[j], l[k - 1], Ring(l)[k])
  }

  ghost function ExchangedIn<N>(m: Mem<N>, l: seq<N>, i: nat, j: nat, k: nat): Mem<N>
    requires 1 <= i < j < k <= |l|
  {
    Exchanged(m, l[i - 1], l[i], l[j - 1], l[j], l[k - 1], Ring(l)[k])
  }

  lemma {:induction false} ListLinks<N>(m: Mem<N>, l: seq<N>, i: nat)
    requires IsList(m, l) && i < |l|
    ensures Has(m, l[i]) && Has(m, Ring(l)[i + 1])
    ensures m.forw[l[i]] == Ring(l)[i + 1] && m.back[Ring(l)[i + 1]] == l[i]
  {
    var r := Ring(l);
    ListIff(m, l);
    assert r[i] == l[i] && m.forw[r[i]] == r[i + 1] && m.back[r[i + 1]] == r[i];
  }

  lemma {:induction false} ExchangeReady<N>(m: Mem<N>, l: seq<N>, i: nat, j: nat, k: nat, e: Item<N>)
    requires IsList(m, l) && 1 <= i < j < k <= |l|
    requires e == MovedDown(l, i, j, k) || e == MovedUp(l, i, j, k)
    ensures Ready(ExchangedIn(m, l, i, j, k), e)
    ensures Undo1(ExchangedIn(m, l, i, j, k), e) == m
  {
    var r, m' := Ring(l), ExchangedIn(m, l, i, j, k);
    ListLinks(m, l, i - 1);
    ListLinks(m, l, j - 1);
    ListLinks(m, l, k - 1);
    ListIff(m, l);
    ExchangeLinks(m, l, i, j, k);
    assert r[k] == if k < |l| then l[k] else l[0];
    assert Has(m, l[i]) && Has(m, l[j]);
    assert Undo1(m', e).forw == m.forw;
    assert Undo1(m', e).back == m.back;
  }

  lemma {:induction false} ExchangeKeeps<N>(m: Mem<N>, l: seq<N>, es: seq<Item<N>>, saved: seq<N>, i: nat, j: nat,
      k: nat, e: Item<N>)
    requires IsList(m, l) && UndoOk(m, l, es, saved) && 1 <= i < j < k <= |l|
    requires e == MovedDown(l, i, j, k) || e == MovedUp(l, i, j, k)
    ensures IsList(ExchangedIn(m, l, i, j, k), Swapped(l, i, j, k))
    ensures UndoOk(ExchangedIn(m, l, i, j, k), Swapped(l, i, j, k), es + [e], saved)
  {
    ExchangeList(m, l, i, j, k);
    ExchangeReady(m, l, i, j, k, e);
    SwappedElems(l, i, j, k);
    ExchangeOff(m, l, i, j, k);
    RelinkKeeps(m, l, es, saved, ExchangedIn(m, l, i, j, k), Swapped(l, i, j, k), e);
  }

  /** Recording an edit that neither adds nor removes a line. */
  lemma {:induction false} RelinkKeeps<N>(m: Mem<N>, l: seq<N>, es: seq<Item<N>>, saved: seq<N>, m': Mem<N>,
      l': seq<N>, e: Item<N>)
    requires UndoOk(m, l, es, saved) && e.Mov?
    requires Ready(m', e) && Undo1(m', e) == m
    requires Elems(l') == Elems(l) && m'.forw.Keys == m.forw.Keys && SameOff(m, m', l)
    ensures UndoOk(m', l', es + [e], saved)
  {
    hide AllReady, UndoAll, RemovedBag, AddedBag, IsList, Elems, Chained, SameOff, Ready, Undo1;
    OneMore(m, es, m', e);
    DelChainsFrame(m, m', l, es);
  }

  /** An exchange changes pointers of nodes on the list only. */
  lemma {:induction false} ExchangeOff<N>(m: Mem<N>, l: seq<N>, i: nat, j: nat, k: nat)
    requires IsList(m, l) && 1 <= i < j < k <= |l|
    ensures SameOff(m, ExchangedIn(m, l, i, j, k), l)
    ensures ExchangedIn(m, l, i, j, k).forw.Keys == m.forw.Keys
  {
    var n := Ring(l)[k];
    assert n == if k < |l| then l[k] else l[0];
    ListLinks(m, l, i - 1);
    ListLinks(m, l, j - 1);
    ListLinks(m, l, k - 1);
  }

  lemma {:induction false} SwappedElems<N>(l: seq<N>, i: nat, j: nat, k: nat)
    requires i <= j <= k <= |l|
    ensures Elems(Swapped(l, i, j, k)) == Elems(l)
    ensures multiset(Swapped(l, i, j, k)) == multiset(l)
  {
    assert l == l[..i] + l[i..j] + l[j..k] + l[k..];
    assert multiset(Swapped(l, i, j, k)) == multiset(l);
    assert forall n :: n in l <==> n in multiset(l);
    assert forall n :: n in Swapped(l, i, j, k) <==> n in multiset(Swapped(l, i, j, k));
  }

  // ---------------------------------------------------------------- recording added lines

  /** The buffer after the run `seg` has been added behind line `a`. */
  ghost function Spliced<N>(l: seq<N>, a: nat, seg: seq<N>): seq<N>
    requires a < |l|
  {
    l[..a + 1] + seg + l[a + 1..]
  }

  /** `m1` is `m0` with the new nodes `seg` linked in behind line `a`. */
  ghost predicate Grown<N>(m0: Mem<N>, l: seq<N>, a: nat, seg: seq<N>, m1: Mem<N>)
    requires a < |l|
  {
    && (forall n :: n in seg ==> n !in m0.forw && n !in m0.back)
    && m1.forw.Keys == m0.forw.Keys + Elems(seg)
    && m1.back.Keys == m0.back.Keys + Elems(seg)
    && IsList(m1, Spliced(l, a, seg))
    && (forall n :: n in m0.forw && n != l[a] ==> m1.forw[n] == m0.forw[n])
    && (forall n :: n in m0.back && n != Ring(l)[a + 1] ==> m1.back[n] == m0.back[n])
  }

  lemma {:induction false} GrowStart<N>(m: Mem<N>, l: seq<N>, a: nat)
    requires IsList(m, l) && a < |l|
    ensures Grown(m, l, a, [], m)
  {
    assert Spliced(l, a, []) == l;
  }

  lemma {:induction false} GrownNothing<N>(m: Mem<N>, l: seq<N>, a: nat, m1: Mem<N>)
    requires IsList(m, l) && a < |l| && Grown(m, l, a, [], m1)
    ensures m1 == m
  {
    assert Spliced(l, a, []) == l;
    ListLinks(m, l, a);
    ListLinks(m1, l, a);
    assert m1.forw == m.forw && m1.back == m.back;
  }

  lemma {:induction false} SplicedAppend<N>(l: seq<N>, a: nat, seg: seq<N>, x: N)
    requires a < |l|
    ensures var s, c := Spliced(l, a, seg), a + |seg|;
      && |s| == |l| + |seg| && Spliced(s, c, [x]) == Spliced(l, a, seg + [x])
      && Ring(s)[c + 1] == Ring(l)[a + 1]
  {
  }

  /** The memory once a node has been allocated. */
  ghost function Alloc<N>(m: Mem<N>, x: N, f: N, b: N): Mem<N> {
    Mem(m.forw[x := f], m.back[x := b])
  }

  /** Linking a fresh node in behind the last line of a growing run. */
  lemma {:induction false} GrowList<N>(l: seq<N>, a: nat, seg: seq<N>, m1: Mem<N>, x: N, f: N, b: N)
    requires a < |l| && IsList(m1, Spliced(l, a, seg)) && x !in m1.forw && x !in m1.back
    ensures var p := Spliced(l, a, seg)[a + |seg|];
      && p in m1.forw && m1.forw[p] == Ring(l)[a + 1]
      && IsList(Inserted(Alloc(m1, x, f, b), x, p, Ring(l)[a + 1]), Spliced(l, a, seg + [x]))
  {
    var l1 := Spliced(l, a, seg);
    var c := a + |seg|;
    ListLinks(m1, l1, c);
    assert Ring(l1)[c + 1] == Ring(l)[a + 1];
    var mx := Alloc(m1, x, f, b);
    ListKeys(m1, l1);
    assert x !in Elems(l1);
    ListSub(m1, mx, l1);
    InsertList(mx, l1, c, x);
    assert l1[..c + 1] + [x] + l1[c + 1..] == Spliced(l, a, seg + [x]);
  }

  /** `add_line_node` behind the last line of a growing run. */
  lemma {:induction false} GrowStep<N>(m0: Mem<N>, l: seq<N>, a: nat, seg: seq<N>, m1: Mem<N>, x: N, f: N, b: N)
    requires IsList(m0, l) && a < |l| && Grown(m0, l, a, seg, m1)
    requires x !in m1.forw && x !in m1.back
    ensures var p := Spliced(l, a, seg)[a + |seg|];
      && p in m1.forw
      && Grown(m0, l, a, seg + [x], Inserted(Alloc(m1, x, f, b), x, p, Ring(l)[a + 1]))
  {
    GrowList(l, a, seg, m1, x, f, b);
    ListLinks(m0, l, a);
    var p := Spliced(l, a, seg)[a + |seg|];
    var m2 := Inserted(Alloc(m1, x, f, b), x, p, Ring(l)[a + 1]);
    assert p == if |seg| == 0 then l[a] else seg[|seg| - 1];
    var t := seg + [x];
    assert Elems(t) == Elems(seg) + {x};
    assert m2.forw.Keys == m1.forw.Keys + {x};
    assert m2.back.Keys == m1.back.Keys + {x};
  }

  /** Undoing the rest of the stack leaves nodes alone that it was recorded without. */
  lemma {:induction false} UndoFresh<N>(m0: Mem<N>, m1: Mem<N>, es: seq<Item<N>>, n: N)
    requires AllReady(m0, es) && Sub(m0, m1) && n !in m0.forw && n !in m0.back
    requires Has(m1, n)
    ensures AllReady(m1, es)
    ensures Has(UndoAll(m1, es), n)
    ensures UndoAll(m1, es).forw[n] == m1.forw[n] && UndoAll(m1, es).back[n] == m1.back[n]
    decreases |es|
  {
    if |es| > 0 {
      var e := es[|es| - 1];
      Undo1Sub(m0, m1, e);
      Undo1Keys(m0, e);
      UndoFresh(Undo1(m0, e), Undo1(m1, e), es[..|es| - 1], n);
    }
  }

  lemma {:induction false} GrownReady<N>(m0: Mem<N>, l: seq<N>, a: nat, seg: seq<N>, m1: Mem<N>)
    requires IsList(m0, l) && a < |l| && Grown(m0, l, a, seg, m1) && |seg| > 0
    ensures Ready(m1, Add(seg)) && Sub(m0, Undo1(m1, Add(seg)))
    ensures Undo1(m1, Add(seg)) == Link(m1, l[a], Ring(l)[a + 1])
    ensures m1.forw[seg[|seg| - 1]] == Ring(l)[a + 1]
  {
    var l1 := Spliced(l, a, seg);
    ListLinks(m1, l1, a);
    ListLinks(m1, l1, a + |seg|);
    ListLinks(m0, l, a);
    assert l1[a] == l[a] && l1[a + 1] == seg[0] && l1[a + |seg|] == seg[|seg| - 1];
    assert Ring(l1)[a + 1] == seg[0];
    assert Ring(l1)[a + |seg| + 1] == Ring(l)[a + 1];
  }

  lemma {:induction false} GrownChain<N>(m0: Mem<N>, l: seq<N>, a: nat, seg: seq<N>, m1: Mem<N>)
    requires IsList(m0, l) && a < |l| && Grown(m0, l, a, seg, m1) && |seg| > 0
    ensures Chained(Link(m1, l[a], Ring(l)[a + 1]), seg)
  {
    var l1 := Spliced(l, a, seg);
    var r1 := Ring(l1);
    assert seg == r1[a + 1..a + 1 + |seg|];
    PathIff(m1, r1);
    PathSlice(m1, r1, a + 1, a + 1 + |seg|);
    ListLinks(m0, l, a);
    SplicedElems(l, a, seg);
    PathFrame(m1, l[a], Ring(l)[a + 1], seg);
    PathIff(Link(m1, l[a], Ring(l)[a + 1]), seg);
    GrownReady(m0, l, a, seg, m1);
  }

  /** Adding lines, as one item for the whole run. */
  lemma {:induction false} AddKeeps<N>(m0: Mem<N>, l: seq<N>, es: seq<Item<N>>, saved: seq<N>, a: nat, seg: seq<N>,
      m1: Mem<N>)
    requires IsList(m0, l) && UndoOk(m0, l, es, saved) && m0.forw.Keys == m0.back.Keys
    requires a < |l| && Grown(m0, l, a, seg, m1) && |seg| > 0
    ensures UndoOk(m1, Spliced(l, a, seg), es + [Add(seg)], saved)
  {
    var e := Add(seg);
    var s := es + [e];
    var l1 := Spliced(l, a, seg);
    assert s[|s| - 1] == e && s[..|s| - 1] == es;
    GrownReady(m0, l, a, seg, m1);
    UndoPush(m0, m1, es, e);
    ListSub(UndoAll(m0, es), UndoAll(m1, s), saved);
    GrownBags(m0, l, es, saved, a, seg, m1);
    GrownOff(m0, l, a, seg, m1);
    DelChainsFrame(m0, m1, l, es);
    AddChainsSub(UndoAll(m0, es), UndoAll(m1, s), es);
    GrownUndone(m0, l, es, a, seg, m1);
  }

  lemma {:induction false} RunKeeps<N>(m0: Mem<N>, l: seq<N>, es: seq<Item<N>>, saved: seq<N>, a: nat, seg: seq<N>,
      m1: Mem<N>)
    requires IsList(m0, l) && UndoOk(m0, l, es, saved) && m0.forw.Keys == m0.back.Keys
    requires a < |l| && Grown(m0, l, a, seg, m1)
    ensures UndoOk(m1, Spliced(l, a, seg), RunItems(es, seg), saved)
  {
    hide UndoOk, IsList;
    if |seg| == 0 {
      assert seg == [] && Spliced(l, a, seg) == l;
      GrownNothing(m0, l, a, m1);
    } else {
      AddKeeps(m0, l, es, saved, a, seg, m1);
    }
  }

  lemma {:induction false} GrownOff<N>(m0: Mem<N>, l: seq<N>, a: nat, seg: seq<N>, m1: Mem<N>)
    requires IsList(m0, l) && a < |l| && Grown(m0, l, a, seg, m1)
    ensures SameOff(m0, m1, l)
  {
    assert Ring(l)[a + 1] == if a + 1 < |l| then l[a + 1] else l[0];
  }

  /** The added run survives, link by link, the undoing of everything recorded before it. */
  lemma {:induction false} GrownUndone<N>(m0: Mem<N>, l: seq<N>, es: seq<Item<N>>, a: nat, seg: seq<N>, m1: Mem<N>)
    requires IsList(m0, l) && AllReady(m0, es)
    requires a < |l| && Grown(m0, l, a, seg, m1) && |seg| > 0
    requires Ready(m1, Add(seg)) && AllReady(Undo1(m1, Add(seg)), es)
    ensures Chained(UndoAll(Undo1(m1, Add(seg)), es), seg)
  {
    GrownReady(m0, l, a, seg, m1);
    GrownChain(m0, l, a, seg, m1);
    var m2 := Undo1(m1, Add(seg));
    var m3 := UndoAll(m2, es);
    forall n | n in seg
      ensures n in m2.forw ==> n in m3.forw && m3.forw[n] == m2.forw[n]
      ensures n in m2.back ==> n in m3.back && m3.back[n] == m2.back[n]
    {
      assert n in m1.forw && n in m1.back;
      UndoFresh(m0, m2, es, n);
    }
    ChainedFrame(m2, m3, seg);
  }

  lemma {:induction false} GrownBags<N>(m0: Mem<N>, l: seq<N>, es: seq<Item<N>>, saved: seq<N>, a: nat,
      seg: seq<N>, m1: Mem<N>)
    requires IsList(m0, l) && UndoOk(m0, l, es, saved)
    requires a < |l| && Grown(m0, l, a, seg, m1) && |seg| > 0
    ensures RemovedBag(es + [Add(seg)]) == multiset(m1.forw.Keys - Elems(Spliced(l, a, seg)))
    ensures AddedBag(es + [Add(seg)]) == multiset(m1.forw.Keys - Elems(saved))
  {
    hide UndoOk, IsList, AllReady, UndoAll, RemovedBag, AddedBag, Spliced, Grown, Distinct, Flipped, Elems;
    var s := es + [Add(seg)];
    assert s[|s| - 1] == Add(seg) && s[..|s| - 1] == es;
    BagsTop(s);
    UndoOkBags(m0, l, es, saved);
    GrownKeys(m0, l, a, seg, m1);
    FreshBag(m0.forw.Keys, seg, saved);
  }

  lemma {:induction false} UndoOkBags<N>(m: Mem<N>, l: seq<N>, es: seq<Item<N>>, saved: seq<N>)
    requires UndoOk(m, l, es, saved)
    ensures RemovedBag(es) == multiset(m.forw.Keys - Elems(l)) && AddedBag(es) == multiset(m.forw.Keys - Elems(saved))
    ensures Elems(saved) <= m.forw.Keys
  {
    hide AllReady, UndoAll, RemovedBag, AddedBag, IsList, Chained;
    UndoKeys(m, es);
    ListKeys(UndoAll(m, es), saved);
  }

  lemma {:induction false} GrownKeys<N>(m0: Mem<N>, l: seq<N>, a: nat, seg: seq<N>, m1: Mem<N>)
    requires a < |l| && Grown(m0, l, a, seg, m1)
    ensures m1.forw.Keys == m0.forw.Keys + Elems(seg) && Distinct(seg) && (forall n :: n in seg ==> n !in m0.forw.Keys)
    ensures m1.forw.Keys - Elems(Spliced(l, a, seg)) == m0.forw.Keys - Elems(l)
  {
    hide Spliced, Path, Distinct;
    SplicedElems(l, a, seg);
  }

  lemma {:induction false} ListKeys<N>(m: Mem<N>, l: seq<N>)
    requires IsList(m, l)
    ensures Elems(l) <= m.forw.Keys
  {
    ListIff(m, l);
    forall n | n in l ensures n in m.forw {
      var i :| 0 <= i < |l| && l[i] == n;
      assert Has(m, l[i]);
    }
  }

  lemma {:induction false} SplicedElems<N>(l: seq<N>, a: nat, seg: seq<N>)
    requires a < |l|
    ensures Elems(Spliced(l, a, seg)) == Elems(l) + Elems(seg)
    ensures Distinct(Spliced(l, a, seg)) ==> Distinct(seg)
  {
    var l1 := Spliced(l, a, seg);
    assert l == l[..a + 1] + l[a + 1..];
    DistinctIff(l1);
    DistinctIff(seg);
    assert forall i :: 0 <= i < |seg| ==> seg[i] == l1[a + 1 + i];
  }

  lemma {:induction false} FreshBag<N>(keys: set<N>, seg: seq<N>, saved: seq<N>)
    requires Distinct(seg) && Elems(saved) <= keys
    requires forall n :: n in seg ==> n !in keys
    ensures multiset(keys + Elems(seg) - Elems(saved)) == multiset(keys - Elems(saved)) + multiset(seg)
  {
    DistinctBag(seg);
    assert keys + Elems(seg) - Elems(saved) == (keys - Elems(saved)) + Elems(seg);
    assert (keys - Elems(saved)) !! Elems(seg);
  }
}
