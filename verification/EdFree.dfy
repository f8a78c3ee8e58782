/** Line marks, and the freeing of the nodes that only undo could bring back. */
module EdFree {
  import opened EdLinks
  import opened EdUndo
  import opened EdStack
  import opened EdBuffer

  // ---------------------------------------------------------------- marks

  /** Mark a line with a letter, given by its place in the alphabet. */
  method MarkLineNode(s: Ed, node: Line, c: int) returns (ok: bool, s': Ed)
    requires MarksOk(s) && node in s.forw && node != NIL
    ensures ok <==> 0 <= c < 26
    ensures !ok ==> s' == s
    ensures ok ==> MarksOk(s') && s' == s.(mark := s.mark[c := node], markno := s'.markno)
  {
    s' := s;
    if c < 0 || c >= 26 {
      return false, s';
    }
    if s.mark[c] == NIL {
      s' := s'.(markno := s'.markno + 1);
    }
    InUseUpdate(s.mark, c, node);
    s' := s'.(mark := s'.mark[c := node]);
    ok := true;
  }

  /** The table without the marks on `gone`. */
  ghost predicate Unmarked(marks: seq<Line>, gone: seq<Line>, marks': seq<Line>) {
    |marks'| == |marks| && forall i :: 0 <= i < |marks| ==> marks'[i] == if marks[i] in gone then NIL else marks[i]
  }

  /** Remove the marks on a line; the search stops when no mark is in use. */
  method UnmarkLineNode(marks: seq<Line>, markno: int, node: Line) returns (marks': seq<Line>, markno': int)
    requires |marks| == 26 && markno == InUse(marks) && node != NIL
    ensures Unmarked(marks, [node], marks') && markno' == InUse(marks')
  {
    marks', markno' := marks, markno;
    var i := 0;
    while markno' != 0 && i < 26
      invariant 0 <= i <= 26 && |marks'| == 26 && markno' == InUse(marks')
      invariant forall k :: 0 <= k < i ==> marks'[k] == if marks[k] == node then NIL else marks[k]
      invariant forall k :: i <= k < 26 ==> marks'[k] == marks[k]
    {
      if marks'[i] == node {
        InUseUpdate(marks', i, NIL);
        marks' := marks'[i := NIL];
        markno' := markno' - 1;
      }
      i := i + 1;
    }
    InUseZero(marks');
  }

  // ---------------------------------------------------------------- freeing

  /** Free one node: it loses its marks, and its address goes to the pool. */
  method FreeNode(s: Ed, node: Line) returns (s': Ed)
    requires HeapOk(s) && MarksOk(s) && node in s.forw
    ensures HeapOk(s') && MarksOk(s') && Unmarked(s.mark, [node], s'.mark)
    ensures s' == s.(forw := s.forw - {node}, back := s.back - {node}, text := s.text - {node}, pool := [node] + s.pool,
                     mark := s'.mark, markno := s'.markno)
  {
    var marks, markno := UnmarkLineNode(s.mark, s.markno, node);
    s' := s.(forw := s.forw - {node}, back := s.back - {node}, text := s.text - {node}, pool := [node] + s.pool,
             mark := marks, markno := markno);
    PoolPush(s.pool, node);
    FreeMarks(s, node, marks);
    assert s'.forw.Keys == s.forw.Keys - {node} && s'.back.Keys == s.back.Keys - {node};
    assert s'.text.Keys == s.text.Keys - {node};
  }

  lemma {:induction false} PoolPush(pool: seq<Line>, n: Line)
    requires Distinct(pool) && n !in pool
    ensures Distinct([n] + pool)
  {
    DistinctIff(pool);
    DistinctIff([n] + pool);
  }

  lemma {:induction false} FreeMarks(s: Ed, node: Line, marks: seq<Line>)
    requires MarksOk(s) && Unmarked(s.mark, [node], marks)
    ensures forall i :: 0 <= i < 26 && marks[i] != NIL ==> marks[i] in s.forw - {node}
  {
  }

  /** The record once the nodes `gone` have been freed */
  ghost predicate Freed(s: Ed, gone: seq<Line>, s': Ed) {
    && HeapOk(s') && MarksOk(s') && Unmarked(s.mark, gone, s'.mark)
    && s'.forw == s.forw - Elems(gone) && s'.back == s.back - Elems(gone) && s'.text == s.text - Elems(gone)
    && s' == s.(forw := s'.forw, back := s'.back, text := s'.text, pool := s'.pool, mark := s'.mark,
                markno := s'.markno)
  }

  lemma {:induction false} FreedNone(s: Ed)
    requires HeapOk(s) && MarksOk(s)
    ensures Freed(s, [], s)
  {
    assert s.forw - Elems([]) == s.forw && s.back - Elems([]) == s.back && s.text - Elems([]) == s.text;
  }

  lemma {:induction false} FreedMore(s: Ed, gone: seq<Line>, s1: Ed, node: Line, s2: Ed)
    requires Freed(s, gone, s1) && HeapOk(s2) && MarksOk(s2) && Unmarked(s1.mark, [node], s2.mark)
    requires s2 == s1.(forw := s1.forw - {node}, back := s1.back - {node}, text := s1.text - {node}, pool := s2.pool,
                       mark := s2.mark, markno := s2.markno)
    ensures Freed(s, gone + [node], s2)
  {
    assert Elems(gone + [node]) == Elems(gone) + {node};
    assert s.forw - Elems(gone + [node]) == s2.forw;
    assert s.back - Elems(gone + [node]) == s2.back;
    assert s.text - Elems(gone + [node]) == s2.text;
  }

  /** Free a run of nodes, from its head up to the node its tail points at. */
  method FreeRun(s: Ed, head: Line, tail: Line, ghost seg: seq<Line>) returns (s': Ed, freed: seq<Line>)
    requires HeapOk(s) && MarksOk(s) && Chained(M(s), seg) && head == seg[0] && tail == seg[|seg| - 1]
    ensures Freed(s, seg, s') && freed == seg
  {
    hide Freed, MarksOk, Distinct;
    var ep := s.forw[tail];
    var lp := head;
    s', freed := s, [];
    ghost var k := 0;
    FreedNone(s);
    RunSteps(s, seg);
    while lp != ep
      invariant 0 <= k <= |seg| && lp == (if k < |seg| then seg[k] else ep)
      invariant Freed(s, seg[..k], s') && freed == seg[..k]
      decreases |seg| - k
    {
      FreedKeeps(s, seg, k, s');
      var next := s'.forw[lp];
      ghost var before := s';
      s' := FreeNode(s', lp);
      FreedMore(s, seg[..k], before, lp, s');
      assert seg[..k + 1] == seg[..k] + [lp];
      freed := freed + [lp];
      lp := next;
      k := k + 1;
    }
    assert seg[..k] == seg;
  }

  lemma {:induction false} RunSteps(s: Ed, seg: seq<Line>)
    requires Chained(M(s), seg)
    ensures forall k :: 0 <= k < |seg| ==> seg[k] in s.forw && seg[k] != s.forw[seg[|seg| - 1]]
    ensures forall k :: 0 <= k < |seg| - 1 ==> seg[k] in s.forw && s.forw[seg[k]] == seg[k + 1]
  {
    PathIff(M(s), seg);
    assert forall k :: 0 <= k < |seg| ==> Has(M(s), seg[k]);
  }

  lemma {:induction false} FreedKeeps(s: Ed, seg: seq<Line>, k: nat, s': Ed)
    requires k < |seg| && Distinct(seg) && seg[k] in s.forw && Freed(s, seg[..k], s')
    ensures seg[k] in s'.forw && s'.forw[seg[k]] == s.forw[seg[k]] && HeapOk(s') && MarksOk(s')
  {
    DistinctIff(seg);
  }

  // ---------------------------------------------------------------- clear_undo_stack

  /** The entries below `u` are those of the items below `k`, except that after the upper
      entry of a move its lower one is left (`half`). */
  ghost predicate Aligned(raw: seq<Entry<Line>>, es: seq<Item<Line>>, u: nat, k: nat, half: bool) {
    && u <= |raw| && k <= |es|
    && if half then k > 0 && es[k - 1].Mov? && u > 0 && IsMove(raw[u - 1].kind) && Encodes(raw[..u - 1], es[..k - 1])
       else Encodes(raw[..u], es[..k])
  }

  /** What the next entry is, and how the alignment moves on. */
  lemma {:induction false} AlignedStep(raw: seq<Entry<Line>>, es: seq<Item<Line>>, u: nat, k: nat, half: bool)
    requires Aligned(raw, es, u, k, half) && u > 0
    ensures k > 0
    ensures half ==> raw[u - 1].kind != UDEL && !es[k - 1].Del? && Aligned(raw, es, u - 1, k - 1, false)
    ensures !half && es[k - 1].Mov? ==> raw[u - 1].kind != UDEL && Aligned(raw, es, u - 1, k, true)
    ensures !half && es[k - 1].Add? ==> raw[u - 1].kind != UDEL && Aligned(raw, es, u - 1, k - 1, false)
    ensures !half && es[k - 1].Del? ==>
      && |es[k - 1].seg| > 0 && raw[u - 1] == Entry(UDEL, es[k - 1].seg[0], es[k - 1].seg[|es[k - 1].seg| - 1])
      && Aligned(raw, es, u - 1, k - 1, false)
  {
    if !half {
      var r := raw[..u];
      EncodesEmpty(r, es[..k]);
      assert es[..k][k - 1] == es[k - 1] && es[..k][..k - 1] == es[..k - 1];
      assert r[u - 1] == raw[u - 1] && r[..u - 1] == raw[..u - 1];
      if es[k - 1].Mov? {
        assert r[u - 2] == raw[u - 2] && r[..u - 2] == raw[..u - 2];
      }
    }
  }

  /** The nodes `freed` so far, and those of the `Del` items below `k`, are together the nodes
      that were off the buffer, each once. */
  ghost predicate Clearing(s: Ed, v: View, freed: seq<Line>, k: nat, s': Ed) {
    && k <= |v.items| && Freed(s, freed, s')
    && multiset(freed) + RemovedBag(v.items[..k]) == RemovedBag(v.items)
    && RemovedBag(v.items[..k]) == multiset(s'.forw.Keys - Elems(v.lines))
  }

  lemma {:induction false} ClearingStart(s: Ed, v: View)
    requires Valid(s, v)
    ensures Clearing(s, v, [], |v.items|, s)
  {
    assert v.items[..|v.items|] == v.items;
    FreedNone(s);
  }

  lemma {:induction false} ClearingSkip(s: Ed, v: View, freed: seq<Line>, k: nat, s': Ed)
    requires Clearing(s, v, freed, k, s') && k > 0 && !v.items[k - 1].Del?
    ensures Clearing(s, v, freed, k - 1, s')
  {
    hide Freed, RemovedBag;
    RemovedTop(v.items, k);
    assert Dels(v.items[k - 1]) == multiset{};
  }

  lemma {:induction false} RemovedTop(es: seq<Item<Line>>, k: nat)
    requires 0 < k <= |es|
    ensures RemovedBag(es[..k]) == RemovedBag(es[..k - 1]) + Dels(es[k - 1])
  {
    assert es[..k][k - 1] == es[k - 1] && es[..k][..k - 1] == es[..k - 1];
  }

  /** The run of the next `Del` item is still intact. */
  lemma {:induction false} ClearingChain(s: Ed, v: View, freed: seq<Line>, k: nat, s': Ed)
    requires Valid(s, v) && Clearing(s, v, freed, k, s') && k > 0 && v.items[k - 1].Del?
    ensures Chained(M(s'), v.items[k - 1].seg) && HeapOk(s') && MarksOk(s')
    ensures Elems(v.items[k - 1].seg) <= s'.forw.Keys - Elems(v.lines)
  {
    hide RemovedBag, Chained, HeapOk, MarksOk, ListOk, AllReady, UndoAll, IsList, Encodes, Unmarked;
    var seg := v.items[k - 1].seg;
    forall n | n in seg ensures n in s'.forw.Keys - Elems(v.lines) {
      assert v.items[..k][k - 1] == v.items[k - 1];
      InRemoved(v.items[..k], k - 1, n);
    }
    FreedFrame(s, freed, s', seg);
    ChainedFrame(M(s), M(s'), seg);
  }

  /** Nodes that are still allocated have kept their links. */
  lemma {:induction false} FreedFrame(s: Ed, gone: seq<Line>, s': Ed, seg: seq<Line>)
    requires Freed(s, gone, s') && forall n :: n in seg ==> n in s'.forw
    ensures forall n :: n in seg && n in M(s).forw ==> n in M(s').forw && M(s').forw[n] == M(s).forw[n]
    ensures forall n :: n in seg && n in M(s).back ==> n in M(s').back && M(s').back[n] == M(s).back[n]
  {
    hide MarksOk, Unmarked;
  }

  lemma {:induction false} ClearingFree(s: Ed, v: View, freed: seq<Line>, k: nat, s1: Ed, s2: Ed)
    requires Clearing(s, v, freed, k, s1) && k > 0 && v.items[k - 1].Del?
    requires Distinct(v.items[k - 1].seg) && Elems(v.items[k - 1].seg) <= s1.forw.Keys - Elems(v.lines)
    requires Freed(s1, v.items[k - 1].seg, s2)
    ensures Clearing(s, v, freed + v.items[k - 1].seg, k - 1, s2)
  {
    hide Freed, Distinct, RemovedBag, Elems;
    var seg := v.items[k - 1].seg;
    RemovedTop(v.items, k);
    FreedJoin(s, freed, s1, seg, s2);
    FreedKeys(s1, seg, s2);
    BagStep(freed, seg, RemovedBag(v.items[..k - 1]), RemovedBag(v.items));
    SetMinus(s1.forw.Keys - Elems(v.lines), seg, RemovedBag(v.items[..k - 1]));
    SetSwap(s1.forw.Keys, Elems(seg), Elems(v.lines));
  }

  lemma {:induction false} BagStep(freed: seq<Line>, seg: seq<Line>, rest: multiset<Line>, all: multiset<Line>)
    requires multiset(freed) + (rest + multiset(seg)) == all
    ensures multiset(freed + seg) + rest == all
  {
  }

  lemma {:induction false} SetSwap(a: set<Line>, b: set<Line>, c: set<Line>)
    ensures (a - b) - c == (a - c) - b
  {
  }

  lemma {:induction false} FreedKeys(s: Ed, gone: seq<Line>, s': Ed)
    requires Freed(s, gone, s')
    ensures s'.forw.Keys == s.forw.Keys - Elems(gone)
  {
  }

  lemma {:induction false} FreedJoin(s: Ed, gone: seq<Line>, s1: Ed, more: seq<Line>, s2: Ed)
    requires Freed(s, gone, s1) && Freed(s1, more, s2)
    ensures Freed(s, gone + more, s2)
  {
    assert Elems(gone + more) == Elems(gone) + Elems(more);
    assert s2.forw == s.forw - Elems(gone + more);
    assert s2.back == s.back - Elems(gone + more);
    assert s2.text == s.text - Elems(gone + more);
  }

  lemma {:induction false} SetMinus(a: set<Line>, seg: seq<Line>, bag: multiset<Line>)
    requires Distinct(seg) && Elems(seg) <= a && bag + multiset(seg) == multiset(a)
    ensures bag == multiset(a - Elems(seg))
  {
    DistinctBag(seg);
    assert a == (a - Elems(seg)) + Elems(seg);
    assert bag == (bag + multiset(seg)) - multiset(seg);
  }

  /** The view once the stack is cleared: undo would restore the buffer as it is. */
  ghost function ClearedView(v: View): View {
    View(v.lines, [], v.lines)
  }

  lemma {:induction false} ClearAll(s: Ed, v: View, freed: seq<Line>, s1: Ed)
    requires Valid(s, v) && Clearing(s, v, freed, 0, s1)
    ensures multiset(freed) == multiset(s.forw.Keys - Elems(v.lines)) && s1.forw.Keys - Elems(v.lines) == {}
    ensures Freed(s, freed, s1)
  {
    hide IsList, UndoOk, Freed;
    assert v.items[..0] == [];
    EmptyBag(s1.forw.Keys - Elems(v.lines));
    RemovedIs(M(s), v);
  }

  lemma {:induction false} ClearValid(s: Ed, v: View, freed: seq<Line>, s1: Ed)
    requires Valid(s, v) && Clearing(s, v, freed, 0, s1)
    ensures Valid(s1.(ustack := [], uCurrentAddr := s1.currentAddr, uAddrLast := s1.lastAddr), ClearedView(v))
    ensures multiset(freed) == multiset(s.forw.Keys - Elems(v.lines)) && s1.forw.Keys == Elems(v.lines)
  {
    hide IsList, UndoOk, Freed, Clearing, HeapOk, MarksOk, Elems;
    ClearAll(s, v, freed, s1);
    ListKeys(M(s), v.lines);
    ClearedKeys(s, v, freed, s1);
    ListRestrict(M(s), M(s1), v.lines);
    SameSet(s1.forw.Keys, Elems(v.lines));
    ClearKeeps(M(s1), v.lines);
    ClearedOk(s1, s1.(ustack := [], uCurrentAddr := s1.currentAddr, uAddrLast := s1.lastAddr));
  }

  lemma {:induction false} SameSet(a: set<Line>, b: set<Line>)
    requires a - b == {} && b <= a
    ensures a == b
  {
    forall n | n in a ensures n in b {
      assert n in b || n in a - b;
    }
  }

  lemma {:induction false} ClearedOk(s1: Ed, s2: Ed)
    requires HeapOk(s1) && MarksOk(s1)
    requires s2 == s1.(ustack := s2.ustack, uCurrentAddr := s2.uCurrentAddr, uAddrLast := s2.uAddrLast)
    ensures HeapOk(s2) && MarksOk(s2)
  {
  }

  lemma {:induction false} EmptyBag(a: set<Line>)
    requires multiset(a) == multiset{}
    ensures a == {}
  {
    assert |multiset(a)| == |a|;
  }

  lemma {:induction false} RemovedIs(m: Mem<Line>, v: View)
    requires UndoOk(m, v.lines, v.items, v.saved)
    ensures RemovedBag(v.items) == multiset(m.forw.Keys - Elems(v.lines))
  {
  }

  lemma {:induction false} ClearedKeys(s: Ed, v: View, freed: seq<Line>, s1: Ed)
    requires Valid(s, v) && Freed(s, freed, s1) && multiset(freed) == multiset(s.forw.Keys - Elems(v.lines))
    requires Elems(v.lines) <= s.forw.Keys
    ensures Elems(v.lines) <= s1.forw.Keys && s1.forw.Keys == s1.back.Keys && Sub(M(s1), M(s))
    ensures HeapOk(s1) && MarksOk(s1)
    ensures s1 == s.(forw := s1.forw, back := s1.back, text := s1.text, pool := s1.pool, mark := s1.mark,
                     markno := s1.markno)
  {
    forall n | n in v.lines ensures n in s1.forw {
      assert n in Elems(v.lines) && n !in multiset(freed);
    }
  }

  /** A list is still a list when nodes off it are gone. */
  lemma {:induction false} ListRestrict(m: Mem<Line>, m': Mem<Line>, l: seq<Line>)
    requires IsList(m, l) && Sub(m', m) && Elems(l) <= m'.forw.Keys && m'.forw.Keys == m'.back.Keys
    ensures IsList(m', l)
  {
    ListIff(m, l);
    ListIff(m', l);
    assert forall i :: 0 <= i < |l| ==> l[i] in Elems(l);
    var r := Ring(l);
    forall i | 0 <= i < |r| ensures Has(m', r[i]) {
      assert r[i] == if i < |l| then l[i] else l[0];
    }
  }

  /** Free the nodes that only undo could bring back, and start recording afresh. */
  method ClearUndoStack(s: Ed, ghost v: View) returns (s': Ed, freed: seq<Line>, ghost v': View)
    requires Valid(s, v)
    ensures Valid(s', v') && v' == ClearedView(v)
    ensures multiset(freed) == multiset(s.forw.Keys - Elems(v.lines)) && s'.forw.Keys == Elems(v.lines)
    ensures Unmarked(s.mark, freed, s'.mark)
    ensures s'.currentAddr == s.currentAddr && s'.lastAddr == s.lastAddr && s'.yank == s.yank
    ensures s'.modified == s.modified
    ensures s'.text == s.text - Elems(freed)
    ensures s'.uCurrentAddr == s.currentAddr && s'.uAddrLast == s.lastAddr
  {
    hide Valid, Clearing, Aligned, Freed, Chained, HeapOk, MarksOk, RemovedBag;
    s', freed := s, [];
    var u := |s.ustack|;
    ghost var k: nat, half := |v.items|, false;
    ClearingStart(s, v);
    AlignedStart(s, v);
    while u > 0
      invariant 0 <= u <= |s.ustack| && Aligned(s.ustack, v.items, u, k, half) && Clearing(s, v, freed, k, s')
    {
      AlignedStep(s.ustack, v.items, u, k, half);
      ClearingBound(s, v, freed, k, s');
      u := u - 1;
      if s.ustack[u].kind == UDEL {
        var more;
        ghost var before := s';
        ClearingChain(s, v, freed, k, s');
        ChainedDistinct(M(s'), v.items[k - 1].seg);
        s', more := FreeRun(s', s.ustack[u].head, s.ustack[u].tail, v.items[k - 1].seg);
        ClearingFree(s, v, freed, k, before, s');
        freed := freed + more;
        k := k - 1;
      } else if !half && v.items[k - 1].Mov? {
        half := true;
      } else {
        ClearingSkip(s, v, freed, k, s');
        half, k := false, k - 1;
      }
    }
    AlignedEnd(s.ustack, v.items, k, half);
    ClearValid(s, v, freed, s');
    ClearingFrame(s, v, freed, k, s');
    s' := s'.(ustack := [], uCurrentAddr := s'.currentAddr, uAddrLast := s'.lastAddr);
    v' := ClearedView(v);
  }

  lemma {:induction false} AlignedStart(s: Ed, v: View)
    requires Valid(s, v)
    ensures Aligned(s.ustack, v.items, |s.ustack|, |v.items|, false)
  {
    assert s.ustack[..|s.ustack|] == s.ustack && v.items[..|v.items|] == v.items;
  }

  lemma {:induction false} AlignedEnd(raw: seq<Entry<Line>>, es: seq<Item<Line>>, k: nat, half: bool)
    requires Aligned(raw, es, 0, k, half)
    ensures k == 0
  {
  }

  lemma {:induction false} ClearingBound(s: Ed, v: View, freed: seq<Line>, k: nat, s': Ed)
    requires Clearing(s, v, freed, k, s')
    ensures k <= |v.items|
  {
  }

  lemma {:induction false} ClearingFrame(s: Ed, v: View, freed: seq<Line>, k: nat, s': Ed)
    requires Clearing(s, v, freed, k, s')
    ensures Unmarked(s.mark, freed, s'.mark) && s'.text == s.text - Elems(freed)
    ensures s' == s.(forw := s'.forw, back := s'.back, text := s'.text, pool := s'.pool, mark := s'.mark,
                     markno := s'.markno)
  {
  }

  lemma {:induction false} ChainedDistinct(m: Mem<Line>, seg: seq<Line>)
    requires Chained(m, seg)
    ensures Distinct(seg) && |seg| > 0
  {
  }
}
