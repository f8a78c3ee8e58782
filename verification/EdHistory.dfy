/** Undo: the stack is popped, each entry undone and flipped, and the flipped stack kept for redo. */
module EdHistory {
  import opened EdLinks
  import opened EdUndo
  import opened EdStack
  import opened EdBuffer
  import opened EdActive

  // ---------------------------------------------------------------- undo

  /** The top entries of the stack are those of the item `e`. */
  ghost predicate TopIs(raw: seq<Entry<Line>>, e: Item<Line>) {
    && |raw| >= Width(e)
    && match e
       case Add(seg) => |seg| > 0 && raw[|raw| - 1] == Entry(UADD, seg[0], seg[|seg| - 1])
       case Del(seg) => |seg| > 0 && raw[|raw| - 1] == Entry(UDEL, seg[0], seg[|seg| - 1])
       case Mov(b1, a1, b2, a2) =>
         && IsMove(raw[|raw| - 1].kind) && IsMove(raw[|raw| - 2].kind)
         && raw[|raw| - 1].head == b2 && raw[|raw| - 1].tail == a2
         && raw[|raw| - 2].head == b1 && raw[|raw| - 2].tail == a1
  }

  /** The stack after the loop has dealt with the item `e` at the top of `raw[..n + 1]`. */
  ghost function FlippedAt(raw: seq<Entry<Line>>, n: nat, e: Item<Line>): seq<Entry<Line>>
    requires Width(e) <= n + 1 <= |raw|
  {
    var low := n + 1 - Width(e);
    raw[low := FlipEntry(raw[low])]
  }

  /** One pass of the loop of `pop_undo_stack`; `n'` is the next entry to look at. */
  method UndoTop(s: Ed, n: nat, ghost e: Item<Line>) returns (s': Ed, n': int)
    requires n < |s.ustack| && TopIs(s.ustack[..n + 1], e) && Ready(M(s), e)
    ensures M(s') == Undo1(M(s), e) && n' == n - Width(e)
    ensures s' == s.(forw := s'.forw, back := s'.back, ustack := FlippedAt(s.ustack, n, e))
  {
    var top := s.ustack[n];
    assert top == s.ustack[..n + 1][n];
    assert (top.kind == UADD <==> e.Add?) && (top.kind == UDEL <==> e.Del?);
    n' := n;
    match top.kind {
    case UADD =>
      s' := LinkNodes(s, s.back[top.head], s.forw[top.tail]);
    case UDEL =>
      s' := LinkNodes(s, s.back[top.head], top.head);
      s' := LinkNodes(s', top.tail, s'.forw[top.tail]);
    case _ =>
      var low := s.ustack[n - 1];
      assert low == s.ustack[..n + 1][n - 1];
      s' := LinkNodes(s, low.head, s.forw[top.head]);
      s' := LinkNodes(s', s'.back[top.tail], low.tail);
      s' := LinkNodes(s', top.head, top.tail);
      n' := n' - 1;
    }
    s' := s'.(ustack := s'.ustack[n' := FlipEntry(s'.ustack[n'])]);
    n' := n' - 1;
  }

  /** Reverse the order of the entries, exchanging them from both ends. */
  method ReverseStack(raw: seq<Entry<Line>>) returns (r: seq<Entry<Line>>)
    ensures r == Reversed(raw)
  {
    r := raw;
    var n := 0;
    while 2 * n < |raw| - 1
      invariant 0 <= 2 * n <= |raw| + 1 && |r| == |raw|
      invariant forall i :: 0 <= i < n && i < |raw| ==> r[i] == raw[|raw| - 1 - i] && r[|raw| - 1 - i] == raw[i]
      invariant forall i :: n <= i < |raw| - n ==> r[i] == raw[i]
    {
      r := r[n := r[|raw| - 1 - n]][|raw| - 1 - n := r[n]];
      n := n + 1;
    }
    ReversedAt(raw);
    assert forall i :: 0 <= i < |raw| ==> r[i] == raw[|raw| - 1 - i];
  }

  /** What the loop of `pop_undo_stack` keeps: the items below `k` are still to be undone. */
  ghost predicate Undoing(s0: Ed, v: View, s: Ed, n: int, k: nat) {
    && -1 <= n < |s0.ustack| == |s.ustack| && k <= |v.items| && (n >= 0 <==> k > 0)
    && Encodes(s0.ustack[..n + 1], v.items[..k])
    && AllReady(M(s0), v.items) && AllReady(M(s), v.items[..k])
    && UndoAll(M(s), v.items[..k]) == UndoAll(M(s0), v.items)
    && s.ustack[..n + 1] == s0.ustack[..n + 1]
    && FlipRaw(s0.ustack) == FlipRaw(s0.ustack[..n + 1]) + s.ustack[n + 1..]
    && s == s0.(forw := s.forw, back := s.back, ustack := s.ustack)
  }

  lemma {:induction false} UndoingStart(s: Ed, v: View)
    requires AllReady(M(s), v.items) && Encodes(s.ustack, v.items)
    ensures Undoing(s, v, s, |s.ustack| - 1, |v.items|)
  {
    assert s.ustack[..|s.ustack|] == s.ustack && v.items[..|v.items|] == v.items && s.ustack[|s.ustack|..] == [];
  }

  lemma {:induction false} UndoingTop(s0: Ed, v: View, s: Ed, n: nat, k: nat)
    requires Undoing(s0, v, s, n, k)
    ensures 0 < k <= |v.items| && n < |s.ustack|
    ensures TopIs(s.ustack[..n + 1], v.items[k - 1]) && Ready(M(s), v.items[k - 1])
  {
    assert v.items[..k][k - 1] == v.items[k - 1];
  }

  lemma {:induction false} UndoingStep(s0: Ed, v: View, s: Ed, n: nat, k: nat, s': Ed)
    requires Undoing(s0, v, s, n, k) && k > 0
    requires TopIs(s.ustack[..n + 1], v.items[k - 1]) && Ready(M(s), v.items[k - 1])
    requires M(s') == Undo1(M(s), v.items[k - 1])
    requires s' == s.(forw := s'.forw, back := s'.back, ustack := FlippedAt(s.ustack, n, v.items[k - 1]))
    ensures Undoing(s0, v, s', n - Width(v.items[k - 1]), k - 1)
  {
    hide Encodes, AllReady, UndoAll, FlipRaw, Ready, Undo1, TopIs;
    UndoingItem(M(s), v.items, k);
    UndoingFlip(s0.ustack, s.ustack, n, v.items[k - 1]);
    UndoingEncodes(s0.ustack, v.items, n, k);
  }

  lemma {:induction false} UndoingItem(m: Mem<Line>, es: seq<Item<Line>>, k: nat)
    requires 0 < k <= |es| && AllReady(m, es[..k])
    ensures Ready(m, es[k - 1]) && AllReady(Undo1(m, es[k - 1]), es[..k - 1])
    ensures UndoAll(Undo1(m, es[k - 1]), es[..k - 1]) == UndoAll(m, es[..k])
  {
    assert es[..k][k - 1] == es[k - 1] && es[..k][..k - 1] == es[..k - 1];
  }

  lemma {:induction false} UndoingEncodes(raw: seq<Entry<Line>>, es: seq<Item<Line>>, n: nat, k: nat)
    requires n < |raw| && 0 < k <= |es| && Encodes(raw[..n + 1], es[..k]) && TopIs(raw[..n + 1], es[k - 1])
    ensures var n' := n - Width(es[k - 1]); n' >= -1 && Encodes(raw[..n' + 1], es[..k - 1]) && (n' >= 0 <==> k - 1 > 0)
  {
    var e, r := es[k - 1], raw[..n + 1];
    var n' := n - Width(e);
    assert es[..k][k - 1] == e && es[..k][..k - 1] == es[..k - 1];
    assert r[..n' + 1] == raw[..n' + 1];
    EncodesEmpty(raw[..n' + 1], es[..k - 1]);
  }

  lemma {:induction false} UndoingFlip(raw0: seq<Entry<Line>>, raw: seq<Entry<Line>>, n: nat, e: Item<Line>)
    requires n < |raw0| == |raw| && raw[..n + 1] == raw0[..n + 1] && TopIs(raw[..n + 1], e)
    requires FlipRaw(raw0) == FlipRaw(raw0[..n + 1]) + raw[n + 1..]
    ensures var n', raw' := n - Width(e), FlippedAt(raw, n, e);
      && raw'[..n' + 1] == raw0[..n' + 1]
      && FlipRaw(raw0) == FlipRaw(raw0[..n' + 1]) + raw'[n' + 1..]
  {
    var n', raw', r := n - Width(e), FlippedAt(raw, n, e), raw0[..n + 1];
    assert r[n] == raw[..n + 1][n] == raw[n];
    assert r[..n' + 1] == raw0[..n' + 1];
    if e.Mov? {
      assert r[n - 1] == raw[..n + 1][n - 1] == raw[n - 1];
      assert FlipRaw(r) == FlipRaw(raw0[..n' + 1]) + [FlipEntry(r[n - 1]), r[n]];
      assert raw'[n' + 1..] == [FlipEntry(r[n - 1]), r[n]] + raw[n + 1..];
    } else {
      assert FlipRaw(r) == FlipRaw(raw0[..n' + 1]) + [FlipEntry(r[n])];
      assert raw'[n' + 1..] == [FlipEntry(r[n])] + raw[n + 1..];
    }
  }

  /** The loop is done: every item has been undone and every entry flipped. */
  ghost predicate AllUndone(s0: Ed, v: View, s: Ed) {
    && AllReady(M(s0), v.items) && M(s) == UndoAll(M(s0), v.items) && s.ustack == FlipRaw(s0.ustack)
    && s == s0.(forw := s.forw, back := s.back, ustack := s.ustack)
  }

  lemma {:induction false} UndoingEnd(s0: Ed, v: View, s: Ed, n: int, k: nat)
    requires Undoing(s0, v, s, n, k) && n < 0
    ensures AllUndone(s0, v, s)
  {
    hide Encodes, AllReady, UndoAll, FlipRaw;
    assert s.ustack[n + 1..] == s.ustack && s0.ustack[..n + 1] == [] && v.items[..k] == [];
    NothingLeft(M(s), v.items[..k], s0.ustack[..n + 1]);
  }

  lemma {:induction false} NothingLeft(m: Mem<Line>, es: seq<Item<Line>>, raw: seq<Entry<Line>>)
    requires |es| == 0 && |raw| == 0
    ensures AllReady(m, es) && UndoAll(m, es) == m && FlipRaw(raw) == []
  {
  }

  /** The view after undo: the buffer and the saved buffer have changed places. */
  ghost function UndoneView(v: View): View {
    View(v.saved, Flipped(v.items), v.lines)
  }

  lemma {:induction false} UndoReady(s: Ed, v: View)
    requires Valid(s, v)
    ensures AllReady(M(s), v.items) && Encodes(s.ustack, v.items) && ListOk(s, v.lines)
  {
  }

  lemma {:induction false} PopValid(s: Ed, v: View, s': Ed)
    requires Valid(s, v) && s.uCurrentAddr >= 0 && s.uAddrLast >= 0
    requires AllReady(M(s), v.items) && M(s') == UndoAll(M(s), v.items)
    requires s' == s.(forw := s'.forw, back := s'.back, lp := s.head, oAddr := 0, modified := s'.modified,
                      ustack := Reversed(FlipRaw(s.ustack)), currentAddr := s.uCurrentAddr,
                      uCurrentAddr := s.currentAddr,
                      lastAddr := s.uAddrLast, uAddrLast := s.lastAddr)
    ensures Valid(s', UndoneView(v))
  {
    hide Encodes, AllReady, UndoAll, FlipRaw, UndoOk, IsList, Flipped, Reversed;
    UndoOkOf(M(s), v.lines, v.items, v.saved);
    PopKeeps(M(s), v.lines, v.items, v.saved);
    FlipEncodes(s.ustack, v.items);
    UndoKeys(M(s), v.items);
    HeapFrame(s, s');
  }

  lemma {:induction false} UndoOkOf(m: Mem<Line>, l: seq<Line>, es: seq<Item<Line>>, saved: seq<Line>)
    requires UndoOk(m, l, es, saved)
    ensures |saved| > 0
  {
  }

  /** Undo the last change to the buffer. */
  method PopUndoStack(s: Ed, act: Active, isglobal: bool, ghost v: View)
    returns (ok: bool, s': Ed, act': Active, ghost v': View)
    requires Valid(s, v)
    ensures ok <==> s.uCurrentAddr >= 0 && s.uAddrLast >= 0
    ensures !ok ==> s' == s && v' == v && act' == act
    ensures ok ==>
      && Valid(s', v') && v' == UndoneView(v) && s'.text == s.text && s'.yank == s.yank && s'.mark == s.mark
      && AllReady(M(s), v.items) && M(s') == UndoAll(M(s), v.items)
      && s'.currentAddr == s.uCurrentAddr && s'.uCurrentAddr == s.currentAddr
      && s'.lastAddr == s.uAddrLast && s'.uAddrLast == s.lastAddr
      && s'.modified == (s.modified || s.ustack != [])
      && act' == if isglobal then CLEAR_ACTIVE else act
  {
    hide Valid, Undoing, AllReady, UndoAll, ListOk, Encodes, UndoneView, TopIs, Ready, Undo1;
    s', act', v' := s, act, v;
    if s.uCurrentAddr < 0 || s.uAddrLast < 0 {
      return false, s', act', v';
    }
    UndoReady(s, v);
    var s1 := if |s.ustack| > 0 then s.(modified := true) else s;
    ModifiedOk(s, s1, v);
    var first;
    s1, first := SearchLineNode(s1, 0, v.lines);
    ListOkHead(s1, v.lines);
    s' := s1;
    var n := |s1.ustack| - 1;
    ghost var k: nat := |v.items|;
    UndoingStart(s1, v);
    while n >= 0
      invariant Undoing(s1, v, s', n, k) && n >= -1
      decreases n
    {
      UndoingTop(s1, v, s', n, k);
      ghost var before := s';
      ghost var e := v.items[k - 1];
      ghost var n0 := n;
      s', n := UndoTop(s', n, e);
      UndoingStep(s1, v, before, n0, k, s');
      k := k - 1;
      UndoingBound(s1, v, s', n, k);
    }
    UndoingBound(s1, v, s', n, k);
    UndoingEnd(s1, v, s', n, k);
    var r := ReverseStack(s'.ustack);
    if isglobal {
      act' := CLEAR_ACTIVE;
    }
    s' := s'.(ustack := r, currentAddr := s.uCurrentAddr, uCurrentAddr := s.currentAddr,
              lastAddr := s.uAddrLast, uAddrLast := s.lastAddr);
    v' := UndoneView(v);
    PopValid(s, v, s');
    ok := true;
  }

  lemma {:induction false} ModifiedOk(s: Ed, s1: Ed, v: View)
    requires ListOk(s, v.lines) && s1 == s.(modified := s1.modified)
    ensures ListOk(s1, v.lines)
  {
  }

  lemma {:induction false} ListOkHead(s: Ed, lines: seq<Line>)
    requires ListOk(s, lines) && s.oAddr == 0
    ensures s.lp == s.head
  {
  }

  lemma {:induction false} UndoingBound(s0: Ed, v: View, s: Ed, n: int, k: nat)
    requires Undoing(s0, v, s, n, k)
    ensures n >= -1 && (n == -1 ==> k == 0)
  {
  }
}
