/** The list of lines active in a global command. */
module EdActive {
  import opened EdLinks
  import opened EdBuffer

  datatype Active = Active(list: seq<Line>, ptr: int, ndx: int)

  /** The entries still to be visited are distinct lines of the buffer. */
  ghost predicate ActiveOk(a: Active, lines: seq<Line>) {
    && |lines| > 0 && 0 <= a.ptr <= |a.list| && 0 <= a.ndx && (a.ndx < |a.list| || a.ndx == 0)
    && (forall i, j :: 0 <= i < j < |a.list| && a.list[i] != NIL ==> a.list[i] != a.list[j])
    && (forall i :: a.ptr <= i < |a.list| && a.list[i] != NIL ==> a.list[i] in lines[1..])
  }

  /** The list with the entries for the nodes of `gone` cleared. */
  ghost predicate Cleared(a: Active, gone: seq<Line>, a': Active) {
    && |a'.list| == |a.list| && a'.ptr == a.ptr
    && (forall i :: 0 <= i < |a.list| ==> a'.list[i] == if a.list[i] in gone then NIL else a.list[i])
  }

  /** The same for a set of nodes */
  ghost predicate ClearedOf(a: Active, gone: set<Line>, a': Active) {
    && |a'.list| == |a.list| && a'.ptr == a.ptr
    && (forall i :: 0 <= i < |a.list| ==> a'.list[i] == if a.list[i] in gone then NIL else a.list[i])
  }

  lemma {:induction false} ClearedElems(a: Active, gone: seq<Line>, a': Active)
    requires Cleared(a, gone, a')
    ensures ClearedOf(a, Elems(gone), a')
  {
  }

  lemma {:induction false} ClearedNone(a: Active)
    ensures ClearedOf(a, {}, a)
  {
  }

  lemma {:induction false} ClearedMore(a: Active, g: set<Line>, b: Active, h: set<Line>, c: Active)
    requires ClearedOf(a, g, b) && ClearedOf(b, h, c)
    ensures ClearedOf(a, g + h, c)
  {
  }

  lemma {:induction false} ClearedDrops(a: Active, gone: set<Line>, a': Active)
    requires ClearedOf(a, gone, a')
    ensures Dropped(a, a')
  {
  }

  /** Entries are only ever cleared, unless the whole list is. */
  ghost predicate Dropped(a: Active, a': Active) {
    || a'.list == []
    || (&& |a'.list| == |a.list| && a.ptr == a'.ptr
        && forall i :: 0 <= i < |a.list| ==> a'.list[i] == a.list[i] || a'.list[i] == NIL)
  }

  lemma {:induction false} DroppedNone(a: Active)
    ensures Dropped(a, a)
  {
  }

  lemma {:induction false} DroppedTrans(a: Active, b: Active, c: Active)
    requires Dropped(a, b) && Dropped(b, c)
    ensures Dropped(a, c)
  {
  }

  /** Clear the entry for one node, searching once round the list from the last place found. */
  method UnsetActiveNode(a: Active, node: Line, ghost lines: seq<Line>) returns (a': Active)
    requires ActiveOk(a, lines) && node != NIL
    ensures ActiveOk(a', lines) && Cleared(a, [node], a')
  {
    a' := a;
    var i := 0;
    while i < |a.list|
      invariant 0 <= i <= |a.list| && a' == a.(ndx := a'.ndx)
      invariant 0 <= a'.ndx && (a'.ndx < |a.list| || a'.ndx == 0)
      invariant |a.list| > 0 ==> a'.ndx == if a.ndx + i < |a.list| then a.ndx + i else a.ndx + i - |a.list|
      invariant forall k :: 0 <= k < |a.list| && (a.ndx < k <= a.ndx + i || k + |a.list| <= a.ndx + i) ==>
        a.list[k] != node
    {
      a' := a'.(ndx := if a'.ndx + 1 >= |a.list| then 0 else a'.ndx + 1);
      if a'.list[a'.ndx] == node {
        a' := a'.(list := a'.list[a'.ndx := NIL]);
        return;
      }
      i := i + 1;
    }
  }

  /** Remove a range of lines, from the node `np` up to but not including `mp`. */
  method UnsetActiveNodes(s: Ed, a: Active, np: Line, mp: Line, ghost lines: seq<Line>, ghost i: nat, ghost j: nat)
    returns (a': Active)
    requires IsList(M(s), lines) && HeapOk(s) && ActiveOk(a, lines)
    requires 1 <= i <= j <= |lines| && np == Ring(lines)[i] && mp == Ring(lines)[j]
    ensures ActiveOk(a', lines) && Cleared(a, lines[i..j], a')
  {
    a' := a;
    var node := np;
    ghost var k := i;
    DistinctIff(lines);
    while node != mp
      invariant i <= k <= j && node == Ring(lines)[k]
      invariant ActiveOk(a', lines) && Cleared(a, lines[i..k], a')
      decreases j - k
    {
      At(s, lines, k);
      a' := UnsetActiveNode(a', node, lines);
      assert lines[i..k + 1] == lines[i..k] + [node];
      node := s.forw[node];
      k := k + 1;
    }
    assert k == j;
  }

  /** Return the next active line, or NIL when there is none. */
  method NextActiveNode(a: Active, ghost lines: seq<Line>) returns (a': Active, node: Line)
    requires ActiveOk(a, lines)
    ensures ActiveOk(a', lines) && a' == a.(ptr := a'.ptr) && a.ptr <= a'.ptr
    ensures node == NIL ==> a'.ptr == |a.list| && forall i :: a.ptr <= i < |a.list| ==> a.list[i] == NIL
    ensures node != NIL ==>
      && a.ptr < a'.ptr && node == a.list[a'.ptr - 1] && node in lines[1..]
      && (forall i :: a.ptr <= i < a'.ptr - 1 ==> a.list[i] == NIL)
  {
    a' := a;
    while a'.ptr < |a.list| && a'.list[a'.ptr] == NIL
      invariant a.ptr <= a'.ptr <= |a.list| && a' == a.(ptr := a'.ptr)
      invariant forall i :: a.ptr <= i < a'.ptr ==> a.list[i] == NIL
    {
      a' := a'.(ptr := a'.ptr + 1);
    }
    if a'.ptr < |a.list| {
      node, a' := a'.list[a'.ptr], a'.(ptr := a'.ptr + 1);
    } else {
      node := NIL;
    }
  }

  const CLEAR_ACTIVE: Active := Active([], 0, 0)

  ghost predicate Increasing(idx: seq<int>) {
    forall i, j :: 0 <= i < j < |idx| ==> idx[i] < idx[j]
  }

  /** `list` holds the selected lines of the range, in the order of their addresses `idx`. */
  ghost predicate Marked(list: seq<Line>, idx: seq<int>, lines: seq<Line>, from: int, to: int,
      text: map<Line, Text>, selected: Text -> bool)
    requires 0 <= from <= to <= |lines|
  {
    && |idx| == |list| && Increasing(idx)
    && (forall i :: 0 <= i < |idx| ==> from <= idx[i] < to && list[i] == lines[idx[i]])
    && (forall k :: from <= k < to && lines[k] in text ==> (k in idx <==> selected(text[lines[k]])))
  }

  /** Mark the lines of a range that the pattern selects. */
  method BuildActiveList(s: Ed, from: int, to: int, selected: Text -> bool, ghost lines: seq<Line>)
    returns (s': Ed, a: Active, ghost idx: seq<int>)
    requires ListOk(s, lines) && HeapOk(s) && 1 <= from <= to <= s.lastAddr
    ensures s' == s.(lp := lines[from], oAddr := from) && ListOk(s', lines)
    ensures ActiveOk(a, lines) && a.ptr == 0
    ensures Marked(a.list, idx, lines, from, to + 1, s.text, selected)
  {
    var node;
    s', node := SearchLineNode(s, from, lines);
    a, idx := CLEAR_ACTIVE, [];
    var addr := from;
    while addr <= to
      invariant from <= addr <= to + 1 && node == Ring(lines)[addr] && a.ptr == 0 && a.ndx == 0
      invariant Marked(a.list, idx, lines, from, addr, s.text, selected)
    {
      At(s, lines, addr);
      if selected(s.text[node]) {
        a, idx := a.(list := a.list + [node]), idx + [addr];
      }
      node := s.forw[node];
      addr := addr + 1;
    }
    MarkedOk(s, a.list, idx, lines, from, to + 1, selected);
  }

  lemma {:induction false} MarkedOk(s: Ed, list: seq<Line>, idx: seq<int>, lines: seq<Line>, from: int, to: int,
      selected: Text -> bool)
    requires 1 <= from <= to <= |lines| && IsList(M(s), lines) && HeapOk(s)
    requires Marked(list, idx, lines, from, to, s.text, selected)
    ensures ActiveOk(Active(list, 0, 0), lines)
  {
    DistinctIff(lines);
  }
}
