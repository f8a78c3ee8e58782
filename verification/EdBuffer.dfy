/** ed's line buffer: a circular doubly linked list edited by relinking, with a cached
    position, an undo stack of node pointers and line marks.

    Nodes are addresses.  The static variables of the editor are the fields of one record;
    the two pointers and the text of every allocated node are kept in maps, and a freed
    address is the first to be handed out again. */
module EdBuffer {
  import opened EdLinks
  import opened EdUndo
  import opened EdStack

  type Line = int

  const NIL: Line := 0

  /** The text of a line, without its newline */
  datatype Text = Text(chars: seq<char>)

  datatype Ed = Ed(
    head: Line,                 // buffer_head
    forw: map<Line, Line>,      // q_forw, ...
    back: map<Line, Line>,      // ... q_back ...
    text: map<Line, Text>,      // ... and the text of the allocated nodes
    pool: seq<Line>,            // freed addresses
    brk: Line,                  // the lowest address never allocated
    currentAddr: int,
    lastAddr: int,
    modified: bool,
    lp: Line,                   // search_line_node's cached node ...
    oAddr: int,                 // ... and its address
    yank: seq<Text>,            // the cut buffer
    ustack: seq<Entry<Line>>,
    uCurrentAddr: int,
    uAddrLast: int,
    mark: seq<Line>,
    markno: int)

  /** What the record stands for: the buffer (the head, then lines 1, 2, ...), the items on
      the undo stack, and the buffer that undo restores. */
  datatype View = View(lines: seq<Line>, items: seq<Item<Line>>, saved: seq<Line>)

  // ---------------------------------------------------------------- invariants

  ghost function M(s: Ed): Mem<Line> {
    Mem(s.forw, s.back)
  }

  /** Every address is unused, or allocated, or in the pool. */
  ghost predicate HeapOk(s: Ed) {
    && s.forw.Keys == s.back.Keys && s.back.Keys == s.text.Keys
    && (forall n :: n in s.forw ==> 0 < n < s.brk)
    && (forall n :: n in s.pool ==> 0 < n < s.brk && n !in s.forw)
    && Distinct(s.pool) && 0 < s.brk
  }

  /** The list is well linked, the counters are right, and the cache names the node a walk
      from the head would find. */
  ghost predicate ListOk(s: Ed, lines: seq<Line>) {
    && IsList(M(s), lines) && lines[0] == s.head
    && s.lastAddr == |lines| - 1
    && 0 <= s.oAddr <= s.lastAddr && s.lp == lines[s.oAddr]
  }

  ghost predicate Undoable(s: Ed, v: View) {
    && UndoOk(M(s), v.lines, v.items, v.saved)
    && Encodes(s.ustack, v.items)
    && v.saved[0] == s.head
    && (s.uCurrentAddr >= 0 && s.uAddrLast >= 0 ==>
          s.uAddrLast == |v.saved| - 1 && s.uCurrentAddr <= s.uAddrLast)
  }

  ghost predicate MarksOk(s: Ed) {
    && |s.mark| == 26
    && (forall i :: 0 <= i < 26 && s.mark[i] != NIL ==> s.mark[i] in s.forw)
    && s.markno == InUse(s.mark)
  }

  ghost predicate Valid(s: Ed, v: View) {
    HeapOk(s) && ListOk(s, v.lines) && Undoable(s, v) && MarksOk(s) && 0 <= s.currentAddr <= s.lastAddr
  }

  /** What no edit touches: the marks and the addresses saved for undo. */
  ghost predicate SameRest(s: Ed, s': Ed) {
    && s'.head == s.head && s'.mark == s.mark && s'.markno == s.markno
    && s'.uCurrentAddr == s.uCurrentAddr && s'.uAddrLast == s.uAddrLast
  }

  lemma {:induction false} Bounds(s: Ed, v: View)
    requires Valid(s, v)
    ensures |v.lines| == s.lastAddr + 1 && 0 <= s.currentAddr <= s.lastAddr
    ensures IsList(M(s), v.lines)
  {
  }

  // ---------------------------------------------------------------- reading the list

  lemma {:induction false} At(s: Ed, lines: seq<Line>, i: nat)
    requires IsList(M(s), lines) && i < |lines|
    ensures lines[i] in s.forw && lines[i] in s.back && Ring(lines)[i + 1] in s.forw && Ring(lines)[i + 1] in s.back
    ensures s.forw[lines[i]] == Ring(lines)[i + 1] && s.back[Ring(lines)[i + 1]] == lines[i]
  {
    ListLinks(M(s), lines, i);
  }

  /** An address, brought into the range 0 to `lastAddr` */
  ghost function Clamp(s: Ed, addr: int): int {
    if addr < 0 then 0 else if addr > s.lastAddr then s.lastAddr else addr
  }

  function IncAddr(s: Ed, addr: int): int {
    if addr + 1 > s.lastAddr then 0 else addr + 1
  }

  /** Follow `q_forw` from address `i` to address `j`. */
  method WalkForw(s: Ed, node: Line, i: int, j: int, ghost lines: seq<Line>) returns (r: Line)
    requires IsList(M(s), lines) && 0 <= i <= j < |lines| && node == lines[i]
    ensures r == lines[j]
  {
    r := node;
    var k := i;
    while k < j
      invariant i <= k <= j && r == lines[k]
    {
      At(s, lines, k);
      k := k + 1;
      r := s.forw[r];
    }
  }

  /** Follow `q_back` from address `i` to address `j`. */
  method WalkBack(s: Ed, node: Line, i: int, j: int, ghost lines: seq<Line>) returns (r: Line)
    requires IsList(M(s), lines) && 0 <= j <= i < |lines| && node == lines[i]
    ensures r == lines[j]
  {
    r := node;
    var k := i;
    while k > j
      invariant j <= k <= i && r == lines[k]
    {
      At(s, lines, k - 1);
      k := k - 1;
      r := s.back[r];
    }
  }

  /** Return the line at an address, walking from the nearest of the cached node, the head
      and the last line.  Total: an address off either end gives the end. */
  method SearchLineNode(s: Ed, addr: int, ghost lines: seq<Line>) returns (s': Ed, node: Line)
    requires ListOk(s, lines)
    ensures node == lines[Clamp(s, addr)]
    ensures s' == s.(lp := node, oAddr := Clamp(s, addr)) && ListOk(s', lines)
  {
    if s.oAddr < addr {
      if s.oAddr + s.lastAddr >= 2 * addr {
        node := WalkForw(s, s.lp, s.oAddr, addr, lines);
        s' := s.(lp := node, oAddr := addr);
      } else {
        At(s, lines, s.lastAddr);
        node := s.back[s.head];
        s' := s.(lp := node, oAddr := s.lastAddr);
        if s'.oAddr > addr {
          node := WalkBack(s, node, s'.oAddr, addr, lines);
          s' := s.(lp := node, oAddr := addr);
        }
      }
    } else if s.oAddr <= 2 * addr {
      node := WalkBack(s, s.lp, s.oAddr, addr, lines);
      s' := s.(lp := node, oAddr := addr);
    } else {
      node := s.head;
      s' := s.(lp := node, oAddr := 0);
      if s'.oAddr < addr {
        node := WalkForw(s, node, 0, addr, lines);
        s' := s.(lp := node, oAddr := addr);
      }
    }
  }

  /** Return the address of a node.  A node that is not on the list gives -1, except that in
      an empty buffer it gives 0. */
  method GetLineNodeAddr(s: Ed, node: Line, ghost lines: seq<Line>) returns (addr: int)
    requires ListOk(s, lines)
    ensures node in lines ==> 0 <= addr < |lines| && lines[addr] == node
    ensures node !in lines ==> addr == if s.lastAddr == 0 then 0 else -1
  {
    var cp := s.head;
    addr := 0;
    DistinctIff(lines);
    while cp != node
      invariant 0 <= addr < |lines| && cp == lines[addr]
      invariant node !in lines[..addr]
      decreases |lines| - addr
    {
      At(s, lines, addr);
      cp := s.forw[cp];
      if cp == s.head {
        assert Ring(lines)[addr + 1] == lines[0];
        assert lines[..addr] + [lines[addr]] == lines;
        if addr != 0 {
          addr := -1;
        }
        return;
      }
      addr := addr + 1;
    }
  }

  /** Link next and previous nodes. */
  function LinkNodes(s: Ed, prev: Line, next: Line): (s': Ed)
    ensures M(s') == Link(M(s), prev, next)
  {
    s.(forw := s.forw[prev := next], back := s.back[next := prev])
  }

  // ---------------------------------------------------------------- the undo stack

  /** Record an entry; addresses are looked up, a negative one meaning the current line. */
  method PushUndoStack(s: Ed, kind: Kind, from: int, to: int, ghost lines: seq<Line>) returns (s': Ed)
    requires ListOk(s, lines)
    ensures var t, h := Clamp(s, if to >= 0 then to else s.currentAddr),
        Clamp(s, if from >= 0 then from else s.currentAddr);
      s' == s.(lp := lines[h], oAddr := h, ustack := s.ustack + [Entry(kind, lines[h], lines[t])])
    ensures ListOk(s', lines)
  {
    var s1, tail := SearchLineNode(s, if to >= 0 then to else s.currentAddr, lines);
    var s2, hd := SearchLineNode(s1, if from >= 0 then from else s1.currentAddr, lines);
    s' := s2.(ustack := s2.ustack + [Entry(kind, hd, tail)]);
  }

  // ---------------------------------------------------------------- adding lines

  /** Add a line node in the buffer behind the given line. */
  method AddLineNode(s: Ed, node: Line, addr: int, ghost lines: seq<Line>) returns (s': Ed)
    requires ListOk(s, lines) && 0 <= addr <= s.lastAddr && node in s.forw && node in s.back && node !in lines
    ensures ListOk(s', Spliced(lines, addr, [node]))
    ensures M(s') == Inserted(M(s), node, lines[addr], Ring(lines)[addr + 1])
    ensures s'.forw.Keys == s.forw.Keys && s'.back.Keys == s.back.Keys
    ensures s' == s.(forw := s'.forw, back := s'.back, lp := lines[addr], oAddr := addr, lastAddr := s.lastAddr + 1)
  {
    var s1, p := SearchLineNode(s, addr, lines);
    At(s1, lines, addr);
    InsertList(M(s), lines, addr, node);
    var s2 := LinkNodes(LinkNodes(s1, node, s1.forw[p]), p, node);
    s' := s2.(lastAddr := s2.lastAddr + 1);
  }

  lemma {:induction false} PoolPop(pool: seq<Line>)
    requires Distinct(pool) && |pool| > 0
    ensures pool[0] in pool && pool[0] !in pool[1..] && Distinct(pool[1..])
    ensures forall n :: n in pool[1..] ==> n in pool
  {
    DistinctIff(pool);
    DistinctIff(pool[1..]);
  }

  /** Relinking allocated nodes leaves the heap as it was. */
  lemma {:induction false} HeapFrame(s: Ed, s': Ed)
    requires HeapOk(s) && s'.pool == s.pool && s'.brk == s.brk && s'.text.Keys == s.text.Keys
    requires s'.forw.Keys == s.forw.Keys && s'.back.Keys == s.back.Keys
    ensures HeapOk(s')
  {
  }

  /** Allocate a node with the given text. */
  method DupLineNode(s: Ed, t: Text) returns (s': Ed, node: Line)
    requires HeapOk(s)
    ensures HeapOk(s') && node != NIL && node !in s.forw
    ensures s' == s.(forw := s.forw[node := node], back := s.back[node := node], text := s.text[node := t],
                     pool := s'.pool, brk := s'.brk)
  {
    s' := s;
    if |s.pool| > 0 {
      PoolPop(s.pool);
      node, s' := s.pool[0], s.(pool := s.pool[1..]);
    } else {
      node, s' := s.brk, s.(brk := s.brk + 1);
    }
    s' := s'.(forw := s.forw[node := node], back := s.back[node := node], text := s.text[node := t]);
  }

  /** Allocate a line and link it in behind the current line, which it becomes. */
  method AddNext(s: Ed, t: Text, ghost lines: seq<Line>) returns (s': Ed, node: Line)
    requires HeapOk(s) && ListOk(s, lines) && 0 <= s.currentAddr <= s.lastAddr
    ensures HeapOk(s') && ListOk(s', Spliced(lines, s.currentAddr, [node]))
    ensures node != NIL && node !in s.forw && node !in s.back && node !in s.text
    ensures M(s') == Inserted(Alloc(M(s), node, node, node), node, lines[s.currentAddr], Ring(lines)[s.currentAddr + 1])
    ensures s' == s.(forw := s'.forw, back := s'.back, text := s.text[node := t], pool := s'.pool, brk := s'.brk,
                     lp := s'.lp, oAddr := s'.oAddr, lastAddr := s.lastAddr + 1, currentAddr := s.currentAddr + 1)
  {
    var s1;
    s1, node := DupLineNode(s, t);
    ListKeys(M(s), lines);
    ListSub(M(s), M(s1), lines);
    assert node !in Elems(lines);
    At(s, lines, s.currentAddr);
    s' := AddLineNode(s1, node, s1.currentAddr, lines);
    s' := s'.(currentAddr := s'.currentAddr + 1);
    HeapFrame(s1, s');
  }

  /** A run of lines `seg` has been added behind line `a` of the valid buffer `s0` and recorded. */
  ghost predicate Growing(s0: Ed, v0: View, a: nat, seg: seq<Line>, s: Ed)
    requires a < |v0.lines|
  {
    && Grown(M(s0), v0.lines, a, seg, M(s)) && HeapOk(s) && ListOk(s, Spliced(v0.lines, a, seg))
    && s.currentAddr == a + |seg| && s.ustack == RunEntries(s0.ustack, seg)
    && s.modified == (s0.modified || |seg| > 0)
    && s0 == s.(forw := s0.forw, back := s0.back, text := s0.text, pool := s0.pool, brk := s0.brk, lp := s0.lp,
                oAddr := s0.oAddr, lastAddr := s0.lastAddr, currentAddr := s0.currentAddr, ustack := s0.ustack,
                modified := s0.modified)
  }

  ghost function GrownView(v0: View, a: nat, seg: seq<Line>): View
    requires a < |v0.lines|
  {
    View(Spliced(v0.lines, a, seg), RunItems(v0.items, seg), v0.saved)
  }

  lemma {:induction false} GrowingStart(s0: Ed, v0: View, a: nat)
    requires Valid(s0, v0) && a < |v0.lines|
    ensures Growing(s0, v0, a, [], s0.(currentAddr := a))
  {
    hide UndoOk, Encodes, IsList, Grown, InUse, Distinct;
    GrowStart(M(s0), v0.lines, a);
    assert Spliced(v0.lines, a, []) == v0.lines;
  }

  lemma {:induction false} GrowingEnd(s0: Ed, v0: View, a: nat, seg: seq<Line>, s: Ed)
    requires Valid(s0, v0) && a < |v0.lines| && Growing(s0, v0, a, seg, s)
    ensures Valid(s, GrownView(v0, a, seg)) && s.currentAddr == a + |seg| && SameRest(s0, s) && s.yank == s0.yank
    ensures s.modified == (s0.modified || |seg| > 0)
  {
    RunKeeps(M(s0), v0.lines, v0.items, v0.saved, a, seg, M(s));
    RunEncodes(s0.ustack, v0.items, seg);
  }

  /** Record a line that has just become the current line: a first line of a run by a new
      entry, a later one by moving the entry's tail. */
  method RecordAdd(s: Ed, node: Line, up: int, ghost lines: seq<Line>, ghost raw: seq<Entry<Line>>,
      ghost seg: seq<Line>)
    returns (s': Ed, up': int)
    requires ListOk(s, lines) && 0 <= s.currentAddr <= s.lastAddr && node == lines[s.currentAddr]
    requires up == (if |seg| == 0 then -1 else |raw|) && s.ustack == RunEntries(raw, seg)
    ensures ListOk(s', lines) && up' == |raw|
    ensures s' == s.(lp := s'.lp, oAddr := s'.oAddr, ustack := RunEntries(raw, seg + [node]))
  {
    if up >= 0 {
      s' := s.(ustack := s.ustack[up := s.ustack[up].(tail := node)]);
      up' := up;
    } else {
      up' := |s.ustack|;
      s' := PushUndoStack(s, UADD, -1, -1, lines);
    }
  }

  /** One line of a growing run: add it, make it the current line, and record it. */
  method AddRecorded(s: Ed, t: Text, up: int, ghost s0: Ed, ghost v0: View, ghost a: nat, ghost seg: seq<Line>)
    returns (s': Ed, node: Line, up': int)
    requires IsList(M(s0), v0.lines) && a < |v0.lines| && Growing(s0, v0, a, seg, s)
    requires up == if |seg| == 0 then -1 else |s0.ustack|
    ensures Growing(s0, v0, a, seg + [node], s')
    ensures up' == |s0.ustack| && node != NIL && node !in s.text && s'.text == s.text[node := t]
  {
    hide Grown, IsList, HeapOk, RunEntries, Inserted, Alloc, ListOk, Growing;
    GrowingIs(s0, v0, a, seg, s);
    var s1;
    ghost var l1 := Spliced(v0.lines, a, seg);
    s1, node := AddNext(s, t, l1);
    GrowStep(M(s0), v0.lines, a, seg, M(s), node, node, node);
    SplicedAppend(v0.lines, a, seg, node);
    SplicedSize(v0.lines, a, seg + [node]);
    s', up' := RecordAdd(s1, node, up, Spliced(v0.lines, a, seg + [node]), s0.ustack, seg);
    ghost var s2 := s';
    s' := s'.(modified := true);
    HeapFrame(s1, s');
    GrowingOne(s0, v0, a, seg, s, node, s2, s');
  }

  lemma {:induction false} SplicedSize(l: seq<Line>, a: nat, seg: seq<Line>)
    requires a < |l|
    ensures |Spliced(l, a, seg)| == |l| + |seg|
    ensures forall i :: 0 <= i < |seg| ==> Spliced(l, a, seg)[a + 1 + i] == seg[i]
  {
  }

  lemma {:induction false} GrowingIs(s0: Ed, v0: View, a: nat, seg: seq<Line>, s: Ed)
    requires a < |v0.lines| && Growing(s0, v0, a, seg, s)
    ensures Grown(M(s0), v0.lines, a, seg, M(s)) && HeapOk(s) && ListOk(s, Spliced(v0.lines, a, seg))
    ensures s.currentAddr == a + |seg| && s.lastAddr == |v0.lines| + |seg| - 1
    ensures s.ustack == RunEntries(s0.ustack, seg)
  {
  }

  lemma {:induction false} GrowingOne(s0: Ed, v0: View, a: nat, seg: seq<Line>, s: Ed, node: Line, s2: Ed, s': Ed)
    requires a < |v0.lines| && Growing(s0, v0, a, seg, s) && s' == s2.(modified := true)
    requires Grown(M(s0), v0.lines, a, seg + [node], M(s')) && HeapOk(s')
    requires ListOk(s2, Spliced(v0.lines, a, seg + [node]))
    requires s2 == s.(forw := s2.forw, back := s2.back, text := s2.text, pool := s2.pool, brk := s2.brk, lp := s2.lp,
                      oAddr := s2.oAddr, lastAddr := s2.lastAddr, currentAddr := s.currentAddr + 1,
                      ustack := RunEntries(s0.ustack, seg + [node]))
    ensures Growing(s0, v0, a, seg + [node], s')
  {
    hide Grown, IsList, HeapOk, RunEntries, Spliced;
  }

  // ---------------------------------------------------------------- marks

  /** The number of marks in use */
  ghost function InUse(marks: seq<Line>): nat {
    if |marks| == 0 then 0 else InUse(marks[..|marks| - 1]) + (if marks[|marks| - 1] != NIL then 1 else 0)
  }

  lemma {:induction false} InUseUpdate(marks: seq<Line>, i: nat, l: Line)
    requires i < |marks|
    ensures InUse(marks[i := l]) ==
            InUse(marks) - (if marks[i] != NIL then 1 else 0) + (if l != NIL then 1 else 0)
  {
    var m' := marks[i := l];
    if i == |marks| - 1 {
      assert m'[..i] == marks[..i];
    } else {
      assert m'[..|marks| - 1] == marks[..|marks| - 1][i := l];
      InUseUpdate(marks[..|marks| - 1], i, l);
    }
  }

  lemma {:induction false} InUseZero(marks: seq<Line>)
    ensures InUse(marks) == 0 ==> forall i :: 0 <= i < |marks| ==> marks[i] == NIL
  {
    if |marks| > 0 {
      InUseZero(marks[..|marks| - 1]);
      assert forall i :: 0 <= i < |marks| - 1 ==> marks[..|marks| - 1][i] == marks[i];
    }
  }
}
