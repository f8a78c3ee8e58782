/** The edits of ed's line buffer: append, copy, put, yank, delete, move and join, each recorded on the
    undo stack. */
module EdEdit {
  import opened EdLinks
  import opened EdUndo
  import opened EdStack
  import opened EdBuffer
  import opened EdActive

  // ---------------------------------------------------------------- adding runs of lines

  /** The fresh lines `seg` carry the texts `ts`, and no other text has changed. */
  ghost predicate Carries(text: map<Line, Text>, seg: seq<Line>, ts: seq<Text>, text': map<Line, Text>) {
    && |seg| == |ts|
    && (forall i :: 0 <= i < |seg| ==> seg[i] in text' && text'[seg[i]] == ts[i])
    && (forall n :: n in text ==> n in text' && text'[n] == text[n])
  }

  lemma {:induction false} CarriesOne(text: map<Line, Text>, seg: seq<Line>, ts: seq<Text>, text': map<Line, Text>,
      n: Line, t: Text)
    requires Carries(text, seg, ts, text') && n !in text'
    ensures Carries(text, seg + [n], ts + [t], text'[n := t])
  {
  }

  /** No text of an allocated line has changed. */
  ghost predicate TextKept(text: map<Line, Text>, text': map<Line, Text>) {
    forall n :: n in text ==> n in text' && text'[n] == text[n]
  }

  lemma {:induction false} CarriesNone(text: map<Line, Text>)
    ensures Carries(text, [], [], text)
  {
  }

  lemma {:induction false} CarriesLength(text: map<Line, Text>, seg: seq<Line>, ts: seq<Text>, text': map<Line, Text>)
    requires Carries(text, seg, ts, text')
    ensures |seg| == |ts|
  {
  }

  /** Insert lines behind a line. */
  method AppendLines(s: Ed, addr: int, ts: seq<Text>, ghost v: View)
    returns (s': Ed, ghost v': View, ghost seg: seq<Line>)
    requires Valid(s, v) && 0 <= addr <= s.lastAddr
    ensures Valid(s', v') && v' == GrownView(v, addr, seg) && SameRest(s, s') && s'.yank == s.yank
    ensures Carries(s.text, seg, ts, s'.text) && s'.currentAddr == addr + |ts|
    ensures s'.modified == (s.modified || ts != [])
  {
    hide Valid, Growing, Carries, GrownView, IsList;
    Bounds(s, v);
    s' := s.(currentAddr := addr);
    seg := [];
    GrowingStart(s, v, addr);
    CarriesNone(s.text);
    var up, i := -1, 0;
    while i < |ts|
      invariant 0 <= i <= |ts| && Growing(s, v, addr, seg, s')
      invariant Carries(s.text, seg, ts[..i], s'.text)
      invariant up == if |seg| == 0 then -1 else |s.ustack|
    {
      var node;
      ghost var text := s'.text;
      s', node, up := AddRecorded(s', ts[i], up, s, v, addr, seg);
      CarriesOne(s.text, seg, ts[..i], text, node, ts[i]);
      assert ts[..i + 1] == ts[..i] + [ts[i]];
      seg := seg + [node];
      i := i + 1;
    }
    assert ts[..i] == ts;
    v' := GrownView(v, addr, seg);
    GrowingEnd(s, v, addr, seg, s');
    CarriesLength(s.text, seg, ts, s'.text);
  }

  /** Append lines from the cut buffer. */
  method PutLines(s: Ed, addr: int, ghost v: View) returns (ok: bool, s': Ed, ghost v': View, ghost seg: seq<Line>)
    requires Valid(s, v) && 0 <= addr <= s.lastAddr
    ensures Valid(s', v') && (ok <==> s.yank != []) && SameRest(s, s') && s'.yank == s.yank
    ensures !ok ==> s' == s && v' == v
    ensures ok ==> s'.modified
    ensures ok ==>
      v' == GrownView(v, addr, seg) && Carries(s.text, seg, s.yank, s'.text) && s'.currentAddr == addr + |s.yank|
  {
    if s.yank == [] {
      ok, s', v', seg := false, s, v, [];
    } else {
      ok := true;
      s', v', seg := AppendLines(s, addr, s.yank, v);
    }
  }

  /** Where line `j` of the old buffer stands once `k` lines have been added behind line `a`. */
  ghost function Shifted(j: int, a: int, k: int): int {
    if j <= a then j else j + k
  }

  lemma {:induction false} SplicedAt(l: seq<Line>, a: nat, seg: seq<Line>, j: nat)
    requires a < |l| && j < |l|
    ensures Spliced(l, a, seg)[Shifted(j, a, |seg|)] == l[j]
    ensures j != a || |seg| == 0 ==> Ring(Spliced(l, a, seg))[Shifted(j, a, |seg|) + 1] == Ring(l)[j + 1]
  {
  }

  /** The texts of lines `i` to `j - 1` */
  ghost function Texts(text: map<Line, Text>, lines: seq<Line>, i: nat, j: nat): seq<Text>
    requires i <= j <= |lines|
    requires forall k :: i <= k < j ==> lines[k] in text
  {
    seq(j - i, k requires 0 <= k < j - i => text[lines[i + k]])
  }

  /** The texts of some lines */
  ghost function LineTexts(text: map<Line, Text>, lines: seq<Line>): seq<Text> {
    seq(|lines|, i requires 0 <= i < |lines| => if lines[i] in text then text[lines[i]] else Text(""))
  }

  lemma {:induction false} LineTextsIs(text: map<Line, Text>, lines: seq<Line>, i: nat, j: nat)
    requires i <= j <= |lines| && forall k :: i <= k < j ==> lines[k] in text
    ensures Texts(text, lines, i, j) == LineTexts(text, lines[i..j])
  {
  }

  lemma {:induction false} TextsIn(s: Ed, v: View)
    requires Valid(s, v)
    ensures forall k :: 0 <= k < |v.lines| ==> v.lines[k] in s.text
  {
    ListKeys(M(s), v.lines);
    assert forall k :: 0 <= k < |v.lines| ==> v.lines[k] in Elems(v.lines);
  }

  /** Following `q_forw` from a line that is being copied reaches the next line to copy,
      unless the copies are being put between the two. */
  lemma {:induction false} CopyNext(s0: Ed, v0: View, a: nat, seg: seq<Line>, s: Ed, j: nat)
    requires a < |v0.lines| && j < |v0.lines| && Growing(s0, v0, a, seg, s)
    ensures v0.lines[j] in s.forw && v0.lines[j] in s.text
    ensures j != a ==> s.forw[v0.lines[j]] == Ring(v0.lines)[j + 1]
  {
    SplicedAt(v0.lines, a, seg, j);
    At(s, Spliced(v0.lines, a, seg), Shifted(j, a, |seg|));
  }

  /** The line behind the last copy is the one that stood behind the destination. */
  lemma {:induction false} CopyRestart(s0: Ed, v0: View, a: nat, seg: seq<Line>, s: Ed)
    requires a < |v0.lines| && Growing(s0, v0, a, seg, s)
    ensures ListOk(s, Spliced(v0.lines, a, seg)) && s.currentAddr == a + |seg|
    ensures a + 1 < |v0.lines| ==>
      a + |seg| + 1 <= s.lastAddr && Spliced(v0.lines, a, seg)[a + |seg| + 1] == v0.lines[a + 1]
  {
  }

  lemma {:induction false} GrowingCache(s0: Ed, v0: View, a: nat, seg: seq<Line>, s: Ed, s': Ed)
    requires a < |v0.lines| && Growing(s0, v0, a, seg, s)
    requires s' == s.(lp := s'.lp, oAddr := s'.oAddr) && ListOk(s', Spliced(v0.lines, a, seg))
    ensures Growing(s0, v0, a, seg, s')
  {
  }

  /** Copy the line `np` and step to the next one. */
  method CopyOne(s: Ed, np: Line, up: int, ghost s0: Ed, ghost v0: View, ghost a: nat, ghost seg: seq<Line>,
      ghost first: nat)
    returns (s': Ed, node: Line, np': Line, up': int)
    requires a < |v0.lines| && first + |seg| < |v0.lines| && np == v0.lines[first + |seg|]
    requires forall k :: 0 <= k < |v0.lines| ==> v0.lines[k] in s0.text
    requires Carries(s0.text, seg, Texts(s0.text, v0.lines, first, first + |seg|), s.text)
    requires Growing(s0, v0, a, seg, s) && up == if |seg| == 0 then -1 else |s0.ustack|
    requires Valid(s0, v0)
    ensures Growing(s0, v0, a, seg + [node], s') && up' == |s0.ustack|
    ensures Carries(s0.text, seg + [node], Texts(s0.text, v0.lines, first, first + |seg| + 1), s'.text)
    ensures first + |seg| != a ==> np' == Ring(v0.lines)[first + |seg| + 1]
  {
    hide Valid, Growing, Carries, IsList;
    Bounds(s0, v0);
    CopyNext(s0, v0, a, seg, s, first + |seg|);
    CarriesText(s0.text, seg, Texts(s0.text, v0.lines, first, first + |seg|), s.text, np);
    s', node, up' := AddRecorded(s, s.text[np], up, s0, v0, a, seg);
    CarriesOne(s0.text, seg, Texts(s0.text, v0.lines, first, first + |seg|), s.text, node, s0.text[np]);
    TextsNext(s0.text, v0.lines, first, first + |seg|);
    CopyNext(s0, v0, a, seg + [node], s', first + |seg|);
    np' := s'.forw[np];
  }

  /** Copy a range of lines behind any line, which may stand inside the range. */
  method CopyLines(s: Ed, first: int, second: int, addr: int, ghost v: View)
    returns (s': Ed, ghost v': View, ghost seg: seq<Line>)
    requires Valid(s, v) && 1 <= first <= second <= s.lastAddr && 0 <= addr <= s.lastAddr
    ensures Valid(s', v') && v' == GrownView(v, addr, seg) && SameRest(s, s') && s'.yank == s.yank
    ensures forall k :: 0 <= k < |v.lines| ==> v.lines[k] in s.text
    ensures Carries(s.text, seg, Texts(s.text, v.lines, first, second + 1), s'.text)
    ensures s'.currentAddr == addr + (second - first + 1) && s'.modified
  {
    hide Valid, Growing, Carries, GrownView, IsList, ListOk;
    Bounds(s, v);
    TextsIn(s, v);
    ListOkOf(s, v);
    var s1, np := SearchLineNode(s, first, v.lines);
    var n, m := second - first + 1, 0;
    s' := s1.(currentAddr := addr);
    seg := [];
    CopyStart(s, v, addr, s1);
    CarriesNone(s.text);
    assert Texts(s.text, v.lines, first, first) == [];
    if first <= addr < second {
      n, m := addr - first + 1, second - addr;
    }
    var up := -1;
    while n > 0
      invariant 0 <= n && 0 <= m && |seg| + n + m == second - first + 1 && (n == 0 ==> m == 0)
      invariant m > 0 ==> first + |seg| + n == addr + 1
      invariant m == 0 ==> addr < first + |seg| || addr >= second
      invariant n > 0 ==> np == v.lines[first + |seg|]
      invariant Growing(s, v, addr, seg, s')
      invariant Carries(s.text, seg, Texts(s.text, v.lines, first, first + |seg|), s'.text)
      invariant up == if |seg| == 0 then -1 else |s.ustack|
      decreases n + m
    {
      while n > 0
        invariant 0 <= n && 0 <= m && |seg| + n + m == second - first + 1
        invariant m > 0 ==> first + |seg| + n == addr + 1
        invariant m == 0 ==> addr < first + |seg| || addr >= second
        invariant n > 0 ==> np == v.lines[first + |seg|]
        invariant Growing(s, v, addr, seg, s')
        invariant Carries(s.text, seg, Texts(s.text, v.lines, first, first + |seg|), s'.text)
        invariant up == if |seg| == 0 then -1 else |s.ustack|
      {
        n := n - 1;
        var node;
        s', node, np, up := CopyOne(s', np, up, s, v, addr, seg, first);
        seg := seg + [node];
      }
      n, m := m, 0;
      CopyRestart(s, v, addr, seg, s');
      ghost var before := s';
      s', np := SearchLineNode(s', s'.currentAddr + 1, Spliced(v.lines, addr, seg));
      GrowingCache(s, v, addr, seg, before, s');
    }
    v' := GrownView(v, addr, seg);
    GrowingEnd(s, v, addr, seg, s');
  }

  lemma {:induction false} ListOkOf(s: Ed, v: View)
    requires Valid(s, v)
    ensures ListOk(s, v.lines)
  {
  }

  lemma {:induction false} CopyStart(s: Ed, v: View, a: nat, s1: Ed)
    requires Valid(s, v) && a < |v.lines|
    requires s1 == s.(lp := s1.lp, oAddr := s1.oAddr) && ListOk(s1, v.lines)
    ensures Growing(s, v, a, [], s1.(currentAddr := a))
  {
    hide Growing, Undoable, MarksOk, HeapOk, IsList;
    GrowingStart(s, v, a);
    assert Spliced(v.lines, a, []) == v.lines;
    GrowingCache(s, v, a, [], s.(currentAddr := a), s1.(currentAddr := a));
  }

  lemma {:induction false} CarriesText(text: map<Line, Text>, seg: seq<Line>, ts: seq<Text>,
      text': map<Line, Text>, n: Line)
    requires Carries(text, seg, ts, text') && n in text
    ensures n in text' && text'[n] == text[n]
  {
  }

  lemma {:induction false} TextsNext(text: map<Line, Text>, lines: seq<Line>, i: nat, j: nat)
    requires i <= j < |lines| && forall k :: 0 <= k < |lines| ==> lines[k] in text
    ensures Texts(text, lines, i, j + 1) == Texts(text, lines, i, j) + [text[lines[j]]]
  {
  }

  // ---------------------------------------------------------------- yanking and deleting

  /** Copy a range of lines to the cut buffer. */
  method YankLines(s: Ed, from: int, to: int, ghost v: View) returns (s': Ed)
    requires Valid(s, v) && 1 <= from <= to <= s.lastAddr
    ensures forall k :: 0 <= k < |v.lines| ==> v.lines[k] in s.text
    ensures s' == s.(lp := v.lines[from], oAddr := from, yank := Texts(s.text, v.lines, from, to + 1))
    ensures ListOk(s', v.lines)
  {
    hide Valid, IsList;
    Bounds(s, v);
    TextsIn(s, v);
    ListOkOf(s, v);
    var s1, ep := SearchLineNode(s, IncAddr(s, to), v.lines);
    var s2, bp := SearchLineNode(s1, from, v.lines);
    var ts: seq<Text> := [];
    ghost var k := from;
    assert Texts(s.text, v.lines, from, from) == [];
    RingApart(s, v, to);
    while bp != ep
      invariant from <= k <= to + 1 && bp == Ring(v.lines)[k]
      invariant ts == Texts(s.text, v.lines, from, k)
      decreases 1 + to - k
    {
      At(s, v.lines, k);
      TextsNext(s.text, v.lines, from, k);
      ts := ts + [s.text[bp]];
      bp := s.forw[bp];
      k := k + 1;
    }
    assert k == to + 1;
    s' := s2.(yank := ts);
  }

  /** The node behind a line stands nowhere between line 1 and that line. */
  lemma {:induction false} RingApart(s: Ed, v: View, to: nat)
    requires Valid(s, v) && 1 <= to < |v.lines|
    ensures forall k :: 1 <= k <= to ==> Ring(v.lines)[k] != Ring(v.lines)[to + 1]
    ensures Ring(v.lines)[to + 1] == v.lines[IncAddr(s, to)]
  {
    DistinctIff(v.lines);
  }

  /** The lines behind a deleted range close up. */
  ghost function DeletedView(v: View, from: nat, to: nat): View
    requires 1 <= from <= to < |v.lines|
  {
    View(v.lines[..from] + v.lines[to + 1..], v.items + [Del(v.lines[from..to + 1])], v.saved)
  }

  lemma {:induction false} DeleteValid(s: Ed, v: View, from: nat, to: nat, s': Ed)
    requires Valid(s, v) && 1 <= from <= to < |v.lines|
    requires M(s') == Link(M(s), v.lines[from - 1], Ring(v.lines)[to + 1])
    requires s' == s.(forw := s'.forw, back := s'.back, lp := v.lines[from - 1], oAddr := from - 1, yank := s'.yank,
                      ustack := s.ustack + [Entry(UDEL, v.lines[from], v.lines[to])],
                      lastAddr := s.lastAddr - (to - from + 1), currentAddr := from - 1, modified := true)
    ensures Valid(s', DeletedView(v, from, to))
  {
    hide UndoOk, IsList, Encodes, Distinct;
    var v' := DeletedView(v, from, to);
    var seg := v.lines[from..to + 1];
    DeleteKeeps(M(s), v.lines, v.items, v.saved, from, to);
    EncodesOne([Entry(UDEL, v.lines[from], v.lines[to])], Del(seg));
    EncodesPush(s.ustack, v.items, [Entry(UDEL, v.lines[from], v.lines[to])], Del(seg));
    At(s, v.lines, from - 1);
    At(s, v.lines, to);
    HeapFrame(s, s');
    assert v'.lines[from - 1] == v.lines[from - 1] && v'.lines[0] == v.lines[0];
  }

  /** Delete a range of lines. */
  method DeleteLines(s: Ed, act: Active, from: int, to: int, isglobal: bool, ghost v: View)
    returns (s': Ed, act': Active, ghost v': View)
    requires Valid(s, v) && 1 <= from <= to <= s.lastAddr
    requires isglobal ==> ActiveOk(act, v.lines)
    ensures Valid(s', v') && v' == DeletedView(v, from, to) && s'.currentAddr == from - 1 && s'.text == s.text
    ensures SameRest(s, s') && s'.modified
    ensures forall k :: 0 <= k < |v.lines| ==> v.lines[k] in s.text
    ensures s'.yank == Texts(s.text, v.lines, from, to + 1)
    ensures !isglobal ==> act' == act
    ensures isglobal ==> ActiveOk(act', v'.lines) && Cleared(act, v.lines[from..to + 1], act')
  {
    hide Valid, IsList, Cleared, ListOk, ActiveOk, Texts, HeapOk;
    Bounds(s, v);
    RingApart(s, v, to);
    var s1 := YankLines(s, from, to, v);
    var s2 := PushUndoStack(s1, UDEL, from, to, v.lines);
    var s3, n := SearchLineNode(s2, IncAddr(s2, to), v.lines);
    var s4, p := SearchLineNode(s3, from - 1, v.lines);
    act' := act;
    At(s4, v.lines, from - 1);
    if isglobal {
      HeapOf(s, v);
      HeapFrame(s, s4);
      act' := UnsetActiveNodes(s4, act, s4.forw[p], n, v.lines, from, to + 1);
      DeleteActive(act, act', v.lines, from, to);
    }
    var s5 := LinkNodes(s4, p, n);
    s' := s5.(lastAddr := s5.lastAddr - (to - from + 1), currentAddr := from - 1, modified := true);
    v' := DeletedView(v, from, to);
    DeleteValid(s, v, from, to, s');
  }

  lemma {:induction false} HeapOf(s: Ed, v: View)
    requires Valid(s, v)
    ensures HeapOk(s)
  {
  }

  lemma {:induction false} DeleteActive(a: Active, a': Active, lines: seq<Line>, from: nat, to: nat)
    requires ActiveOk(a, lines) && ActiveOk(a', lines) && 1 <= from <= to < |lines|
    requires Cleared(a, lines[from..to + 1], a')
    ensures ActiveOk(a', lines[..from] + lines[to + 1..])
  {
    var l' := lines[..from] + lines[to + 1..];
    assert forall x :: from <= x <= to ==> lines[x] == lines[from..to + 1][x - from];
    forall i | a'.ptr <= i < |a'.list| && a'.list[i] != NIL ensures a'.list[i] in l'[1..] {
      var n := a'.list[i];
      var k :| 1 <= k < |lines| && lines[k] == n;
      assert n !in lines[from..to + 1];
      assert l'[if k < from then k else k - (to + 1 - from)] == n;
    }
  }

  // ---------------------------------------------------------------- moving

  /** The item a move of the lines `first` to `second` behind line `addr` records: two
      neighbouring blocks of the buffer change places. */
  ghost function MoveBlocks(first: nat, second: nat, addr: nat): (b: (nat, nat, nat))
    requires 1 <= first <= second && (addr < first - 1 || addr > second)
    ensures 1 <= b.0 < b.1 < b.2
  {
    if addr < first then (addr + 1, first, second + 1) else (first, second + 1, addr + 1)
  }

  ghost function MovedView(v: View, first: nat, second: nat, addr: nat): View
    requires 1 <= first <= second < |v.lines| && addr < |v.lines| && (addr < first - 1 || addr > second)
  {
    var (i, j, k) := MoveBlocks(first, second, addr);
    var e := if addr < first then MovedDown(v.lines, i, j, k) else MovedUp(v.lines, i, j, k);
    View(Swapped(v.lines, i, j, k), v.items + [e], v.saved)
  }

  /** A move is the splice: the range is cut out and pasted behind the destination line. */
  lemma {:induction false} MoveIsSplice(v: View, first: nat, second: nat, addr: nat)
    requires 1 <= first <= second < |v.lines| && addr < |v.lines| && (addr < first - 1 || addr > second)
    ensures var range, rest := v.lines[first..second + 1], v.lines[..first] + v.lines[second + 1..];
      var d := if addr < first then addr else addr - |range|;
      MovedView(v, first, second, addr).lines == rest[..d + 1] + range + rest[d + 1..]
  {
    hide Swapped;
    var (i, j, k) := MoveBlocks(first, second, addr);
    if addr < first {
      SwappedDown(v.lines, i, j, k);
    } else {
      SwappedUp(v.lines, i, j, k);
    }
  }

  lemma {:induction false} MoveUpLinks(s: Ed, lines: seq<Line>, i: nat, j: nat, k: nat)
    requires IsList(M(s), lines) && 1 <= i < j < k <= |lines|
    ensures Link(Link(Link(M(s), lines[k - 1], lines[i]), lines[j - 1], Ring(lines)[k]), lines[i - 1], lines[j])
            == ExchangedIn(M(s), lines, i, j, k)
  {
    DistinctIff(lines);
    var r := Ring(lines)[k];
    assert r == if k < |lines| then lines[k] else lines[0];
    LinkSwap(Link(M(s), lines[k - 1], lines[i]), lines[j - 1], r, lines[i - 1], lines[j]);
    LinkSwap(M(s), lines[k - 1], lines[i], lines[i - 1], lines[j]);
  }

  lemma {:induction false} MoveValid(s: Ed, v: View, first: nat, second: nat, addr: nat, s': Ed)
    requires Valid(s, v) && 1 <= first <= second < |v.lines| && addr < |v.lines| && (addr < first - 1 || addr > second)
    requires var (i, j, k) := MoveBlocks(first, second, addr); M(s') == ExchangedIn(M(s), v.lines, i, j, k)
    requires s'.oAddr == (if addr < first then addr else first - 1) && s'.lp == v.lines[s'.oAddr]
    requires s' == s.(forw := s'.forw, back := s'.back, lp := s'.lp, oAddr := s'.oAddr,
                      ustack := s.ustack + [Entry(UMOV, v.lines[first - 1], Ring(v.lines)[second + 1]),
                                            Entry(UMOV, v.lines[addr], Ring(v.lines)[addr + 1])],
                      currentAddr := s'.currentAddr, modified := true)
    requires 0 <= s'.currentAddr <= s.lastAddr
    ensures Valid(s', MovedView(v, first, second, addr))
  {
    hide UndoOk, IsList, Encodes, Distinct;
    var v' := MovedView(v, first, second, addr);
    var (i, j, k) := MoveBlocks(first, second, addr);
    var e := v'.items[|v.items|];
    ExchangeKeeps(M(s), v.lines, v.items, v.saved, i, j, k, e);
    var c := [Entry(UMOV, v.lines[first - 1], Ring(v.lines)[second + 1]),
              Entry(UMOV, v.lines[addr], Ring(v.lines)[addr + 1])];
    EncodesOne(c, e);
    EncodesPush(s.ustack, v.items, c, e);
    MoveKeys(s, v.lines, i, j, k);
    HeapFrame(s, s');
  }

  lemma {:induction false} MoveKeys(s: Ed, lines: seq<Line>, i: nat, j: nat, k: nat)
    requires IsList(M(s), lines) && 1 <= i < j < k <= |lines|
    ensures ExchangedIn(M(s), lines, i, j, k).forw.Keys == s.forw.Keys
    ensures ExchangedIn(M(s), lines, i, j, k).back.Keys == s.back.Keys
  {
    At(s, lines, i - 1);
    At(s, lines, j - 1);
    At(s, lines, k - 1);
  }

  lemma {:induction false} MoveActive(a: Active, lines: seq<Line>, i: nat, j: nat, k: nat)
    requires ActiveOk(a, lines) && 1 <= i <= j <= k <= |lines|
    ensures ActiveOk(a, Swapped(lines, i, j, k))
  {
    var l' := Swapped(lines, i, j, k);
    forall x | a.ptr <= x < |a.list| && a.list[x] != NIL ensures a.list[x] in l'[1..] {
      var y :| 1 <= y < |lines| && lines[y] == a.list[x];
      assert l'[SwapIndex(i, i + k - j, k, y)] == lines[y];
    }
  }

  /** The nodes at the ends of a move; the lower of the two places is searched for last, so that the
      cache stays in front of what is relinked. */
  method MoveEnds(s: Ed, n: int, p: int, addr: int, ghost lines: seq<Line>)
    returns (s': Ed, a1: Line, b1: Line, b2: Line)
    requires ListOk(s, lines) && 0 <= n <= s.lastAddr && 0 <= p <= s.lastAddr && 0 <= addr <= s.lastAddr
    ensures s' == s.(lp := s'.lp, oAddr := s'.oAddr) && ListOk(s', lines)
    ensures a1 == lines[n] && b1 == lines[p] && b2 == lines[addr]
    ensures s'.oAddr == (if addr <= p then addr else p) && s'.lp == lines[s'.oAddr]
  {
    hide IsList;
    s', a1 := SearchLineNode(s, n, lines);
    if addr <= p {
      s', b1 := SearchLineNode(s', p, lines);
      s', b2 := SearchLineNode(s', addr, lines);
    } else {
      s', b2 := SearchLineNode(s', addr, lines);
      s', b1 := SearchLineNode(s', p, lines);
    }
  }

  /** The relinking of a move, with the cache left on the lower of the two places. */
  method MoveRelink(s: Ed, first: int, second: int, addr: int, ghost v: View) returns (s': Ed, b2: Line, a2: Line)
    requires Valid(s, v) && 1 <= first <= second <= s.lastAddr && 0 <= addr <= s.lastAddr
    requires (addr < first - 1 || addr > second)
    ensures Valid(s', MovedView(v, first, second, addr))
    ensures s'.text == s.text && s'.modified && SameRest(s, s') && s'.yank == s.yank
    ensures s'.currentAddr == addr + (if addr < first then second - first + 1 else 0)
    ensures b2 == v.lines[addr] && a2 == Ring(v.lines)[addr + 1]
  {
    hide Valid, IsList, ListOk, ExchangedIn, MovedView;
    Bounds(s, v);
    ListOkOf(s, v);
    var n, p := IncAddr(s, second), first - 1;
    var s1 := PushUndoStack(s, UMOV, p, n, v.lines);
    var s2 := PushUndoStack(s1, UMOV, addr, IncAddr(s1, addr), v.lines);
    var s5, a1, b1;
    s5, a1, b1, b2 := MoveEnds(s2, n, p, addr, v.lines);
    At(s, v.lines, first - 1);
    At(s, v.lines, second);
    At(s, v.lines, addr);
    MoveRing(s, v, second);
    a2 := s5.forw[b2];
    var s6 := LinkNodes(s5, b2, s5.forw[b1]);
    MoveBack(s, v, first, second, addr);
    var s7 := LinkNodes(s6, s6.back[a1], a2);
    var s8 := LinkNodes(s7, b1, a1);
    s' := s8.(currentAddr := addr + (if addr < first then second - first + 1 else 0), modified := true);
    MoveLinked(s, v, first, second, addr);
    MoveRing(s, v, addr);
    assert s'.ustack == s.ustack + [Entry(UMOV, b1, a1), Entry(UMOV, b2, a2)];
    MoveValid(s, v, first, second, addr, s');
  }

  lemma {:induction false} MoveRing(s: Ed, v: View, x: nat)
    requires Valid(s, v) && x < |v.lines|
    ensures Ring(v.lines)[x + 1] == v.lines[IncAddr(s, x)]
  {
  }

  /** The first link of a move leaves the back pointer behind the range alone. */
  lemma {:induction false} MoveBack(s: Ed, v: View, first: nat, second: nat, addr: nat)
    requires Valid(s, v) && 1 <= first <= second < |v.lines| && addr < |v.lines| && (addr < first - 1 || addr > second)
    ensures v.lines[first] != Ring(v.lines)[second + 1]
  {
    DistinctIff(v.lines);
  }

  lemma {:induction false} MoveLinked(s: Ed, v: View, first: nat, second: nat, addr: nat)
    requires Valid(s, v) && 1 <= first <= second < |v.lines| && addr < |v.lines| && (addr < first - 1 || addr > second)
    ensures var (i, j, k) := MoveBlocks(first, second, addr);
      Link(Link(Link(M(s), v.lines[addr], v.lines[first]), v.lines[second], Ring(v.lines)[addr + 1]),
           v.lines[first - 1], Ring(v.lines)[second + 1])
      == ExchangedIn(M(s), v.lines, i, j, k)
  {
    hide Undoable, HeapOk, MarksOk, IsList, Link;
    if addr > second {
      MoveUpLinks(s, v.lines, first, second + 1, addr + 1);
    }
  }

  /** Where the moved range stands afterwards. */
  lemma {:induction false} MovePlace(v: View, first: nat, second: nat, addr: nat)
    requires 1 <= first <= second < |v.lines| && addr < |v.lines| && (addr < first - 1 || addr > second)
    ensures var l', len := MovedView(v, first, second, addr).lines, second - first + 1;
      var x := if addr < first then addr + 1 else addr + 1 - len;
      && 1 <= x && |l'| == |v.lines| && x + len <= |l'|
      && l'[x - 1] == v.lines[addr] && Ring(l')[x + len] == Ring(v.lines)[addr + 1]
      && l'[x..x + len] == v.lines[first..second + 1]
  {
    hide Swapped, Ring;
    var (i, j, k) := MoveBlocks(first, second, addr);
    SwappedPlace(v.lines, i, j, k);
  }

  /** Move a range of lines behind a line outside it. */
  method MoveLines(s: Ed, act: Active, first: int, second: int, addr: int, isglobal: bool, ghost v: View)
    returns (s': Ed, act': Active, ghost v': View)
    requires Valid(s, v) && 1 <= first <= second <= s.lastAddr && 0 <= addr <= s.lastAddr && !(first <= addr < second)
    requires isglobal ==> ActiveOk(act, v.lines)
    ensures Valid(s', v') && s'.text == s.text && s'.modified && SameRest(s, s') && s'.yank == s.yank
    ensures v' == if addr == first - 1 || addr == second then v else MovedView(v, first, second, addr)
    ensures s'.currentAddr == if addr == first - 1 || addr == second then second
                              else addr + (if addr < first then second - first + 1 else 0)
    ensures !isglobal ==> act' == act
    ensures isglobal ==> ActiveOk(act', v'.lines) && Cleared(act, v.lines[first..second + 1], act')
  {
    hide Valid, Cleared, MovedView, ActiveOk;
    Bounds(s, v);
    if addr == first - 1 || addr == second {
      s', act' := MoveNowhere(s, act, first, second, isglobal, v);
      v' := v;
    } else {
      s', act' := MoveAway(s, act, first, second, addr, isglobal, v);
      v' := MovedView(v, first, second, addr);
    }
  }

  /** A move to where the range already stands: nothing is relinked or recorded. */
  method MoveNowhere(s: Ed, act: Active, first: int, second: int, isglobal: bool, ghost v: View)
    returns (s': Ed, act': Active)
    requires Valid(s, v) && 1 <= first <= second <= s.lastAddr && |v.lines| == s.lastAddr + 1
    requires isglobal ==> ActiveOk(act, v.lines)
    ensures Valid(s', v) && s'.text == s.text && s'.modified && SameRest(s, s') && s'.yank == s.yank
    ensures s'.currentAddr == second
    ensures !isglobal ==> act' == act
    ensures isglobal ==> ActiveOk(act', v.lines) && Cleared(act, v.lines[first..second + 1], act')
  {
    hide Valid, IsList, Cleared, ListOk, ActiveOk, HeapOk;
    Bounds(s, v);
    HeapOf(s, v);
    act' := act;
    ListOkOf(s, v);
    var s1, a2 := SearchLineNode(s, IncAddr(s, second), v.lines);
    var s2, b2 := SearchLineNode(s1, first - 1, v.lines);
    s' := s2.(currentAddr := second, modified := true);
    MoveNothing(s, v, s2, second);
    if isglobal {
      At(s, v.lines, first - 1);
      MoveRing(s, v, second);
      HeapFrame(s, s');
      act' := UnsetActiveNodes(s', act, s'.forw[b2], a2, v.lines, first, second + 1);
    }
  }

  method MoveAway(s: Ed, act: Active, first: int, second: int, addr: int, isglobal: bool, ghost v: View)
    returns (s': Ed, act': Active)
    requires Valid(s, v) && 1 <= first <= second <= s.lastAddr && 0 <= addr <= s.lastAddr
    requires (addr < first - 1 || addr > second)
    requires |v.lines| == s.lastAddr + 1
    requires isglobal ==> ActiveOk(act, v.lines)
    ensures Valid(s', MovedView(v, first, second, addr)) && s'.text == s.text && s'.modified && SameRest(s, s')
    ensures s'.yank == s.yank
    ensures s'.currentAddr == addr + (if addr < first then second - first + 1 else 0)
    ensures !isglobal ==> act' == act
    ensures isglobal ==>
      ActiveOk(act', MovedView(v, first, second, addr).lines) && Cleared(act, v.lines[first..second + 1], act')
  {
    hide Valid, IsList, Cleared, MovedView, ActiveOk, HeapOk;
    act' := act;
    var b2, a2;
    s', b2, a2 := MoveRelink(s, first, second, addr, v);
    ghost var v' := MovedView(v, first, second, addr);
    if isglobal {
      ghost var x := if addr < first then addr + 1 else addr + 1 - (second - first + 1);
      MovePlace(v, first, second, addr);
      MovedActive(act, v, first, second, addr);
      Bounds(s', v');
      HeapOf(s', v');
      At(s', v'.lines, x - 1);
      act' := UnsetActiveNodes(s', act, s'.forw[b2], a2, v'.lines, x, x + (second - first + 1));
    }
  }

  lemma {:induction false} MoveNothing(s: Ed, v: View, s2: Ed, addr: int)
    requires Valid(s, v) && s2 == s.(lp := s2.lp, oAddr := s2.oAddr) && ListOk(s2, v.lines) && 0 <= addr <= s.lastAddr
    ensures Valid(s2.(currentAddr := addr, modified := true), v)
  {
  }

  lemma {:induction false} MovedActive(a: Active, v: View, first: nat, second: nat, addr: nat)
    requires 1 <= first <= second < |v.lines| && addr < |v.lines| && (addr < first - 1 || addr > second)
    requires ActiveOk(a, v.lines)
    ensures ActiveOk(a, MovedView(v, first, second, addr).lines)
  {
    var (i, j, k) := MoveBlocks(first, second, addr);
    MoveActive(a, v.lines, i, j, k);
  }

  // ---------------------------------------------------------------- joining

  /** The characters of some texts, one after the other */
  ghost function Joined(ts: seq<Text>): seq<char> {
    if |ts| == 0 then [] else Joined(ts[..|ts| - 1]) + ts[|ts| - 1].chars
  }

  /** Gather the characters of a range of lines. */
  method JoinTexts(s: Ed, from: int, to: int, ghost v: View) returns (s': Ed, buf: seq<char>)
    requires Valid(s, v) && 1 <= from <= to <= s.lastAddr
    ensures forall k :: 0 <= k < |v.lines| ==> v.lines[k] in s.text
    ensures buf == Joined(Texts(s.text, v.lines, from, to + 1))
    ensures s' == s.(lp := v.lines[from], oAddr := from) && Valid(s', v)
  {
    hide Valid, IsList, ListOk, Joined, Texts;
    Bounds(s, v);
    TextsIn(s, v);
    ListOkOf(s, v);
    var s1, ep := SearchLineNode(s, IncAddr(s, to), v.lines);
    var bp;
    s', bp := SearchLineNode(s1, from, v.lines);
    CacheValid(s, v, s');
    buf := [];
    ghost var k := from;
    JoinedNone(s, v, from);
    RingApart(s, v, to);
    while bp != ep
      invariant from <= k <= to + 1 && bp == Ring(v.lines)[k]
      invariant buf == Joined(Texts(s.text, v.lines, from, k))
      decreases 1 + to - k
    {
      At(s, v.lines, k);
      TextsNext(s.text, v.lines, from, k);
      JoinedMore(Texts(s.text, v.lines, from, k), s.text[bp]);
      buf := buf + s.text[bp].chars;
      bp := s.forw[bp];
      k := k + 1;
    }
    assert k == to + 1;
  }

  lemma {:induction false} JoinedNone(s: Ed, v: View, from: int)
    requires 0 <= from <= |v.lines| && forall k :: 0 <= k < |v.lines| ==> v.lines[k] in s.text
    ensures Joined(Texts(s.text, v.lines, from, from)) == []
  {
    assert Texts(s.text, v.lines, from, from) == [];
  }

  lemma {:induction false} JoinedMore(ts: seq<Text>, t: Text)
    ensures Joined(ts + [t]) == Joined(ts) + t.chars
  {
    assert (ts + [t])[..|ts|] == ts;
  }

  lemma {:induction false} CacheValid(s: Ed, v: View, s': Ed)
    requires Valid(s, v) && s' == s.(lp := s'.lp, oAddr := s'.oAddr) && ListOk(s', v.lines)
    ensures Valid(s', v)
  {
  }

  /** Replace a range of lines by one line holding their joined text. */
  method JoinLines(s: Ed, act: Active, from: int, to: int, isglobal: bool, ghost v: View)
    returns (s': Ed, act': Active, ghost v': View, ghost node: Line)
    requires Valid(s, v) && 1 <= from <= to <= s.lastAddr
    requires isglobal ==> ActiveOk(act, v.lines)
    ensures Valid(s', v') && v' == GrownView(DeletedView(v, from, to), from - 1, [node]) && SameRest(s, s')
    ensures forall k :: 0 <= k < |v.lines| ==> v.lines[k] in s.text
    ensures Carries(s.text, [node], [Text(Joined(Texts(s.text, v.lines, from, to + 1)))], s'.text)
    ensures s'.currentAddr == from && s'.yank == Texts(s.text, v.lines, from, to + 1) && s'.modified
    ensures !isglobal ==> act' == act
    ensures isglobal ==> ActiveOk(act', v'.lines) && Cleared(act, v.lines[from..to + 1], act')
  {
    hide Valid, Carries, ActiveOk, Cleared, Joined, Texts;
    Bounds(s, v);
    var s1, buf := JoinTexts(s, from, to, v);
    var joined := Text(buf);
    s1, act', v' := DeleteLines(s1, act, from, to, isglobal, v);
    ghost var w := v';
    Bounds(s1, v');
    ghost var seg;
    s', v', seg := AppendLines(s1, from - 1, [joined], v');
    CarriesLength(s1.text, seg, [joined], s'.text);
    node := seg[0];
    assert seg == [node];
    if isglobal {
      GrowActive(act', w, from - 1, seg);
    }
  }

  /** Adding lines keeps every active line on the buffer. */
  lemma {:induction false} GrowActive(a: Active, v: View, addr: nat, seg: seq<Line>)
    requires addr < |v.lines| && ActiveOk(a, v.lines)
    ensures ActiveOk(a, GrownView(v, addr, seg).lines)
  {
    var l, l' := v.lines, Spliced(v.lines, addr, seg);
    forall i | a.ptr <= i < |a.list| && a.list[i] != NIL ensures a.list[i] in l'[1..] {
      var k :| 1 <= k < |l| && l[k] == a.list[i];
      SplicedAt(l, addr, seg, k);
      assert l'[1..][Shifted(k, addr, |seg|) - 1] == l[k];
    }
  }
}
