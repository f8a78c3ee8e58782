/** Substitution: in a range of lines each line that matches is replaced by the lines the pattern and
    the template make of it. */
module EdSubst {
  import opened EdLinks
  import opened EdUndo
  import opened EdBuffer
  import opened EdActive
  import opened EdEdit

  /** The buffer `l'` is `l` with new lines behind line `addr` that carry the texts `ts`. */
  ghost predicate AddedTo(l: seq<Line>, addr: int, ts: seq<Text>, l': seq<Line>, text': map<Line, Text>) {
    && 0 <= addr < |l| && |l'| == |l| + |ts|
    && l'[..addr + 1] == l[..addr + 1] && l'[addr + 1 + |ts|..] == l[addr + 1..]
    && LineTexts(text', l'[addr + 1..addr + 1 + |ts|]) == ts
  }

  lemma {:induction false} GrownIsAdded(v: View, addr: nat, seg: seq<Line>, text: map<Line, Text>, ts: seq<Text>,
      text': map<Line, Text>)
    requires addr < |v.lines| && Carries(text, seg, ts, text')
    ensures AddedTo(v.lines, addr, ts, GrownView(v, addr, seg).lines, text') && GrownView(v, addr, seg).saved == v.saved
    ensures TextKept(text, text')
  {
    var l' := Spliced(v.lines, addr, seg);
    assert l'[..addr + 1] == v.lines[..addr + 1];
    assert l'[addr + 1 + |seg|..] == v.lines[addr + 1..];
    assert l'[addr + 1..addr + 1 + |seg|] == seg;
  }

  // ---------------------------------------------------------------- what a substitution does

  /** What `subst` makes of a text: no line at all means that it does not match. */
  type Subst = Text -> seq<Text>

  ghost function After(t: Text, subst: Subst): seq<Text> {
    if subst(t) == [] then [t] else subst(t)
  }

  /** The texts with every match replaced */
  ghost function Replaced(ts: seq<Text>, subst: Subst): seq<Text> {
    if |ts| == 0 then [] else Replaced(ts[..|ts| - 1], subst) + After(ts[|ts| - 1], subst)
  }

  /** The cut buffer afterwards: the line replaced last */
  ghost function LastCut(ts: seq<Text>, subst: Subst, yank: seq<Text>): seq<Text> {
    if |ts| == 0 then yank
    else if subst(ts[|ts| - 1]) != [] then [ts[|ts| - 1]]
    else LastCut(ts[..|ts| - 1], subst, yank)
  }

  ghost predicate Hit(text: map<Line, Text>, subst: Subst, n: Line) {
    n in text && subst(text[n]) != []
  }

  /** The lines that match */
  ghost function Hits(text: map<Line, Text>, lines: seq<Line>, subst: Subst): set<Line> {
    set n | n in lines && Hit(text, subst, n)
  }

  /** The lines from `first` to below `next` of the buffer `l` have been dealt with, and `cur` is the
      last of the lines they have become: the others have stayed, and so have those without a match. */
  ghost predicate Substituted(text: map<Line, Text>, l: seq<Line>, first: int, next: int, subst: Subst,
      text': map<Line, Text>, l': seq<Line>, cur: int) {
    && 1 <= first <= next <= |l| && first - 1 <= cur < |l'|
    && l'[..first] == l[..first] && l'[cur + 1..] == l[next..]
    && LineTexts(text', l'[first..cur + 1]) == Replaced(LineTexts(text, l[first..next]), subst)
    && (forall i :: first <= i < next && !Hit(text, subst, l[i]) ==> l[i] in l'[first..cur + 1])
    && (Hits(text, l[first..next], subst) == {} ==> l' == l && cur == next - 1)
  }

  lemma {:induction false} SubstitutedNone(text: map<Line, Text>, l: seq<Line>, first: int, subst: Subst)
    requires 1 <= first <= |l|
    ensures Substituted(text, l, first, first, subst, text, l, first - 1)
  {
    assert l[first..first] == [] && LineTexts(text, []) == [];
  }

  /** One line more */
  lemma {:induction false} SubstitutedMore(text: map<Line, Text>, l: seq<Line>, first: int, next: int, subst: Subst,
      text1: map<Line, Text>, l1: seq<Line>, cur: int, text2: map<Line, Text>, l2: seq<Line>, ts: seq<Text>)
    requires Substituted(text, l, first, next, subst, text1, l1, cur) && next < |l| && l[next] in text
    requires forall i :: 0 <= i < |l1| ==> l1[i] in text1
    requires TextKept(text1, text2) && ts == After(text[l[next]], subst) && |l2| == |l1| - 1 + |ts|
    requires l2[..cur + 1] == l1[..cur + 1] && l2[cur + 1 + |ts|..] == l1[cur + 2..]
    requires LineTexts(text2, l2[cur + 1..cur + 1 + |ts|]) == ts
    requires !Hit(text, subst, l[next]) ==> l2 == l1
    ensures Substituted(text, l, first, next + 1, subst, text2, l2, cur + |ts|)
  {
    hide Hit, LineTexts, Replaced, After, TextKept, Hits;
    var cur' := cur + |ts|;
    SplitAt(l, l1, l2, first, next, cur, |ts|);
    assert l[first..next + 1] == l[first..next] + [l[next]];
    ReplacedMore(text, l[first..next], l[next], subst, []);
    TextsApart(text1, text2, l1, l2, first, cur, ts);
    HitsMore(text, l[first..next], l[next], subst);
    if !Hit(text, subst, l[next]) {
      StaysAt(text, subst, l[next]);
    }
    forall i | first <= i < next + 1 && !Hit(text, subst, l[i]) ensures l[i] in l2[first..cur' + 1] {
      if i < next {
        assert l[i] in l1[first..cur + 1];
      } else {
        assert l1[cur + 1] in l2[first..cur' + 1] by {
          assert l2[first..cur' + 1][cur + 1 - first] == l1[cur + 1];
        }
      }
    }
  }

  /** Where things are once line `cur + 1` has become `n` lines */
  lemma {:induction false} SplitAt(l: seq<Line>, l1: seq<Line>, l2: seq<Line>, first: int, next: int, cur: int, n: nat)
    requires 0 <= first <= cur + 1 < |l1| && 0 <= next < |l| && |l2| == |l1| - 1 + n && l1[cur + 1..] == l[next..]
    requires l2[..cur + 1] == l1[..cur + 1] && l2[cur + 1 + n..] == l1[cur + 2..]
    ensures l2[..first] == l1[..first] && l2[cur + n + 1..] == l[next + 1..] && l1[cur + 1] == l[next]
    ensures var was, now := l1[first..cur + 1], l2[first..cur + n + 1]; forall x :: x in was ==> x in now
  {
    var was, now := l1[first..cur + 1], l2[first..cur + n + 1];
    assert l2[..first] == l2[..cur + 1][..first] && l1[..first] == l1[..cur + 1][..first];
    assert l1[cur + 2..] == l1[cur + 1..][1..] && l[next + 1..] == l[next..][1..];
    assert l1[cur + 1] == l1[cur + 1..][0];
    forall x | x in was ensures x in now {
      var j :| 0 <= j < |was| && was[j] == x;
      assert now[j] == l2[..cur + 1][first + j] == x;
    }
  }

  lemma {:induction false} StaysAt(text: map<Line, Text>, subst: Subst, n: Line)
    requires n in text && !Hit(text, subst, n)
    ensures After(text[n], subst) == [text[n]]
  {
  }

  lemma {:induction false} ReplacedMore(text: map<Line, Text>, lines: seq<Line>, n: Line, subst: Subst, yank: seq<Text>)
    requires n in text
    ensures LineTexts(text, lines + [n]) == LineTexts(text, lines) + [text[n]]
    ensures Replaced(LineTexts(text, lines + [n]), subst) ==
            Replaced(LineTexts(text, lines), subst) + After(text[n], subst)
    ensures LastCut(LineTexts(text, lines + [n]), subst, yank) ==
      if subst(text[n]) != [] then [text[n]] else LastCut(LineTexts(text, lines), subst, yank)
  {
    var ts := LineTexts(text, lines + [n]);
    assert ts == LineTexts(text, lines) + [text[n]];
    assert ts[..|ts| - 1] == LineTexts(text, lines);
  }

  lemma {:induction false} HitsMore(text: map<Line, Text>, lines: seq<Line>, n: Line, subst: Subst)
    ensures Hits(text, lines + [n], subst) == Hits(text, lines, subst) + (if Hit(text, subst, n) then {n} else {})
  {
  }

  /** The texts up to the new lines are as they were, and those of the new lines come behind them. */
  lemma {:induction false} TextsApart(text1: map<Line, Text>, text2: map<Line, Text>, l1: seq<Line>, l2: seq<Line>,
      first: int, cur: int, ts: seq<Text>)
    requires 0 <= first <= cur + 1 <= |l1| && cur + 1 + |ts| <= |l2| && l2[..cur + 1] == l1[..cur + 1]
    requires TextKept(text1, text2) && forall i :: 0 <= i < |l1| ==> l1[i] in text1
    requires LineTexts(text2, l2[cur + 1..cur + 1 + |ts|]) == ts
    ensures LineTexts(text2, l2[first..cur + 1 + |ts|]) == LineTexts(text1, l1[first..cur + 1]) + ts
  {
    var a, b := l2[first..cur + 1], l2[cur + 1..cur + 1 + |ts|];
    assert l2[first..cur + 1 + |ts|] == a + b;
    assert a == l1[first..cur + 1] by {
      assert a == l2[..cur + 1][first..] && l1[first..cur + 1] == l1[..cur + 1][first..];
    }
    forall i | 0 <= i < |a| ensures LineTexts(text2, a)[i] == LineTexts(text1, a)[i] {
      assert a[i] == l1[first + i];
    }
    assert LineTexts(text2, a + b) == LineTexts(text2, a) + LineTexts(text2, b);
  }

  // ---------------------------------------------------------------- search_and_replace

  /** The line behind line `cur` has become the lines `After` says; the last of them is current. */
  ghost predicate LineDone(s: Ed, v: View, cur: int, subst: Subst, s': Ed, v': View) {
    && v'.saved == v.saved && TextKept(s.text, s'.text) && SameRest(s, s')
    && 0 <= cur < |v.lines| - 1 && v.lines[cur + 1] in s.text
    && var n, hit := v.lines[cur + 1], Hit(s.text, subst, v.lines[cur + 1]);
       var ts := After(s.text[n], subst);
       && |v'.lines| == |v.lines| - 1 + |ts| && s'.currentAddr == cur + |ts|
       && v'.lines[..cur + 1] == v.lines[..cur + 1] && v'.lines[cur + 1 + |ts|..] == v.lines[cur + 2..]
       && LineTexts(s'.text, v'.lines[cur + 1..cur + 1 + |ts|]) == ts
       && (!hit ==> v'.lines == v.lines)
       && s'.yank == (if hit then [s.text[n]] else s.yank) && s'.modified == (s.modified || hit)
  }

  /** Replace the line behind line `cur` by other lines. */
  method ReplaceLine(s: Ed, act: Active, cur: int, ts: seq<Text>, isglobal: bool, ghost v: View)
    returns (s': Ed, act': Active, ghost v': View)
    requires Valid(s, v) && |v.lines| == s.lastAddr + 1 && 0 <= cur < s.lastAddr
    requires isglobal ==> ActiveOk(act, v.lines)
    ensures Valid(s', v') && v'.saved == v.saved && TextKept(s.text, s'.text) && SameRest(s, s')
    ensures |v'.lines| == |v.lines| - 1 + |ts| && s'.currentAddr == cur + |ts|
    ensures v'.lines[..cur + 1] == v.lines[..cur + 1] && v'.lines[cur + 1 + |ts|..] == v.lines[cur + 2..]
    ensures LineTexts(s'.text, v'.lines[cur + 1..cur + 1 + |ts|]) == ts
    ensures v.lines[cur + 1] in s.text && s'.yank == [s.text[v.lines[cur + 1]]] && s'.modified
    ensures !isglobal ==> act' == act
    ensures isglobal ==> ActiveOk(act', v'.lines) && ClearedOf(act, {v.lines[cur + 1]}, act')
  {
    hide Valid, ActiveOk, Cleared, ClearedOf, Carries, GrownView, DeletedView, TextKept, LineTexts, Texts;
    var s1;
    s1, act', v' := DeleteLines(s, act, cur + 1, cur + 1, isglobal, v);
    ghost var w := v';
    Bounds(s1, w);
    ghost var seg;
    s', v', seg := AppendLines(s1, cur, ts, v');
    CutLine(v, cur, s.text);
    ReplacedLine(v, w, cur, seg, s1.text, ts, s'.text);
    if isglobal {
      GrowActive(act', w, cur, seg);
      ClearedLine(act, v.lines, cur + 1, act');
    }
  }

  /** Deal with the line behind line `cur`. */
  method SubstituteLine(s: Ed, act: Active, cur: int, subst: Subst, isglobal: bool, ghost v: View)
    returns (hit: bool, s': Ed, act': Active, ghost v': View)
    requires Valid(s, v) && |v.lines| == s.lastAddr + 1 && 0 <= cur < s.lastAddr
    requires isglobal ==> ActiveOk(act, v.lines)
    ensures Valid(s', v') && LineDone(s, v, cur, subst, s', v') && hit == Hit(s.text, subst, v.lines[cur + 1])
    ensures !isglobal ==> act' == act
    ensures isglobal ==> ActiveOk(act', v'.lines) && ClearedOf(act, if hit then {v.lines[cur + 1]} else {}, act')
  {
    hide Valid, ActiveOk, ClearedOf, TextKept, LineTexts, ListOk;
    TextsIn(s, v);
    ListOkOf(s, v);
    var s1, lp := SearchLineNode(s, IncAddr(s, cur), v.lines);
    CacheValid(s, v, s1);
    var ts := subst(s1.text[lp]);
    hit := ts != [];
    if hit {
      s', act', v' := ReplaceLine(s1, act, cur, ts, isglobal, v);
    } else {
      s', act', v' := s1.(currentAddr := cur + 1), act, v;
      CurrentValid(s1, v, cur + 1);
      OneText(s.text, v.lines, cur + 1);
      KeptSame(s.text);
      ClearedNone(act);
    }
  }

  lemma {:induction false} ClearedLine(a: Active, lines: seq<Line>, i: nat, a': Active)
    requires i < |lines| && Cleared(a, lines[i..i + 1], a')
    ensures ClearedOf(a, {lines[i]}, a')
  {
    assert lines[i..i + 1] == [lines[i]];
    ClearedElems(a, lines[i..i + 1], a');
    assert Elems(lines[i..i + 1]) == {lines[i]};
  }

  lemma {:induction false} CutLine(v: View, cur: nat, text: map<Line, Text>)
    requires cur + 1 < |v.lines| && v.lines[cur + 1] in text
    ensures var w := DeletedView(v, cur + 1, cur + 1);
      && w.saved == v.saved && |w.lines| == |v.lines| - 1
      && w.lines[..cur + 1] == v.lines[..cur + 1] && w.lines[cur + 1..] == v.lines[cur + 2..]
    ensures Texts(text, v.lines, cur + 1, cur + 2) == [text[v.lines[cur + 1]]]
  {
  }

  lemma {:induction false} ReplacedLine(v: View, w: View, cur: nat, seg: seq<Line>, text: map<Line, Text>,
      ts: seq<Text>,
      text': map<Line, Text>)
    requires cur < |w.lines| && cur + 1 < |v.lines| && Carries(text, seg, ts, text')
    requires w.saved == v.saved && w.lines[..cur + 1] == v.lines[..cur + 1] && w.lines[cur + 1..] == v.lines[cur + 2..]
    requires |w.lines| == |v.lines| - 1
    ensures var v' := GrownView(w, cur, seg);
      && v'.saved == v.saved && |v'.lines| == |v.lines| - 1 + |ts|
      && v'.lines[..cur + 1] == v.lines[..cur + 1] && v'.lines[cur + 1 + |ts|..] == v.lines[cur + 2..]
      && LineTexts(text', v'.lines[cur + 1..cur + 1 + |ts|]) == ts
    ensures TextKept(text, text')
  {
    hide LineTexts, Carries, GrownView;
    GrownIsAdded(w, cur, seg, text, ts, text');
  }

  lemma {:induction false} OneText(text: map<Line, Text>, lines: seq<Line>, i: nat)
    requires i < |lines| && lines[i] in text
    ensures LineTexts(text, lines[i..i + 1]) == [text[lines[i]]]
  {
  }

  lemma {:induction false} KeptSame(text: map<Line, Text>)
    ensures TextKept(text, text)
  {
  }

  lemma {:induction false} KeptTrans(a: map<Line, Text>, b: map<Line, Text>, c: map<Line, Text>)
    requires TextKept(a, b) && TextKept(b, c)
    ensures TextKept(a, c)
  {
  }

  lemma {:induction false} CurrentValid(s: Ed, v: View, addr: int)
    requires Valid(s, v) && 0 <= addr <= s.lastAddr
    ensures Valid(s.(currentAddr := addr), v)
  {
  }

  /** Replace the matches in a range of lines.  Outside a global command a range without a match is an
      error. */
  method SearchAndReplace(s: Ed, act: Active, first: int, second: int, subst: Subst, isglobal: bool, ghost v: View)
    returns (ok: bool, s': Ed, act': Active, ghost v': View)
    requires Valid(s, v) && |v.lines| == s.lastAddr + 1 && 1 <= first <= second <= s.lastAddr
    requires isglobal ==> ActiveOk(act, v.lines)
    ensures Valid(s', v') && v'.saved == v.saved && TextKept(s.text, s'.text) && SameRest(s, s')
    ensures Substituted(s.text, v.lines, first, second + 1, subst, s'.text, v'.lines, s'.currentAddr)
    ensures s'.yank == LastCut(LineTexts(s.text, v.lines[first..second + 1]), subst, s.yank)
    ensures ok <==> isglobal || Hits(s.text, v.lines[first..second + 1], subst) != {}
    ensures s'.modified == (s.modified || Hits(s.text, v.lines[first..second + 1], subst) != {})
    ensures !isglobal ==> act' == act
    ensures isglobal ==>
      ActiveOk(act', v'.lines) && ClearedOf(act, Hits(s.text, v.lines[first..second + 1], subst), act')
  {
    hide Valid, ActiveOk, ClearedOf, Replacing, Hits, Hit, LineDone, Substituted, LastCut, LineTexts, TextKept, IsList;
    s', act', v' := s.(currentAddr := first - 1), act, v;
    ReplacingNone(s, v, first, subst);
    ClearedNone(act);
    var nsubs, lc := 0, 0;
    while lc <= second - first
      invariant 0 <= lc <= second - first + 1 && 0 <= nsubs && Valid(s', v')
      invariant Replacing(s, v, first, first + lc, subst, s', v')
      invariant nsubs > 0 <==> Hits(s.text, v.lines[first..first + lc], subst) != {}
      invariant !isglobal ==> act' == act
      invariant isglobal ==>
        ActiveOk(act', v'.lines) && ClearedOf(act, Hits(s.text, v.lines[first..first + lc], subst), act')
    {
      var hit, s1, act1;
      ghost var v1;
      Bounds(s', v');
      NextLine(s, v, first, first + lc, subst, s', v');
      hit, s1, act1, v1 := SubstituteLine(s', act', s'.currentAddr, subst, isglobal, v');
      ReplacingMore(s, v, first, first + lc, subst, s', v', s1, v1);
      if isglobal {
        ClearedMore(act, Hits(s.text, v.lines[first..first + lc], subst), act',
                    if hit then {v.lines[first + lc]} else {}, act1);
      }
      s', act', v' := s1, act1, v1;
      nsubs := nsubs + if hit then 1 else 0;
      lc := lc + 1;
    }
    ok := nsubs != 0 || isglobal;
    ReplacingDone(s, v, first, second + 1, subst, s', v');
  }

  /** The loop invariant: the lines from `first` to below `next` have been dealt with. */
  ghost predicate Replacing(s: Ed, v: View, first: int, next: int, subst: Subst, s1: Ed, v1: View) {
    && v1.saved == v.saved && TextKept(s.text, s1.text) && SameRest(s, s1)
    && Substituted(s.text, v.lines, first, next, subst, s1.text, v1.lines, s1.currentAddr)
    && s1.yank == LastCut(LineTexts(s.text, v.lines[first..next]), subst, s.yank)
    && s1.modified == (s.modified || Hits(s.text, v.lines[first..next], subst) != {})
  }

  lemma {:induction false} ReplacingNone(s: Ed, v: View, first: int, subst: Subst)
    requires Valid(s, v) && |v.lines| == s.lastAddr + 1 && 1 <= first <= s.lastAddr
    ensures var s1 := s.(currentAddr := first - 1); Valid(s1, v) && Replacing(s, v, first, first, subst, s1, v)
    ensures Hits(s.text, v.lines[first..first], subst) == {}
  {
    hide Valid, LineTexts, Substituted, Hits, LastCut;
    CurrentValid(s, v, first - 1);
    SubstitutedNone(s.text, v.lines, first, subst);
    NoHits(s.text, v.lines, first, subst, s.yank);
    KeptSame(s.text);
  }

  lemma {:induction false} ReplacingMore(s: Ed, v: View, first: int, next: int, subst: Subst, s1: Ed, v1: View,
      s2: Ed, v2: View)
    requires Replacing(s, v, first, next, subst, s1, v1) && 0 <= next < |v.lines|
    requires Valid(s, v) && Valid(s1, v1) && LineDone(s1, v1, s1.currentAddr, subst, s2, v2)
    ensures Replacing(s, v, first, next + 1, subst, s2, v2)
    ensures var n := v.lines[next];
      && Hit(s1.text, subst, n) == Hit(s.text, subst, n)
      && Hits(s.text, v.lines[first..next + 1], subst) ==
         Hits(s.text, v.lines[first..next], subst) + (if Hit(s.text, subst, n) then {n} else {})
  {
    hide Valid, LineTexts, Substituted, Hits, LastCut, Hit, TextKept, After;
    NextLine(s, v, first, next, subst, s1, v1);
    SameHit(s.text, s1.text, subst, v.lines[next]);
    SubstitutedStep(s, v, first, next, subst, s1, v1, s2, v2);
    KeptTrans(s.text, s1.text, s2.text);
  }

  lemma {:induction false} ReplacingDone(s: Ed, v: View, first: int, next: int, subst: Subst, s1: Ed, v1: View)
    requires Replacing(s, v, first, next, subst, s1, v1)
    ensures v1.saved == v.saved && TextKept(s.text, s1.text) && SameRest(s, s1)
    ensures Substituted(s.text, v.lines, first, next, subst, s1.text, v1.lines, s1.currentAddr)
    ensures s1.yank == LastCut(LineTexts(s.text, v.lines[first..next]), subst, s.yank)
    ensures s1.modified == (s.modified || Hits(s.text, v.lines[first..next], subst) != {})
  {
  }

  lemma {:induction false} NoHits(text: map<Line, Text>, l: seq<Line>, first: int, subst: Subst, yank: seq<Text>)
    requires 0 <= first <= |l|
    ensures Hits(text, l[first..first], subst) == {} && LastCut(LineTexts(text, l[first..first]), subst, yank) == yank
  {
    assert l[first..first] == [];
    assert LineTexts(text, []) == [];
  }

  /** A line of the range not dealt with yet is behind the current line, with its own text. */
  lemma {:induction false} NextLine(s: Ed, v: View, first: int, next: int, subst: Subst, s1: Ed, v1: View)
    requires Replacing(s, v, first, next, subst, s1, v1) && 0 <= next < |v.lines| && Valid(s, v) && Valid(s1, v1)
    ensures 0 <= s1.currentAddr < |v1.lines| - 1 && v1.lines[s1.currentAddr + 1] == v.lines[next]
    ensures v.lines[next] in s.text && v.lines[next] in s1.text && s1.text[v.lines[next]] == s.text[v.lines[next]]
    ensures forall i :: 0 <= i < |v1.lines| ==> v1.lines[i] in s1.text
  {
    hide Valid;
    TextsIn(s, v);
    TextsIn(s1, v1);
    assert |v1.lines[s1.currentAddr + 1..]| == |v.lines[next..]|;
    assert v1.lines[s1.currentAddr + 1] == v1.lines[s1.currentAddr + 1..][0];
  }

  lemma {:induction false} SameHit(text: map<Line, Text>, text': map<Line, Text>, subst: Subst, n: Line)
    requires n in text && n in text' && text'[n] == text[n]
    ensures Hit(text', subst, n) == Hit(text, subst, n) && (Hit(text, subst, n) <==> subst(text[n]) != [])
  {
  }

  lemma {:induction false} SubstitutedStep(s: Ed, v: View, first: int, next: int, subst: Subst, s1: Ed, v1: View,
      s2: Ed, v2: View)
    requires Substituted(s.text, v.lines, first, next, subst, s1.text, v1.lines, s1.currentAddr)
    requires 0 <= next < |v.lines| && v.lines[next] in s.text && TextKept(s1.text, s2.text)
    requires forall i :: 0 <= i < |v1.lines| ==> v1.lines[i] in s1.text
    requires 0 <= s1.currentAddr < |v1.lines| - 1
    requires var ts, cur := After(s.text[v.lines[next]], subst), s1.currentAddr;
      && |v2.lines| == |v1.lines| - 1 + |ts| && s2.currentAddr == cur + |ts|
      && v2.lines[..cur + 1] == v1.lines[..cur + 1] && v2.lines[cur + 1 + |ts|..] == v1.lines[cur + 2..]
      && LineTexts(s2.text, v2.lines[cur + 1..cur + 1 + |ts|]) == ts
      && (!Hit(s.text, subst, v.lines[next]) ==> v2.lines == v1.lines)
    ensures Substituted(s.text, v.lines, first, next + 1, subst, s2.text, v2.lines, s2.currentAddr)
    ensures Hits(s.text, v.lines[first..next + 1], subst) ==
      Hits(s.text, v.lines[first..next], subst) + (if Hit(s.text, subst, v.lines[next]) then {v.lines[next]} else {})
    ensures LastCut(LineTexts(s.text, v.lines[first..next + 1]), subst, s.yank) ==
      if subst(s.text[v.lines[next]]) != [] then [s.text[v.lines[next]]]
      else LastCut(LineTexts(s.text, v.lines[first..next]), subst, s.yank)
  {
    hide LineTexts, Hit, Hits, LastCut, After;
    SubstitutedBounds(s.text, v.lines, first, next, subst, s1.text, v1.lines, s1.currentAddr);
    SubstitutedMore(s.text, v.lines, first, next, subst, s1.text, v1.lines, s1.currentAddr, s2.text, v2.lines,
                    After(s.text[v.lines[next]], subst));
    assert v.lines[first..next + 1] == v.lines[first..next] + [v.lines[next]];
    HitsMore(s.text, v.lines[first..next], v.lines[next], subst);
    ReplacedMore(s.text, v.lines[first..next], v.lines[next], subst, s.yank);
  }

  lemma {:induction false} SubstitutedBounds(text: map<Line, Text>, l: seq<Line>, first: int, next: int, subst: Subst,
      text': map<Line, Text>, l': seq<Line>, cur: int)
    requires Substituted(text, l, first, next, subst, text', l', cur)
    ensures 1 <= first <= next <= |l| && first - 1 <= cur < |l'|
  {
  }
}
