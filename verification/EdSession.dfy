/** Whole runs of ed: the global command, undo after any sequence of recorded edits, and the
    editor object that the main loop drives. */
module EdSession {
  import opened EdLinks
  import opened EdUndo
  import opened EdBuffer
  import opened EdActive
  import opened EdEdit
  import opened EdSubst
  import opened EdHistory
  import opened EdFree
  import opened EdCommand

  ghost predicate NoUndo(cmds: seq<Command>) {
    forall i :: 0 <= i < |cmds| ==> !cmds[i].Undo?
  }

  /** What the commands of one line of a global command leave alone, if none of them is undo. */
  ghost predicate SameSaved(s: Ed, v: View, s': Ed, v': View) {
    v'.saved == v.saved && s'.uCurrentAddr == s.uCurrentAddr && s'.uAddrLast == s.uAddrLast
  }

  // ---------------------------------------------------------------- command lists

  /** The buffers a command list went through, the first before any command */
  datatype Run = Run(states: seq<Ed>, views: seq<View>)

  ghost predicate Works(cmd: Command, s: Ed, v: View) {
    |v.lines| == s.lastAddr + 1 && Accepted(s, cmd) && Succeeds(true, cmd, s, v)
  }

  /** The lines a command takes out of the active list; none if its addresses are refused */
  ghost function Names(cmd: Command, s: Ed, v: View): set<Line> {
    if |v.lines| == s.lastAddr + 1 && Accepted(s, cmd) then Gone(cmd, s, v) else {}
  }

  /** `r` is the execution of `cmds` inside a global command: each buffer comes from the one before by
      its command, and the first command that fails is the last to be executed. */
  ghost predicate Chain(cmds: seq<Command>, r: Run, ok: bool) {
    && 0 < |r.states| == |r.views| <= |cmds| + 1
    && (forall i :: 0 <= i < |r.states| ==> Valid(r.states[i], r.views[i]))
    && (forall i :: 0 <= i < |r.states| - 1 ==>
          Executed(true, cmds[i], r.states[i], r.views[i], r.states[i + 1], r.views[i + 1]))
    && (forall i :: 0 <= i < |r.states| - 1 ==>
          (Works(cmds[i], r.states[i], r.views[i]) <==> ok || i < |r.states| - 2))
    && (if ok then |r.states| == |cmds| + 1 else |r.states| > 1)
  }

  /** The lines named by the commands of a run */
  ghost function NamedBy(cmds: seq<Command>, r: Run): set<Line> {
    set i, n |
      && 0 <= i < |r.states| - 1 && i < |cmds| && i < |r.views|
      && n in Names(cmds[i], r.states[i], r.views[i]) :: n
  }

  lemma {:induction false} ChainNone(cmds: seq<Command>, s: Ed, v: View, r: Run)
    requires Valid(s, v) && r == Run([s], [v])
    ensures Chain(cmds[..0], r, true) && NamedBy(cmds[..0], r) == {}
  {
    hide Valid;
  }

  lemma {:induction false} ChainMore(cmds: seq<Command>, r: Run, cmd: Command, s: Ed, v: View, ok: bool)
    requires Chain(cmds, r, true) && Valid(s, v)
    requires var k := |cmds|; Executed(true, cmd, r.states[k], r.views[k], s, v)
    requires ok == Works(cmd, r.states[|cmds|], r.views[|cmds|])
    ensures Chain(cmds + [cmd], Run(r.states + [s], r.views + [v]), ok)
    ensures var named := Names(cmd, r.states[|cmds|], r.views[|cmds|]);
      NamedBy(cmds + [cmd], Run(r.states + [s], r.views + [v])) == NamedBy(cmds, r) + named
  {
    hide Valid, Executed, Works, Names;
    NamedMore(cmds, r, cmd, s, v);
  }

  lemma {:induction false} NamedMore(cmds: seq<Command>, r: Run, cmd: Command, s: Ed, v: View)
    requires 0 < |r.states| == |r.views| == |cmds| + 1
    ensures var named := Names(cmd, r.states[|cmds|], r.views[|cmds|]);
      NamedBy(cmds + [cmd], Run(r.states + [s], r.views + [v])) == NamedBy(cmds, r) + named
  {
    hide Names;
    var cmds', r', k := cmds + [cmd], Run(r.states + [s], r.views + [v]), |cmds|;
    forall n ensures n in NamedBy(cmds', r') <==> n in NamedBy(cmds, r) || n in Names(cmd, r.states[k], r.views[k]) {
      if n in NamedBy(cmds, r) {
        var i :| 0 <= i < k && n in Names(cmds[i], r.states[i], r.views[i]);
        assert n in Names(cmds'[i], r'.states[i], r'.views[i]);
      }
      if n in Names(cmd, r.states[k], r.views[k]) {
        assert n in Names(cmds'[k], r'.states[k], r'.views[k]);
      }
      if n in NamedBy(cmds', r') {
        var i :| 0 <= i <= k && n in Names(cmds'[i], r'.states[i], r'.views[i]);
        assert i < k ==> n in Names(cmds[i], r.states[i], r.views[i]);
      }
    }
  }

  /** A run that failed early is a run of the whole list. */
  lemma {:induction false} ChainFailed(cmds: seq<Command>, k: nat, r: Run)
    requires k <= |cmds| && Chain(cmds[..k], r, false)
    ensures Chain(cmds, r, false) && NamedBy(cmds, r) == NamedBy(cmds[..k], r)
  {
    hide Valid, Executed, Works, Names;
    assert forall i :: 0 <= i < k ==> cmds[..k][i] == cmds[i];
  }

  /** Execute a list of commands inside a global command, stopping at the first that fails. */
  method RunCommands(s: Ed, act: Active, cmds: seq<Command>, ghost v: View)
    returns (ok: bool, s': Ed, act': Active, ghost v': View, ghost r: Run)
    requires Valid(s, v) && |v.lines| == s.lastAddr + 1 && ActiveOk(act, v.lines)
    ensures Valid(s', v') && |v'.lines| == s'.lastAddr + 1 && ActiveOk(act', v'.lines)
    ensures Chain(cmds, r, ok) && r.states[0] == s && r.views[0] == v
    ensures r.states[|r.states| - 1] == s' && r.views[|r.views| - 1] == v'
    ensures Dropped(act, act') && TextKept(s.text, s'.text)
    ensures NoUndo(cmds) ==> SameSaved(s, v, s', v') && ClearedOf(act, NamedBy(cmds, r), act')
  {
    hide Valid, ActiveOk, Dropped, TextKept, Executed, Chain, NamedBy, ClearedOf, Gone, Succeeds;
    ok, s', act', v', r := true, s, act, v, Run([s], [v]);
    DroppedNone(act);
    ClearedNone(act);
    KeptSame(s.text);
    ChainNone(cmds, s, v, r);
    var i := 0;
    while i < |cmds|
      invariant 0 <= i <= |cmds|
      invariant Valid(s', v') && |v'.lines| == s'.lastAddr + 1 && ActiveOk(act', v'.lines)
      invariant |r.states| == |r.views| == i + 1 && Chain(cmds[..i], r, true) && ok
      invariant r.states[0] == s && r.views[0] == v && r.states[i] == s' && r.views[i] == v'
      invariant Dropped(act, act') && TextKept(s.text, s'.text)
      invariant NoUndo(cmds) ==> SameSaved(s, v, s', v') && ClearedOf(act, NamedBy(cmds[..i], r), act')
    {
      ghost var act1, s1, v1, r1 := act', s', v', r;
      ok, s', act', v' := ExecCommand(s', act', cmds[i], true, v');
      r := Run(r1.states + [s'], r1.views + [v']);
      assert cmds[..i] + [cmds[i]] == cmds[..i + 1];
      ChainMore(cmds[..i], r1, cmds[i], s', v', ok);
      DroppedTrans(act, act1, act');
      KeptTrans(s.text, s1.text, s'.text);
      if NoUndo(cmds) {
        ClearedMore(act, NamedBy(cmds[..i], r1), act1, Names(cmds[i], s1, v1), act');
      }
      i := i + 1;
      if !ok {
        ChainFailed(cmds, i, r);
        return;
      }
    }
    assert cmds[..i] == cmds;
  }

  // ---------------------------------------------------------------- the global command

  /** The visit to one line: its node, the commands executed there and how they went */
  datatype Round = Round(node: Line, cmds: seq<Command>, ok: bool, run: Run)

  /** The line was on the buffer when it was reached, and the commands found it the current line. */
  ghost predicate RoundOk(r: Round) {
    && Chain(r.cmds, r.run, r.ok)
    && var s, v := r.run.states[0], r.run.views[0];
       0 < s.currentAddr < |v.lines| && v.lines[s.currentAddr] == r.node
  }

  ghost predicate Begins(s: Ed, v: View, r: Run) {
    && 0 < |r.states| == |r.views| && r.views[0] == v
    && r.states[0] == s.(currentAddr := r.states[0].currentAddr)
  }

  ghost predicate Ends(r: Run, s: Ed, v: View) {
    0 < |r.states| == |r.views| && r.states[|r.states| - 1] == s && r.views[|r.views| - 1] == v
  }

  ghost predicate Follows(r: Round, next: Round) {
    var states, views := r.run.states, r.run.views;
    |states| > 0 && |views| > 0 && Begins(states[|states| - 1], views[|views| - 1], next.run)
  }

  /** The visits follow one another from (s, v) to (s', v'), the i-th by the i-th command list; only
      the last may have failed. */
  ghost predicate Rounds(lists: seq<seq<Command>>, s: Ed, v: View, rounds: seq<Round>, s': Ed, v': View, ok: bool) {
    && (forall i :: 0 <= i < |rounds| ==> RoundOk(rounds[i]))
    && (forall i :: 0 <= i < |rounds| ==> rounds[i].cmds == if i < |lists| then lists[i] else [])
    && (forall i :: 0 <= i < |rounds| ==> rounds[i].ok == (ok || i < |rounds| - 1))
    && (forall i :: 0 <= i < |rounds| - 1 ==> Follows(rounds[i], rounds[i + 1]))
    && (if |rounds| == 0 then ok && s' == s && v' == v
        else Begins(s, v, rounds[0].run) && Ends(rounds[|rounds| - 1].run, s', v'))
  }

  lemma {:induction false} RoundsMore(lists: seq<seq<Command>>, s: Ed, v: View, rounds: seq<Round>, s1: Ed, v1: View,
      r: Round, s2: Ed, v2: View)
    requires Rounds(lists, s, v, rounds, s1, v1, true) && RoundOk(r) && Begins(s1, v1, r.run) && Ends(r.run, s2, v2)
    requires r.cmds == if |rounds| < |lists| then lists[|rounds|] else []
    ensures Rounds(lists, s, v, rounds + [r], s2, v2, r.ok)
  {
    hide RoundOk, Follows;
    var k, rs := |rounds|, rounds + [r];
    if k > 0 {
      EndsFollow(rounds[k - 1], s1, v1, r);
    }
    forall i | 0 <= i < |rs| - 1 ensures Follows(rs[i], rs[i + 1]) {
      assert i < k - 1 ==> Follows(rounds[i], rounds[i + 1]);
    }
  }

  lemma {:induction false} EndsFollow(r: Round, s: Ed, v: View, next: Round)
    requires Ends(r.run, s, v) && Begins(s, v, next.run)
    ensures Follows(r, next)
  {
  }

  /** Each visit is to an entry of the list, at the places `idx`, which go up; the search has gone
      past them. */
  ghost predicate Visited(a0: Active, rounds: seq<Round>, idx: seq<int>, a: Active) {
    && |idx| == |rounds| && Increasing(idx) && Dropped(a0.(ptr := a.ptr), a) && 0 <= a0.ptr
    && (forall i :: 0 <= i < |idx| ==>
          a0.ptr <= idx[i] < |a0.list| && rounds[i].node == a0.list[idx[i]] && rounds[i].node != NIL)
    && (a.list != [] ==> a0.ptr <= a.ptr && forall i :: 0 <= i < |idx| ==> idx[i] < a.ptr)
  }

  /** The lines named by the commands of visits to entries before the k-th */
  ghost function NamedBefore(rounds: seq<Round>, idx: seq<int>, k: int): set<Line>
    requires |idx| == |rounds|
  {
    set i, n | 0 <= i < |rounds| && idx[i] < k && n in NamedBy(rounds[i].cmds, rounds[i].run) :: n
  }

  /** Which entries are visited: those that no command executed for an earlier entry has named. */
  ghost predicate Covers(a0: Active, rounds: seq<Round>, idx: seq<int>, a: Active)
    requires |idx| == |rounds|
  {
    && 0 <= a0.ptr <= a.ptr <= |a0.list|
    && (forall i :: 0 <= i < |idx| ==> idx[i] < a.ptr)
    && ClearedOf(a0.(ptr := a.ptr), NamedBefore(rounds, idx, a.ptr), a)
    && forall k :: a0.ptr <= k < a.ptr && a0.list[k] != NIL ==>
         (k in idx <==> a0.list[k] !in NamedBefore(rounds, idx, k))
  }

  lemma {:induction false} VisitNone(a: Active, rounds: seq<Round>, idx: seq<int>)
    requires |rounds| == |idx| == 0 && 0 <= a.ptr <= |a.list|
    ensures Visited(a, rounds, idx, a) && Covers(a, rounds, idx, a)
  {
    assert NamedBefore(rounds, idx, a.ptr) == {};
  }

  lemma {:induction false} VisitNext(a0: Active, rounds: seq<Round>, idx: seq<int>, a: Active, r: Round,
      a1: Active, a2: Active)
    requires Visited(a0, rounds, idx, a) && r.node != NIL && a1 == a.(ptr := a1.ptr)
    requires 0 <= a.ptr < a1.ptr <= |a.list| && r.node == a.list[a1.ptr - 1] && Dropped(a1, a2)
    ensures Visited(a0, rounds + [r], idx + [a1.ptr - 1], a2)
  {
  }

  lemma {:induction false} VisitPast(a0: Active, rounds: seq<Round>, idx: seq<int>, a: Active, a1: Active)
    requires Visited(a0, rounds, idx, a) && a1 == a.(ptr := a1.ptr) && a.ptr <= a1.ptr
    ensures Visited(a0, rounds, idx, a1)
  {
  }

  lemma {:induction false} VisitedOnce(a0: Active, lines: seq<Line>, rounds: seq<Round>, idx: seq<int>, a: Active)
    requires ActiveOk(a0, lines) && Visited(a0, rounds, idx, a)
    ensures forall i, j :: 0 <= i < j < |rounds| ==> rounds[i].node != rounds[j].node
  {
  }

  /** Going past entries that are cleared. */
  lemma {:induction false} CoversPast(a0: Active, rounds: seq<Round>, idx: seq<int>, a: Active, a1: Active)
    requires |idx| == |rounds|
    requires Covers(a0, rounds, idx, a) && a1 == a.(ptr := a1.ptr) && a.ptr <= a1.ptr <= |a.list|
    requires forall k :: a.ptr <= k < a1.ptr ==> a.list[k] == NIL
    ensures Covers(a0, rounds, idx, a1)
  {
    hide NamedBy;
    NamedAll(rounds, idx, a.ptr, a1.ptr);
    forall k | a.ptr <= k < a1.ptr && a0.list[k] != NIL
      ensures k !in idx && a0.list[k] in NamedBefore(rounds, idx, k)
    {
      NamedAll(rounds, idx, a.ptr, k);
    }
  }

  /** All visits so far are before `k`, so any later bound gives the same lines. */
  lemma {:induction false} NamedAll(rounds: seq<Round>, idx: seq<int>, k: int, k': int)
    requires |idx| == |rounds| && k <= k'
    requires forall i :: 0 <= i < |idx| ==> idx[i] < k
    ensures NamedBefore(rounds, idx, k') == NamedBefore(rounds, idx, k)
  {
    hide NamedBy;
  }

  lemma {:induction false} NamedNext(rounds: seq<Round>, idx: seq<int>, r: Round, p: int, k: int)
    requires |idx| == |rounds|
    ensures NamedBefore(rounds + [r], idx + [p], k) ==
            NamedBefore(rounds, idx, k) + if p < k then NamedBy(r.cmds, r.run) else {}
  {
    hide NamedBy;
    var rs, ks := rounds + [r], idx + [p];
    var was, now := NamedBefore(rounds, idx, k), NamedBefore(rs, ks, k);
    forall n ensures n in now <==> n in was || (p < k && n in NamedBy(r.cmds, r.run)) {
      if n in was {
        var i :| 0 <= i < |rounds| && idx[i] < k && n in NamedBy(rounds[i].cmds, rounds[i].run);
        assert rs[i] == rounds[i] && ks[i] == idx[i];
      }
      if p < k && n in NamedBy(r.cmds, r.run) {
        assert rs[|rounds|] == r && ks[|rounds|] == p;
      }
      if n in now {
        var i :| 0 <= i < |rs| && ks[i] < k && n in NamedBy(rs[i].cmds, rs[i].run);
        assert i < |rounds| ==> rs[i] == rounds[i] && ks[i] == idx[i];
      }
    }
  }

  /** The visit to the entry just gone past, by commands that name `NamedBy(r)`. */
  lemma {:induction false} CoversNext(a0: Active, rounds: seq<Round>, idx: seq<int>, a: Active, r: Round, a1: Active,
      a2: Active)
    requires |idx| == |rounds|
    requires Covers(a0, rounds, idx, a) && a.ptr < |a.list| && a1 == a.(ptr := a.ptr + 1) && a.list[a.ptr] != NIL
    requires ClearedOf(a1, NamedBy(r.cmds, r.run), a2)
    ensures Covers(a0, rounds + [r], idx + [a.ptr], a2)
  {
    hide NamedBy, NamedBefore;
    var p, ks := a.ptr, idx + [a.ptr];
    NamedNext(rounds, idx, r, p, p + 1);
    NamedAll(rounds, idx, p, p + 1);
    NamedNext(rounds, idx, r, p, p);
    assert ks[|idx|] == p;
    forall k | a0.ptr <= k < p && a0.list[k] != NIL
      ensures k in ks <==> a0.list[k] !in NamedBefore(rounds + [r], ks, k)
    {
      NamedNext(rounds, idx, r, p, k);
    }
  }

  /** A global command from the moment the lines have been marked: the active list, the buffer with
      its undo stack cleared, and the visits with their places on the list */
  datatype Tour = Tour(act: Active, start: Ed, view: View, rounds: seq<Round>, idx: seq<int>)

  /** Clearing the undo stack leaves the lines, their texts, their marks, the addresses and the cut
      buffer, and makes this buffer the one that undo goes back to. */
  ghost predicate Started(s: Ed, v: View, s0: Ed, v0: View) {
    && v0.lines == v.lines && v0.saved == v.lines && LinesKept(v.lines, s.text, s0.text) && MarksKept(false, s, v, s0)
    && s0.currentAddr == s.currentAddr && s0.lastAddr == s.lastAddr && s0.yank == s.yank
    && UndoTo(s0, s.currentAddr, s.lastAddr) && s0.modified == s.modified
  }

  /** No command executed is undo. */
  ghost predicate Straight(rounds: seq<Round>) {
    forall i :: 0 <= i < |rounds| ==> NoUndo(rounds[i].cmds)
  }

  lemma {:induction false} StraightMore(rounds: seq<Round>, r: Round)
    requires Straight(rounds + [r])
    ensures Straight(rounds) && NoUndo(r.cmds)
  {
    hide NoUndo;
    var rs := rounds + [r];
    assert rs[|rounds|] == r && forall i :: 0 <= i < |rounds| ==> rs[i] == rounds[i];
  }

  /** A global command so far: it has reached (s, v) and the list `a`; every line there was when it
      started, on the buffer still or not, has its text. */
  ghost predicate Touring(lists: seq<seq<Command>>, t: Tour, ok: bool, s: Ed, v: View, a: Active) {
    && Rounds(lists, t.start, t.view, t.rounds, s, v, ok)
    && Visited(t.act, t.rounds, t.idx, a)
    && TextKept(t.start.text, s.text)
    && (Straight(t.rounds) ==> Covers(t.act, t.rounds, t.idx, a) && SameSaved(t.start, t.view, s, v))
  }

  /** What a global command comes to: no line is visited twice, and without an error the whole list
      has been gone through. */
  ghost predicate Toured(lists: seq<seq<Command>>, t: Tour, ok: bool, s: Ed, v: View, a: Active) {
    && Touring(lists, t, ok, s, v, a) && (ok ==> a.ptr == |a.list|)
    && (forall i, j :: 0 <= i < j < |t.rounds| ==> t.rounds[i].node != t.rounds[j].node)
  }

  lemma {:induction false} TourStart(lists: seq<seq<Command>>, t: Tour)
    requires |t.rounds| == |t.idx| == 0 && 0 <= t.act.ptr <= |t.act.list| && t.view.saved == t.view.lines
    ensures Touring(lists, t, true, t.start, t.view, t.act)
  {
    VisitNone(t.act, t.rounds, t.idx);
    KeptSame(t.start.text);
  }

  lemma {:induction false} TourPast(lists: seq<seq<Command>>, t: Tour, s: Ed, v: View, a: Active, a1: Active)
    requires Touring(lists, t, true, s, v, a) && a1 == a.(ptr := a1.ptr) && 0 <= a.ptr <= a1.ptr <= |a.list|
    requires forall k :: a.ptr <= k < a1.ptr ==> a.list[k] == NIL
    ensures Touring(lists, t, true, s, v, a1)
  {
    hide Rounds, Visited, Covers, TextKept;
    VisitSize(t.act, t.rounds, t.idx, a);
    VisitPast(t.act, t.rounds, t.idx, a, a1);
    if Straight(t.rounds) {
      CoversPast(t.act, t.rounds, t.idx, a, a1);
    }
  }

  lemma {:induction false} TourNext(lists: seq<seq<Command>>, t: Tour, s: Ed, v: View, a: Active, a1: Active, r: Round,
      s2: Ed, v2: View, a2: Active)
    requires Touring(lists, t, true, s, v, a) && a1 == a.(ptr := a1.ptr) && 0 <= a.ptr < a1.ptr <= |a.list|
    requires forall k :: a.ptr <= k < a1.ptr - 1 ==> a.list[k] == NIL
    requires r.node == a.list[a1.ptr - 1] && r.node != NIL
    requires r.cmds == if |t.rounds| < |lists| then lists[|t.rounds|] else []
    requires RoundOk(r) && Begins(s, v, r.run) && Ends(r.run, s2, v2) && Dropped(a1, a2) && TextKept(s.text, s2.text)
    requires NoUndo(r.cmds) ==> SameSaved(s, v, s2, v2) && ClearedOf(a1, NamedBy(r.cmds, r.run), a2)
    ensures Touring(lists, t.(rounds := t.rounds + [r], idx := t.idx + [a1.ptr - 1]), r.ok, s2, v2, a2)
  {
    hide Rounds, RoundOk, Visited, Covers, Begins, Ends, NamedBy, Dropped, ClearedOf, TextKept;
    KeptTrans(t.start.text, s.text, s2.text);
    var past := a.(ptr := a1.ptr - 1);
    TourPast(lists, t, s, v, a, past);
    RoundsMore(lists, t.start, t.view, t.rounds, s, v, r, s2, v2);
    VisitNext(t.act, t.rounds, t.idx, past, r, a1, a2);
    VisitSize(t.act, t.rounds, t.idx, past);
    if Straight(t.rounds + [r]) {
      StraightMore(t.rounds, r);
      CoversNext(t.act, t.rounds, t.idx, past, r, a1, a2);
    }
  }

  lemma {:induction false} VisitSize(a0: Active, rounds: seq<Round>, idx: seq<int>, a: Active)
    requires Visited(a0, rounds, idx, a)
    ensures |idx| == |rounds|
  {
  }

  /** Clear the undo stack for a command typed by the user. */
  method StartUndo(s: Ed, ghost v: View) returns (s': Ed, ghost v': View)
    requires Valid(s, v)
    ensures Valid(s', v') && |v'.lines| == s'.lastAddr + 1 && Started(s, v, s', v')
  {
    hide Valid, ClearedView, LinesKept, MarksKept;
    var freed;
    s', freed, v' := ClearUndoStack(s, v);
    ClearedIs(v);
    FreedKeepsLines(s, v, freed, s');
    FreedMarks(s, v, freed, s');
    Bounds(s', v');
  }

  /** Visit the next active line `node` and execute `cmds` there. */
  method VisitLine(s: Ed, act: Active, node: Line, cmds: seq<Command>, ghost v: View)
    returns (ok: bool, s': Ed, act': Active, ghost v': View, ghost r: Round)
    requires Valid(s, v) && |v.lines| == s.lastAddr + 1 && ActiveOk(act, v.lines) && node in v.lines[1..]
    ensures Valid(s', v') && |v'.lines| == s'.lastAddr + 1 && ActiveOk(act', v'.lines)
    ensures RoundOk(r) && r.node == node && r.cmds == cmds && r.ok == ok && Begins(s, v, r.run) && Ends(r.run, s', v')
    ensures Dropped(act, act') && TextKept(s.text, s'.text)
    ensures NoUndo(cmds) ==> SameSaved(s, v, s', v') && ClearedOf(act, NamedBy(r.cmds, r.run), act')
  {
    hide Valid, ActiveOk, Dropped, TextKept, ListOk, Chain, NamedBy, ClearedOf;
    ListOkOf(s, v);
    OnBuffer(v.lines, node);
    var addr := GetLineNodeAddr(s, node, v.lines);
    VisitAt(s, v, addr);
    NotHead(s, v, node, addr);
    var s1 := s.(currentAddr := addr);
    ghost var run;
    ok, s', act', v', run := RunCommands(s1, act, cmds, v);
    ChainSize(cmds, run, ok);
    r := Round(node, cmds, ok, run);
  }

  lemma {:induction false} ChainSize(cmds: seq<Command>, r: Run, ok: bool)
    requires Chain(cmds, r, ok)
    ensures 0 < |r.states| == |r.views|
  {
  }

  /** Apply a command list to each active line.  `lists[i]` is what is executed for the i-th line that
      is reached; whatever it does to the buffer, every line reached is on it. */
  method ExecGlobal(s: Ed, act: Active, lists: seq<seq<Command>>, ghost v: View)
    returns (ok: bool, s': Ed, act': Active, ghost v': View, ghost t: Tour)
    requires Valid(s, v) && |v.lines| == s.lastAddr + 1 && ActiveOk(act, v.lines)
    ensures Valid(s', v') && |v'.lines| == s'.lastAddr + 1 && ActiveOk(act', v'.lines)
    ensures t.act == act && Started(s, v, t.start, t.view) && Toured(lists, t, ok, s', v', act')
    ensures 0 <= act'.ptr <= |act'.list| && (ok ==> act'.ptr == |act'.list|)
  {
    hide Valid, ActiveOk, Dropped, TextKept, Touring, RoundOk, LinesKept, MarksKept, ClearedOf, NamedBy, Begins, Ends;
    s', v' := StartUndo(s, v);
    ok, act', t := true, act, Tour(act, s', v', [], []);
    ActivePtr(act, v.lines);
    TourStart(lists, t);
    var n, left := 0, |act.list| - act.ptr;
    while true
      invariant Valid(s', v') && |v'.lines| == s'.lastAddr + 1 && ActiveOk(act', v'.lines) && ok
      invariant Touring(lists, t, true, s', v', act') && t == Tour(act, t.start, t.view, t.rounds, t.idx)
      invariant n == |t.rounds| && Started(s, v, t.start, t.view)
      invariant 0 <= left && |act'.list| - act'.ptr <= left
      decreases left
    {
      var act1, node := NextActiveNode(act', v'.lines);
      ActivePtr(act', v'.lines);
      ActivePtr(act1, v'.lines);
      if node == NIL {
        TourPast(lists, t, s', v', act', act1);
        act' := act1;
        break;
      }
      var cmds := if n < |lists| then lists[n] else [];
      ghost var s1, v1 := s', v';
      ghost var r;
      var act2;
      ok, s', act2, v', r := VisitLine(s', act1, node, cmds, v');
      TourNext(lists, t, s1, v1, act', act1, r, s', v', act2);
      t := t.(rounds := t.rounds + [r], idx := t.idx + [act1.ptr - 1]);
      ActivePtr(act2, v'.lines);
      DroppedPtr(act1, act2);
      n, left, act' := n + 1, left - 1, act2;
      if !ok {
        break;
      }
    }
    TourOnce(lists, t, ok, s', v', act', v.lines);
    ActivePtr(act', v'.lines);
  }

  lemma {:induction false} TourOnce(lists: seq<seq<Command>>, t: Tour, ok: bool, s: Ed, v: View, a: Active,
      lines: seq<Line>)
    requires ActiveOk(t.act, lines) && Touring(lists, t, ok, s, v, a)
    ensures forall i, j :: 0 <= i < j < |t.rounds| ==> t.rounds[i].node != t.rounds[j].node
  {
    hide Rounds, Covers;
    VisitedOnce(t.act, lines, t.rounds, t.idx, a);
  }

  lemma {:induction false} ActivePtr(a: Active, lines: seq<Line>)
    requires ActiveOk(a, lines)
    ensures 0 <= a.ptr <= |a.list|
  {
  }

  lemma {:induction false} DroppedPtr(a: Active, a': Active)
    requires Dropped(a, a') && 0 <= a'.ptr <= |a'.list|
    ensures a'.list == [] || (|a'.list| == |a.list| && a'.ptr == a.ptr)
  {
  }

  lemma {:induction false} OnBuffer(lines: seq<Line>, node: Line)
    requires |lines| > 0 && node in lines[1..]
    ensures node in lines
  {
  }

  lemma {:induction false} NotHead(s: Ed, v: View, node: Line, addr: nat)
    requires Valid(s, v) && node in v.lines[1..] && addr < |v.lines| && v.lines[addr] == node
    ensures addr > 0
  {
    DistinctIff(v.lines);
  }

  lemma {:induction false} VisitAt(s: Ed, v: View, addr: int)
    requires Valid(s, v) && 0 <= addr < |v.lines|
    ensures Valid(s.(currentAddr := addr), v)
  {
  }

  // ---------------------------------------------------------------- undo over whole runs

  /** Execute any commands but undo, each recorded, from a cleared undo stack; then undo restores the
      buffer as it was: its lines, their texts and both addresses.  A second undo restores the edited
      buffer, and with it every pointer of every node. */
  method UndoRedo(s: Ed, act: Active, cmds: seq<Command>, ghost v: View)
    returns (ok: bool, edited: Ed, undone: Ed, redone: Ed, ghost r: Run, ghost ve: View, ghost vu: View, ghost vr: View)
    requires Valid(s, v) && |v.lines| == s.lastAddr + 1 && ActiveOk(act, v.lines) && NoUndo(cmds)
    ensures Chain(cmds, r, ok) && Started(s, v, r.states[0], r.views[0]) && Ends(r, edited, ve)
    ensures Valid(edited, ve) && Valid(undone, vu) && Valid(redone, vr)
    ensures vu.lines == v.lines && undone.currentAddr == s.currentAddr && undone.lastAddr == s.lastAddr
    ensures forall n :: n in v.lines && n in s.text ==> n in undone.text && undone.text[n] == s.text[n]
    ensures undone.yank == edited.yank && undone.mark == edited.mark
    ensures vr == ve && M(redone) == M(edited) && redone.text == edited.text
    ensures redone.currentAddr == edited.currentAddr && redone.lastAddr == edited.lastAddr
  {
    hide Valid, ActiveOk, Dropped, UndoneView, AllReady, UndoAll, Chain, LinesKept, MarksKept, TextKept;
    var s0;
    ghost var v0;
    s0, v0 := StartUndo(s, v);
    SavedAddr(s, v);
    var done, act1, act2, act3;
    ok, edited, act1, ve, r := RunCommands(s0, act, cmds, v0);
    ChainSize(cmds, r, ok);
    Bounds(edited, ve);
    done, undone, act2, vu := PopUndoStack(edited, act1, false, ve);
    UndoneTwice(ve);
    done, redone, act3, vr := PopUndoStack(undone, act2, false, vu);
    RedoLinks(edited, ve);
    TextsSurvive(v.lines, s.text, s0.text, undone.text);
  }

  lemma {:induction false} SavedAddr(s: Ed, v: View)
    requires Valid(s, v)
    ensures s.currentAddr >= 0 && s.lastAddr >= 0
  {
  }

  lemma {:induction false} UndoneTwice(v: View)
    ensures UndoneView(v).lines == v.saved && UndoneView(v).items == Flipped(v.items)
    ensures UndoneView(UndoneView(v)) == v
  {
    FlippedTwice(v.items);
  }

  lemma {:induction false} RedoLinks(s: Ed, v: View)
    requires Valid(s, v)
    ensures AllReady(M(s), v.items) && AllReady(UndoAll(M(s), v.items), Flipped(v.items))
    ensures UndoAll(UndoAll(M(s), v.items), Flipped(v.items)) == M(s)
  {
    UndoInvolution(M(s), v.items);
  }

  lemma {:induction false} TextsSurvive(lines: seq<Line>, text: map<Line, Text>, text0: map<Line, Text>,
      text1: map<Line, Text>)
    requires LinesKept(lines, text, text0) && TextKept(text0, text1)
    ensures forall n :: n in lines && n in text ==> n in text1 && text1[n] == text[n]
  {
  }

  /** Undo typed after a global command without undo brings back the buffer before it: its lines, their
      texts and both addresses. */
  lemma {:induction false} GlobalUndone(lists: seq<seq<Command>>, t: Tour, ok: bool, s: Ed, v: View, s1: Ed, v1: View,
      a: Active, s2: Ed, v2: View)
    requires Valid(s, v) && Valid(s2, v2) && Started(s, v, t.start, t.view) && Straight(t.rounds)
    requires Toured(lists, t, ok, s1, v1, a) && Executed(false, Undo, s1, v1, s2, v2)
    ensures v2.lines == v.lines && s2.currentAddr == s.currentAddr && s2.lastAddr == s.lastAddr
    ensures forall n :: n in v.lines && n in s.text ==> n in s2.text && s2.text[n] == s.text[n]
  {
    hide Valid, MarksKept, LinesKept, TextKept, Rewrites, CutBy, Rounds, Visited, Covers, Straight;
    Bounds(s, v);
    Bounds(s2, v2);
    UndoRewrites(s1, v1, s2, v2);
    TextsSurvive(v.lines, s.text, t.start.text, s1.text);
  }

  // ---------------------------------------------------------------- the editor

  /** A command line typed by the user: one command, or a global command over the lines of a
      range that a pattern selects. */
  datatype Input = One(cmd: Command) | Global(from: int, to: int, selected: Text -> bool, lists: seq<seq<Command>>)

  /** The mark table before any line is marked */
  method NewMarks() returns (marks: seq<Line>)
    ensures |marks| == 26 && InUse(marks) == 0
    ensures forall i :: 0 <= i < 26 ==> marks[i] == NIL
  {
    marks := [];
    while |marks| < 26
      invariant |marks| <= 26 && InUse(marks) == 0
      invariant forall i :: 0 <= i < |marks| ==> marks[i] == NIL
    {
      assert (marks + [NIL])[..|marks|] == marks;
      marks := marks + [NIL];
    }
  }

  lemma {:induction false} InitValid(marks: seq<Line>)
    requires |marks| == 26 && InUse(marks) == 0 && forall i :: 0 <= i < 26 ==> marks[i] == NIL
    ensures Valid(Ed(1, map[1 := 1], map[1 := 1], map[1 := Text("")], [], 2, 0, 0, false, 1, 0, [], [], -1, -1,
                     marks, 0),
                  View([1], [], [1]))
  {
    EmptyKeeps(Mem(map[1 := 1], map[1 := 1]), 1);
    var pool: seq<Line> := [];
    DistinctIff(pool);
  }

  class Editor {
    var s: Ed
    var act: Active
    ghost var v: View

    ghost predicate Ok()
      reads this
    {
      Valid(s, v) && |v.lines| == s.lastAddr + 1
    }

    constructor ()
      ensures Ok() && v.lines == [s.head] && v.saved == v.lines && !s.modified && s.yank == []
      ensures UndoTo(s, -1, -1) && (forall i :: 0 <= i < |s.mark| ==> s.mark[i] == NIL) && act == CLEAR_ACTIVE
    {
      var marks := NewMarks();
      InitValid(marks);
      s := Ed(1, map[1 := 1], map[1 := 1], map[1 := Text("")], [], 2, 0, 0, false, 1, 0, [], [], -1, -1, marks, 0);
      act := CLEAR_ACTIVE;
      v := View([1], [], [1]);
    }

    /** Execute one line of input. */
    method Execute(input: Input) returns (ok: bool, ghost marked: seq<int>, ghost t: Tour)
      requires Ok()
      modifies this
      ensures Ok()
      ensures input.One? ==>
        && Executed(false, input.cmd, old(s), old(v), s, v)
        && (ok <==> Accepted(old(s), input.cmd) && Succeeds(false, input.cmd, old(s), old(v)))
      ensures input.Global? && InRange(old(s), input.from, input.to) ==>
        && Marked(t.act.list, marked, old(v.lines), input.from, input.to + 1, old(s.text), input.selected)
        && t.act.ptr == 0 && Started(old(s), old(v), t.start, t.view) && Toured(input.lists, t, ok, s, v, act)
      ensures input.Global? && !InRange(old(s), input.from, input.to) ==> !ok && s == old(s) && v == old(v)
    {
      hide Valid, ActiveOk, Executed, Succeeds, ListOk, HeapOk, Touring, Marked, LinesKept, MarksKept;
      marked, t := [], Tour(act, s, v, [], []);
      match input {
        case One(cmd) =>
          var s', act';
          ghost var v';
          ok, s', act', v' := ExecCommand(s, act, cmd, false, v);
          s, act, v := s', act', v';
        case Global(from, to, selected, lists) =>
          var inRange := CheckRange(s, from, to);
          if !inRange {
            return false, marked, t;
          }
          ListOkOf(s, v);
          HeapOf(s, v);
          var s1, a, s', act';
          ghost var v';
          s1, a, marked := BuildActiveList(s, from, to, selected, v.lines);
          BuildValid(s, v, s1);
          ok, s', act', v', t := ExecGlobal(s1, a, lists, v);
          BuildStarts(s, v, s1, t);
          s, act, v := s', act', v';
      }
    }
  }

  lemma {:induction false} BuildStarts(s: Ed, v: View, s1: Ed, t: Tour)
    requires s1 == s.(lp := s1.lp, oAddr := s1.oAddr) && Started(s1, v, t.start, t.view)
    ensures Started(s, v, t.start, t.view)
  {
  }

  lemma {:induction false} BuildValid(s: Ed, v: View, s1: Ed)
    requires Valid(s, v) && s1 == s.(lp := s1.lp, oAddr := s1.oAddr) && ListOk(s1, v.lines)
    ensures Valid(s1, v)
  {
  }
}
