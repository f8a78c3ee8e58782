/** The commands of ed: the address checks, the effect of each command, and the discipline of clearing
    the undo stack before every edit typed by the user but not inside a global command. */
module EdCommand {
  import opened EdLinks
  import opened EdBuffer
  import opened EdActive
  import opened EdEdit
  import opened EdSubst
  import opened EdHistory
  import opened EdFree

  /** A command with its addresses worked out. */
  datatype Command =
    | Append(addr: int, ts: seq<Text>)
    | Insert(addr: int, ts: seq<Text>)
    | Change(from: int, to: int, ts: seq<Text>)
    | Delete(from: int, to: int)
    | Join(from: int, to: int)
    | Mark(addr: int, c: int)
    | Move(from: int, to: int, addr: int)
    | Copy(from: int, to: int, addr: int)
    | Substitute(from: int, to: int, subst: Subst)
    | Undo
    | Put(addr: int)
    | Yank(from: int, to: int)

  ghost predicate InRange(s: Ed, from: int, to: int) {
    1 <= from <= to <= s.lastAddr
  }

  /** `c` and `i` take line 0 for line 1. */
  ghost function AtLeastOne(addr: int): int {
    if addr == 0 then 1 else addr
  }

  /** The checks made before a command does anything. */
  ghost predicate Accepted(s: Ed, cmd: Command) {
    match cmd
    case Append(addr, _) => 0 <= addr <= s.lastAddr
    case Insert(addr, _) => 0 <= addr <= s.lastAddr
    case Change(from, to, _) => InRange(s, AtLeastOne(from), AtLeastOne(to))
    case Delete(from, to) => InRange(s, from, to)
    case Join(from, to) => InRange(s, from, to)
    case Mark(addr, _) => 1 <= addr <= s.lastAddr
    case Move(from, to, addr) => InRange(s, from, to) && 0 <= addr <= s.lastAddr && !(from <= addr < to)
    case Copy(from, to, addr) => InRange(s, from, to) && 0 <= addr <= s.lastAddr
    case Substitute(from, to, _) => InRange(s, from, to)
    case Undo => true
    case Put(addr) => 0 <= addr <= s.lastAddr
    case Yank(from, to) => InRange(s, from, to)
  }

  ghost predicate Edits(cmd: Command) {
    !cmd.Undo? && !cmd.Mark? && !cmd.Yank?
  }

  /** The lines a command names and takes out of the active list */
  ghost function Gone(cmd: Command, s: Ed, v: View): set<Line>
    requires Accepted(s, cmd) && |v.lines| == s.lastAddr + 1
  {
    match cmd
    case Change(from, to, _) => Elems(v.lines[AtLeastOne(from)..AtLeastOne(to) + 1])
    case Delete(from, to) => Elems(v.lines[from..to + 1])
    case Join(from, to) => if from == to then {} else Elems(v.lines[from..to + 1])
    case Move(from, to, _) => Elems(v.lines[from..to + 1])
    case Substitute(from, to, subst) => Hits(s.text, v.lines[from..to + 1], subst)
    case _ => {}
  }

  /** An accepted command succeeds, unless it puts an empty cut buffer, marks with no letter, undoes
      nothing, or substitutes nothing outside a global command. */
  ghost predicate Succeeds(isglobal: bool, cmd: Command, s: Ed, v: View)
    requires Accepted(s, cmd) && |v.lines| == s.lastAddr + 1
  {
    match cmd
    case Put(_) => s.yank != []
    case Mark(_, c) => 0 <= c < 26
    case Undo => s.uCurrentAddr >= 0 && s.uAddrLast >= 0
    case Substitute(_, _, _) => isglobal || Gone(cmd, s, v) != {}
    case _ => true
  }

  /** The current line after a successful command other than a substitution */
  ghost function Landing(cmd: Command, s: Ed, s': Ed): int {
    match cmd
    case Append(addr, ts) => addr + |ts|
    case Insert(addr, ts) => AtLeastOne(addr) - 1 + |ts|
    case Change(from, _, ts) => AtLeastOne(from) - 1 + |ts|
    case Put(addr) => addr + |s.yank|
    case Copy(from, to, addr) => addr + (to - from + 1)
    case Delete(from, to) => if from > s'.lastAddr then s'.lastAddr else from
    case Join(from, to) => if from == to then s.currentAddr else from
    case Move(from, to, addr) =>
      if addr == from - 1 || addr == to then to else if addr < from then addr + (to - from + 1) else addr
    case Substitute(_, _, _) => s'.currentAddr
    case Undo => s.uCurrentAddr
    case Mark(_, _) => s.currentAddr
    case Yank(_, _) => s.currentAddr
  }

  /** The cut buffer after a successful command */
  ghost function CutBy(cmd: Command, s: Ed, v: View): seq<Text>
    requires Accepted(s, cmd) && |v.lines| == s.lastAddr + 1
  {
    match cmd
    case Change(from, to, _) => LineTexts(s.text, v.lines[AtLeastOne(from)..AtLeastOne(to) + 1])
    case Delete(from, to) => LineTexts(s.text, v.lines[from..to + 1])
    case Join(from, to) => if from == to then s.yank else LineTexts(s.text, v.lines[from..to + 1])
    case Substitute(from, to, subst) => LastCut(LineTexts(s.text, v.lines[from..to + 1]), subst, s.yank)
    case Yank(from, to) => LineTexts(s.text, v.lines[from..to + 1])
    case _ => s.yank
  }

  /** What a successful command does to the sequence of line nodes, to their texts, to the current
      line and to the cut buffer. */
  ghost predicate Effect(cmd: Command, s: Ed, v: View, s': Ed, v': View)
    requires Accepted(s, cmd) && |v.lines| == s.lastAddr + 1
  {
    s'.currentAddr == Landing(cmd, s, s') && s'.yank == CutBy(cmd, s, v) && Rewrites(cmd, s, v, s', v')
  }

  /** What it does to the lines and their texts */
  ghost predicate Rewrites(cmd: Command, s: Ed, v: View, s': Ed, v': View)
    requires Accepted(s, cmd) && |v.lines| == s.lastAddr + 1
  {
    match cmd
    case Append(addr, ts) => AddedTo(v.lines, addr, ts, v'.lines, s'.text)
    case Insert(addr, ts) => AddedTo(v.lines, AtLeastOne(addr) - 1, ts, v'.lines, s'.text)
    case Change(from, to, ts) =>
      var f, t := AtLeastOne(from), AtLeastOne(to);
      AddedTo(v.lines[..f] + v.lines[t + 1..], f - 1, ts, v'.lines, s'.text)
    case Put(addr) => AddedTo(v.lines, addr, s.yank, v'.lines, s'.text)
    case Copy(from, to, addr) => AddedTo(v.lines, addr, LineTexts(s.text, v.lines[from..to + 1]), v'.lines, s'.text)
    case Delete(from, to) => v'.lines == v.lines[..from] + v.lines[to + 1..]
    case Join(from, to) =>
      if from == to then v'.lines == v.lines
      else
        var joined := Text(Joined(LineTexts(s.text, v.lines[from..to + 1])));
        AddedTo(v.lines[..from] + v.lines[to + 1..], from - 1, [joined], v'.lines, s'.text)
    case Move(from, to, addr) =>
      if addr == from - 1 || addr == to then v'.lines == v.lines
      else
        var range, rest := v.lines[from..to + 1], v.lines[..from] + v.lines[to + 1..];
        var d := if addr < from then addr else addr - |range|;
        v'.lines == rest[..d + 1] + range + rest[d + 1..]
    case Substitute(from, to, subst) =>
      Substituted(s.text, v.lines, from, to + 1, subst, s'.text, v'.lines, s'.currentAddr)
    case Undo =>
      && v' == UndoneView(v) && s'.text == s.text
      && s'.uCurrentAddr == s.currentAddr && s'.uAddrLast == s.lastAddr
    case Mark(addr, c) => v' == v && 0 <= c < |s.mark| && s'.mark == s.mark[c := v.lines[addr]]
    case Yank(from, to) => v' == v
  }

  /** A successful command counts as a change of the buffer, to be written out before ed is left. */
  ghost predicate Changes(cmd: Command, s: Ed, v: View)
    requires Accepted(s, cmd) && |v.lines| == s.lastAddr + 1
  {
    match cmd
    case Append(_, ts) => ts != []
    case Insert(_, ts) => ts != []
    case Join(from, to) => from != to
    case Substitute(_, _, _) => Gone(cmd, s, v) != {}
    case Undo => s.ustack != []
    case Mark(_, _) => false
    case Yank(_, _) => false
    case _ => true
  }

  /** What every accepted edit leaves in order, whether it succeeds or not */
  ghost predicate Tidy(cmd: Command, ok: bool, s: Ed, v: View, s': Ed, v': View)
    requires Accepted(s, cmd) && |v.lines| == s.lastAddr + 1
  {
    && v'.saved == v.saved && TextKept(s.text, s'.text) && SameRest(s, s')
    && s'.modified == (s.modified || (ok && Changes(cmd, s, v)))
  }

  /** The checks made before a command does anything */
  method CheckCommand(s: Ed, cmd: Command) returns (ok: bool)
    ensures ok <==> Accepted(s, cmd)
  {
    var last := s.lastAddr;
    match cmd {
      case Append(addr, _) => ok := 0 <= addr <= last;
      case Insert(addr, _) => ok := 0 <= addr <= last;
      case Put(addr) => ok := 0 <= addr <= last;
      case Mark(addr, _) => ok := 1 <= addr <= last;
      case Change(from, to, _) => ok := CheckRange(s, if from == 0 then 1 else from, if to == 0 then 1 else to);
      case Delete(from, to) => ok := CheckRange(s, from, to);
      case Join(from, to) => ok := CheckRange(s, from, to);
      case Substitute(from, to, _) => ok := CheckRange(s, from, to);
      case Yank(from, to) => ok := CheckRange(s, from, to);
      case Copy(from, to, addr) =>
        ok := CheckRange(s, from, to);
        ok := ok && 0 <= addr <= last;
      case Move(from, to, addr) =>
        ok := CheckRange(s, from, to);
        ok := ok && 0 <= addr <= last && (addr < from || addr >= to);
      case Undo => ok := true;
    }
  }

  method CheckRange(s: Ed, from: int, to: int) returns (ok: bool)
    ensures ok <==> InRange(s, from, to)
  {
    ok := from <= to && 1 <= from && to <= s.lastAddr;
  }

  /** An edit that fails changes nothing but the current line, and that only if it substitutes. */
  ghost predicate Fails(cmd: Command, s: Ed, v: View, s': Ed, v': View) {
    && v'.lines == v.lines && s'.yank == s.yank
    && s'.currentAddr == if cmd.Substitute? then cmd.to else s.currentAddr
  }

  /** The commands that add lines. */
  method EditAdd(s: Ed, act: Active, cmd: Command, isglobal: bool, ghost v: View)
    returns (ok: bool, s': Ed, ghost v': View)
    requires Valid(s, v) && Accepted(s, cmd) && |v.lines| == s.lastAddr + 1
    requires cmd.Append? || cmd.Insert? || cmd.Put? || cmd.Copy?
    requires isglobal ==> ActiveOk(act, v.lines)
    ensures Valid(s', v') && Tidy(cmd, ok, s, v, s', v') && ok == Succeeds(isglobal, cmd, s, v)
    ensures if ok then Effect(cmd, s, v, s', v') else Fails(cmd, s, v, s', v')
    ensures isglobal ==> ActiveOk(act, v'.lines)
  {
    hide Valid, ActiveOk, Carries, AddedTo, GrownView, LineTexts, TextKept, Texts;
    ok := true;
    ghost var seg: seq<Line>;
    KeptSame(s.text);
    var addr := if cmd.Insert? && cmd.addr > 0 then cmd.addr - 1 else cmd.addr;
    if cmd.Append? || cmd.Insert? {
      s', v', seg := AppendLines(s, addr, cmd.ts, v);
      GrownIsAdded(v, addr, seg, s.text, cmd.ts, s'.text);
    } else if cmd.Copy? {
      s', v', seg := CopyLines(s, cmd.from, cmd.to, addr, v);
      LineTextsIs(s.text, v.lines, cmd.from, cmd.to + 1);
      GrownIsAdded(v, addr, seg, s.text, LineTexts(s.text, v.lines[cmd.from..cmd.to + 1]), s'.text);
    } else {
      ok, s', v', seg := PutLines(s, addr, v);
      if !ok {
        return;
      }
      GrownIsAdded(v, addr, seg, s.text, s.yank, s'.text);
    }
    if isglobal {
      GrowActive(act, v, addr, seg);
    }
  }

  /** Delete, change or join lines. */
  method EditCut(s: Ed, act: Active, cmd: Command, isglobal: bool, ghost v: View)
    returns (s': Ed, act': Active, ghost v': View)
    requires Valid(s, v) && Accepted(s, cmd) && (cmd.Delete? || cmd.Change? || cmd.Join?) && |v.lines| == s.lastAddr + 1
    requires isglobal ==> ActiveOk(act, v.lines)
    ensures Valid(s', v') && Tidy(cmd, true, s, v, s', v') && Effect(cmd, s, v, s', v')
    ensures isglobal ==> ActiveOk(act', v'.lines) && ClearedOf(act, Gone(cmd, s, v), act')
  {
    hide Valid, ActiveOk, Cleared, ClearedOf, Carries, AddedTo, GrownView, DeletedView, LineTexts, Texts, TextKept,
         Joined, Elems;
    var from, to := cmd.from, cmd.to;
    KeptSame(s.text);
    if cmd.Delete? {
      DeletedIs(v, from, to);
      s', act', v' := DeleteLines(s, act, from, to, isglobal, v);
      LineTextsIs(s.text, v.lines, from, to + 1);
      IncCurrent(s', v');
      s' := s'.(currentAddr := if s'.currentAddr + 1 > s'.lastAddr then s'.lastAddr else s'.currentAddr + 1);
      if isglobal {
        ClearedElems(act, v.lines[from..to + 1], act');
      }
    } else if cmd.Change? {
      from, to := if from == 0 then 1 else from, if to == 0 then 1 else to;
      s', act', v' := EditChange(s, act, from, to, cmd.ts, isglobal, v);
    } else if from == to {
      ClearedNone(act);
      s', act', v' := s, act, v;
    } else {
      ghost var node;
      DeletedIs(v, from, to);
      s', act', v', node := JoinLines(s, act, from, to, isglobal, v);
      LineTextsIs(s.text, v.lines, from, to + 1);
      GrownIsAdded(DeletedView(v, from, to), from - 1, [node], s.text,
                   [Text(Joined(LineTexts(s.text, v.lines[from..to + 1])))], s'.text);
      if isglobal {
        ClearedElems(act, v.lines[from..to + 1], act');
      }
    }
  }

  method EditChange(s: Ed, act: Active, from: int, to: int, ts: seq<Text>, isglobal: bool, ghost v: View)
    returns (s': Ed, act': Active, ghost v': View)
    requires Valid(s, v) && InRange(s, from, to) && |v.lines| == s.lastAddr + 1
    requires isglobal ==> ActiveOk(act, v.lines)
    ensures Valid(s', v') && v'.saved == v.saved && TextKept(s.text, s'.text) && SameRest(s, s') && s'.modified
    ensures AddedTo(v.lines[..from] + v.lines[to + 1..], from - 1, ts, v'.lines, s'.text)
    ensures s'.currentAddr == from - 1 + |ts| && s'.yank == LineTexts(s.text, v.lines[from..to + 1])
    ensures isglobal ==> ActiveOk(act', v'.lines) && ClearedOf(act, Elems(v.lines[from..to + 1]), act')
  {
    hide Valid, ActiveOk, Cleared, ClearedOf, Carries, AddedTo, GrownView, DeletedView, LineTexts, Texts, TextKept,
         Elems;
    DeletedIs(v, from, to);
    var s1;
    s1, act', v' := DeleteLines(s, act, from, to, isglobal, v);
    LineTextsIs(s.text, v.lines, from, to + 1);
    ghost var w, seg := v', [];
    Bounds(s1, w);
    s', v', seg := AppendLines(s1, from - 1, ts, v');
    GrownIsAdded(w, from - 1, seg, s1.text, ts, s'.text);
    if isglobal {
      GrowActive(act', w, from - 1, seg);
      ClearedElems(act, v.lines[from..to + 1], act');
    }
  }

  method EditMove(s: Ed, act: Active, cmd: Command, isglobal: bool, ghost v: View)
    returns (s': Ed, act': Active, ghost v': View)
    requires Valid(s, v) && Accepted(s, cmd) && cmd.Move? && |v.lines| == s.lastAddr + 1
    requires isglobal ==> ActiveOk(act, v.lines)
    ensures Valid(s', v') && Tidy(cmd, true, s, v, s', v') && Effect(cmd, s, v, s', v')
    ensures isglobal ==> ActiveOk(act', v'.lines) && ClearedOf(act, Gone(cmd, s, v), act')
  {
    hide Valid, ActiveOk, Cleared, ClearedOf, MovedView, Elems;
    var from, to, addr := cmd.from, cmd.to, cmd.addr;
    s', act', v' := MoveLines(s, act, from, to, addr, isglobal, v);
    if !(addr == from - 1 || addr == to) {
      MoveIsSplice(v, from, to, addr);
      MovedSaved(v, from, to, addr);
    }
    if isglobal {
      ClearedElems(act, v.lines[from..to + 1], act');
    }
  }

  method EditSubstitute(s: Ed, act: Active, cmd: Command, isglobal: bool, ghost v: View)
    returns (ok: bool, s': Ed, act': Active, ghost v': View)
    requires Valid(s, v) && Accepted(s, cmd) && cmd.Substitute? && |v.lines| == s.lastAddr + 1
    requires isglobal ==> ActiveOk(act, v.lines)
    ensures Valid(s', v') && Tidy(cmd, ok, s, v, s', v') && ok == Succeeds(isglobal, cmd, s, v)
    ensures if ok then Effect(cmd, s, v, s', v') else Fails(cmd, s, v, s', v')
    ensures isglobal ==> ActiveOk(act', v'.lines) && ClearedOf(act, Gone(cmd, s, v), act')
  {
    hide Valid, ActiveOk, ClearedOf, LastCut, Substituted, Hits;
    ok, s', act', v' := SearchAndReplace(s, act, cmd.from, cmd.to, cmd.subst, isglobal, v);
    TextsIn(s, v);
    NoHit(s, v, cmd.from, cmd.to, cmd.subst, s', v');
  }

  /** Without a match nothing changes. */
  lemma {:induction false} NoHit(s: Ed, v: View, from: int, to: int, subst: Subst, s': Ed, v': View)
    requires Substituted(s.text, v.lines, from, to + 1, subst, s'.text, v'.lines, s'.currentAddr)
    requires 1 <= from <= to < |v.lines|
    requires forall k :: 0 <= k < |v.lines| ==> v.lines[k] in s.text
    ensures Hits(s.text, v.lines[from..to + 1], subst) == {} ==>
      && v'.lines == v.lines && s'.currentAddr == to
      && LastCut(LineTexts(s.text, v.lines[from..to + 1]), subst, s.yank) == s.yank
  {
    hide LastCut, LineTexts;
    if Hits(s.text, v.lines[from..to + 1], subst) == {} {
      NoCut(s.text, v.lines[from..to + 1], subst, s.yank);
    }
  }

  lemma {:induction false} NoCut(text: map<Line, Text>, lines: seq<Line>, subst: Subst, yank: seq<Text>)
    requires Hits(text, lines, subst) == {} && forall i :: 0 <= i < |lines| ==> lines[i] in text
    ensures LastCut(LineTexts(text, lines), subst, yank) == yank
  {
    if |lines| > 0 {
      var rest, n := lines[..|lines| - 1], lines[|lines| - 1];
      assert lines == rest + [n];
      HitsMore(text, rest, n, subst);
      NoCut(text, rest, subst, yank);
      ReplacedMore(text, rest, n, subst, yank);
    }
  }

  /** Run an accepted edit; the undo stack has been dealt with. */
  method Edit(s: Ed, act: Active, cmd: Command, isglobal: bool, ghost v: View)
    returns (ok: bool, s': Ed, act': Active, ghost v': View)
    requires Valid(s, v) && Accepted(s, cmd) && Edits(cmd) && |v.lines| == s.lastAddr + 1
    requires isglobal ==> ActiveOk(act, v.lines)
    ensures Valid(s', v') && Tidy(cmd, ok, s, v, s', v') && ok == Succeeds(isglobal, cmd, s, v)
    ensures if ok then Effect(cmd, s, v, s', v') else Fails(cmd, s, v, s', v')
    ensures isglobal ==> ActiveOk(act', v'.lines) && ClearedOf(act, Gone(cmd, s, v), act')
  {
    hide Valid, ActiveOk, Effect, ClearedOf, Fails, Tidy;
    ok, act' := true, act;
    ClearedNone(act);
    if cmd.Append? || cmd.Insert? || cmd.Put? || cmd.Copy? {
      ok, s', v' := EditAdd(s, act, cmd, isglobal, v);
    } else if cmd.Move? {
      s', act', v' := EditMove(s, act, cmd, isglobal, v);
    } else if cmd.Substitute? {
      ok, s', act', v' := EditSubstitute(s, act, cmd, isglobal, v);
    } else {
      s', act', v' := EditCut(s, act, cmd, isglobal, v);
    }
  }

  lemma {:induction false} DeletedIs(v: View, from: nat, to: nat)
    requires 1 <= from <= to < |v.lines|
    ensures DeletedView(v, from, to).lines == v.lines[..from] + v.lines[to + 1..]
    ensures DeletedView(v, from, to).saved == v.saved
  {
  }

  lemma {:induction false} MovedSaved(v: View, from: nat, to: nat, addr: nat)
    requires 1 <= from <= to < |v.lines| && addr < |v.lines| && (addr < from - 1 || addr > to)
    ensures MovedView(v, from, to, addr).saved == v.saved
  {
  }

  lemma {:induction false} IncCurrent(s: Ed, v: View)
    requires Valid(s, v)
    ensures Valid(s.(currentAddr := if s.currentAddr + 1 > s.lastAddr then s.lastAddr else s.currentAddr + 1), v)
  {
  }

  // ---------------------------------------------------------------- exec_command

  /** What undo restores after a command: the buffer before it, or, inside a global command,
      the buffer before the whole of it. */
  ghost function SavedBy(isglobal: bool, v: View): seq<Line> {
    if isglobal then v.saved else v.lines
  }

  /** The marks after an edit: outside a global command the nodes off the buffer have been freed and
      have lost theirs. */
  ghost predicate MarksKept(isglobal: bool, s: Ed, v: View, s': Ed) {
    && |s'.mark| == |s.mark|
    && forall i :: 0 <= i < |s.mark| ==> s'.mark[i] == if isglobal || s.mark[i] in v.lines then s.mark[i] else NIL
  }

  /** The addresses that undo goes back to */
  ghost predicate UndoTo(s: Ed, current: int, last: int) {
    s.uCurrentAddr == current && s.uAddrLast == last
  }

  /** What stays around a command, whether it succeeds or not: the texts of the lines that were on the
      buffer, the texts of all nodes unless the undo stack was cleared first, the marks, and what undo
      goes back to. */
  ghost predicate Around(isglobal: bool, cmd: Command, ok: bool, s: Ed, v: View, s': Ed, v': View)
    requires Accepted(s, cmd) && |v.lines| == s.lastAddr + 1
  {
    && s'.modified == (s.modified || (ok && Changes(cmd, s, v)))
    && LinesKept(v.lines, s.text, s'.text) && (isglobal || !Edits(cmd) ==> TextKept(s.text, s'.text))
    && if Edits(cmd) then
         && v'.saved == SavedBy(isglobal, v) && MarksKept(isglobal, s, v, s')
         && (if isglobal then UndoTo(s', s.uCurrentAddr, s.uAddrLast) else UndoTo(s', s.currentAddr, s.lastAddr))
       else
         && (!ok ==> v' == v) && (!(ok && cmd.Mark?) ==> s'.mark == s.mark)
         && (!(ok && cmd.Undo?) ==> UndoTo(s', s.uCurrentAddr, s.uAddrLast))
  }

  /** What the execution of a command comes to. */
  ghost predicate Executed(isglobal: bool, cmd: Command, s: Ed, v: View, s': Ed, v': View) {
    && |v.lines| == s.lastAddr + 1
    && if !Accepted(s, cmd) then s' == s && v' == v
       else
         var ok := Succeeds(isglobal, cmd, s, v);
         && (if ok then Effect(cmd, s, v, s', v') else Fails(cmd, s, v, s', v'))
         && Around(isglobal, cmd, ok, s, v, s', v')
  }

  /** Execute one command. */
  method ExecCommand(s: Ed, act: Active, cmd: Command, isglobal: bool, ghost v: View)
    returns (ok: bool, s': Ed, act': Active, ghost v': View)
    requires Valid(s, v) && |v.lines| == s.lastAddr + 1
    requires isglobal ==> ActiveOk(act, v.lines)
    ensures Valid(s', v') && |v'.lines| == s'.lastAddr + 1
    ensures Executed(isglobal, cmd, s, v, s', v') && (ok <==> Accepted(s, cmd) && Succeeds(isglobal, cmd, s, v))
    ensures isglobal ==> ActiveOk(act', v'.lines) && Dropped(act, act') && TextKept(s.text, s'.text)
    ensures isglobal && !cmd.Undo? ==>
      && ClearedOf(act, if Accepted(s, cmd) then Gone(cmd, s, v) else {}, act')
      && v'.saved == v.saved && s'.uCurrentAddr == s.uCurrentAddr && s'.uAddrLast == s.uAddrLast
  {
    hide Valid, ActiveOk, Dropped, ClearedOf, Effect, Succeeds, Gone, LinesKept, TextKept, MarksKept;
    ok, s', act', v' := false, s, act, v;
    DroppedNone(act);
    ClearedNone(act);
    KeptSame(s.text);
    var accepted := CheckCommand(s, cmd);
    if !accepted {
      return;
    }
    if cmd.Undo? || cmd.Mark? || cmd.Yank? {
      ok, s', act', v' := ExecOther(s, act, cmd, isglobal, v);
    } else {
      ok, s', act', v' := ExecEdit(s, act, cmd, isglobal, v);
    }
    Bounds(s', v');
  }

  /** The commands that record what they do; outside a global command the stack is cleared first. */
  method ExecEdit(s: Ed, act: Active, cmd: Command, isglobal: bool, ghost v: View)
    returns (ok: bool, s': Ed, act': Active, ghost v': View)
    requires Valid(s, v) && |v.lines| == s.lastAddr + 1 && Accepted(s, cmd) && Edits(cmd)
    requires isglobal ==> ActiveOk(act, v.lines)
    ensures Valid(s', v') && ok == Succeeds(isglobal, cmd, s, v)
    ensures if ok then Effect(cmd, s, v, s', v') else Fails(cmd, s, v, s', v')
    ensures Around(isglobal, cmd, ok, s, v, s', v')
    ensures isglobal ==> ActiveOk(act', v'.lines) && Dropped(act, act') && ClearedOf(act, Gone(cmd, s, v), act')
  {
    hide Valid, ActiveOk, Dropped, ClearedOf, Effect, Succeeds, Gone, ClearedView, LinesKept, TextKept, MarksKept;
    var s1 := s;
    ghost var v1 := v;
    SameLines(v.lines, s.text);
    if isglobal {
      MarksSame(isglobal, s, v);
    } else {
      var freed;
      s1, freed, v1 := ClearUndoStack(s, v);
      ClearedIs(v);
      FreedKeepsLines(s, v, freed, s1);
      FreedMarks(s, v, freed, s1);
    }
    CommandSame(isglobal, cmd, s, v, s1, v1);
    ok, s', act', v' := Edit(s1, act, cmd, isglobal, v1);
    EditedMarks(isglobal, s, v, s1, s');
    TextsIn(s1, v1);
    KeptLines(s, v, s1, s');
    if ok {
      EffectSame(cmd, s, v, s1, v1, s', v');
    }
    if isglobal {
      ClearedDrops(act, Gone(cmd, s, v), act');
    }
  }

  /** The commands that record nothing: mark, undo and yank. */
  method ExecOther(s: Ed, act: Active, cmd: Command, isglobal: bool, ghost v: View)
    returns (ok: bool, s': Ed, act': Active, ghost v': View)
    requires Valid(s, v) && |v.lines| == s.lastAddr + 1 && Accepted(s, cmd) && !Edits(cmd)
    requires isglobal ==> ActiveOk(act, v.lines)
    ensures Valid(s', v') && ok == Succeeds(isglobal, cmd, s, v)
    ensures isglobal ==> ActiveOk(act', v'.lines) && Dropped(act, act')
    ensures isglobal && !cmd.Undo? ==> ClearedOf(act, Gone(cmd, s, v), act')
    ensures if ok then Effect(cmd, s, v, s', v') else Fails(cmd, s, v, s', v')
    ensures Around(isglobal, cmd, ok, s, v, s', v')
    ensures !cmd.Undo? ==> v' == v
  {
    hide Valid, ActiveOk, Dropped, ClearedOf, UndoneView, ListOk, MarksOk, LineTexts, Texts, AddedTo, LinesKept;
    KeptSame(s.text);
    SameLines(v.lines, s.text);
    DroppedNone(act);
    ClearedNone(act);
    act', v' := act, v;
    match cmd {
      case Undo =>
        ok, s', act', v' := PopUndoStack(s, act, isglobal, v);
        if ok {
          UndoneIs(s', v');
          ClearActive(act, v'.lines);
        }
      case Mark(addr, c) =>
        ListOkOf(s, v);
        var s1, node := SearchLineNode(s, addr, v.lines);
        MarkReady(s, v, s1, addr);
        MarkSize(s1);
        ok, s' := MarkLineNode(s1, node, c);
        MarkValid(s, v, s');
      case Yank(from, to) =>
        ok := true;
        s' := YankLines(s, from, to, v);
        LineTextsIs(s.text, v.lines, from, to + 1);
        YankValid(s, v, s');
    }
  }

  /** An insertion puts its lines in front of the line addressed; at address 0 it is an append. */
  lemma {:induction false} InsertsBefore(isglobal: bool, addr: int, ts: seq<Text>, s: Ed, v: View, s': Ed, v': View)
    requires Executed(isglobal, Insert(addr, ts), s, v, s', v') && 0 <= addr <= s.lastAddr
    ensures |v'.lines| == |v.lines| + |ts|
    ensures addr >= 1 ==>
      && v'.lines[..addr] == v.lines[..addr] && v'.lines[addr + |ts|..] == v.lines[addr..]
      && LineTexts(s'.text, v'.lines[addr..addr + |ts|]) == ts && s'.currentAddr == addr + |ts| - 1
    ensures addr == 0 ==> Effect(Append(0, ts), s, v, s', v')
  {
    hide LineTexts, Around;
  }

  /** A change puts its lines in the place of those addressed, which are cut; address 0 acts as 1. */
  lemma {:induction false} ChangesLines(isglobal: bool, from: int, to: int, ts: seq<Text>, s: Ed, v: View, s': Ed,
      v': View)
    requires Executed(isglobal, Change(from, to, ts), s, v, s', v')
    ensures 1 <= from <= to <= s.lastAddr ==>
      && |v'.lines| == |v.lines| - (to - from + 1) + |ts|
      && v'.lines[..from] == v.lines[..from] && v'.lines[from + |ts|..] == v.lines[to + 1..]
      && LineTexts(s'.text, v'.lines[from..from + |ts|]) == ts && s'.currentAddr == from + |ts| - 1
      && s'.yank == LineTexts(s.text, v.lines[from..to + 1])
    ensures from == 0 && 0 <= to <= s.lastAddr && s.lastAddr > 0 ==>
      Executed(isglobal, Change(1, if to == 0 then 1 else to, ts), s, v, s', v')
  {
    hide LineTexts, LinesKept, MarksKept, TextKept;
    if 1 <= from <= to <= s.lastAddr {
      var rest := v.lines[..from] + v.lines[to + 1..];
      assert rest[..from] == v.lines[..from] && rest[from..] == v.lines[to + 1..];
    }
  }

  /** Undo typed after an edit brings back the buffer before it: its lines, their texts and both
      addresses. */
  lemma {:induction false} EditUndone(cmd: Command, s: Ed, v: View, s1: Ed, v1: View, s2: Ed, v2: View)
    requires Valid(s, v) && Accepted(s, cmd) && Edits(cmd) && Valid(s2, v2)
    requires Executed(false, cmd, s, v, s1, v1) && Executed(false, Undo, s1, v1, s2, v2)
    ensures v2.lines == v.lines && LinesKept(v.lines, s.text, s2.text)
    ensures s2.currentAddr == s.currentAddr && s2.lastAddr == s.lastAddr
    ensures v2.saved == v1.lines && UndoTo(s2, s1.currentAddr, s1.lastAddr)
  {
    hide Valid, MarksKept, LinesKept, TextKept, Rewrites, CutBy;
    Bounds(s, v);
    Bounds(s2, v2);
    UndoRewrites(s1, v1, s2, v2);
  }

  lemma {:induction false} UndoRewrites(s: Ed, v: View, s': Ed, v': View)
    requires |v.lines| == s.lastAddr + 1 && Rewrites(Undo, s, v, s', v')
    ensures v'.lines == v.saved && v'.saved == v.lines && s'.text == s.text && UndoTo(s', s.currentAddr, s.lastAddr)
  {
  }

  lemma {:induction false} ClearedIs(v: View)
    ensures ClearedView(v).lines == v.lines && ClearedView(v).saved == v.lines
  {
  }

  lemma {:induction false} UndoneIs(s: Ed, v: View)
    requires Valid(s, v)
    ensures |v.lines| > 0
  {
  }

  lemma {:induction false} ClearActive(a: Active, lines: seq<Line>)
    requires |lines| > 0
    ensures ActiveOk(CLEAR_ACTIVE, lines) && Dropped(a, CLEAR_ACTIVE)
  {
  }

  /** The state an edit starts from after the stack has been cleared gives the same effect. */
  lemma {:induction false} EffectSame(cmd: Command, s: Ed, v: View, s1: Ed, v1: View, s': Ed, v': View)
    requires Accepted(s, cmd) && |v.lines| == s.lastAddr + 1 && Edits(cmd)
    requires s1.lastAddr == s.lastAddr && s1.yank == s.yank && s1.currentAddr == s.currentAddr && v1.lines == v.lines
    requires LinesKept(v.lines, s.text, s1.text)
    requires Effect(cmd, s1, v1, s', v')
    ensures Effect(cmd, s, v, s', v')
  {
    hide LinesKept, Rewrites, CutBy;
    CutSame(cmd, s, v, s1, v1);
    RewritesSame(cmd, s, v, s1, v1, s', v');
  }

  lemma {:induction false} CutSame(cmd: Command, s: Ed, v: View, s1: Ed, v1: View)
    requires Accepted(s, cmd) && |v.lines| == s.lastAddr + 1 && Edits(cmd)
    requires s1.lastAddr == s.lastAddr && s1.yank == s.yank && v1.lines == v.lines
    requires LinesKept(v.lines, s.text, s1.text)
    ensures CutBy(cmd, s1, v1) == CutBy(cmd, s, v)
  {
    hide LineTexts, LinesKept, LastCut;
    if cmd.Delete? || cmd.Join? || cmd.Substitute? {
      TextsSame(v.lines, s.text, s1.text, cmd.from, cmd.to);
    } else if cmd.Change? {
      TextsSame(v.lines, s.text, s1.text, AtLeastOne(cmd.from), AtLeastOne(cmd.to));
    }
  }

  lemma {:induction false} RewritesSame(cmd: Command, s: Ed, v: View, s1: Ed, v1: View, s': Ed, v': View)
    requires Accepted(s, cmd) && |v.lines| == s.lastAddr + 1 && Edits(cmd)
    requires s1.lastAddr == s.lastAddr && s1.yank == s.yank && v1.lines == v.lines
    requires LinesKept(v.lines, s.text, s1.text) && Rewrites(cmd, s1, v1, s', v')
    ensures Rewrites(cmd, s, v, s', v')
  {
    hide AddedTo, LineTexts, LinesKept, Joined, Substituted;
    if cmd.Copy? || cmd.Join? {
      TextsSame(v.lines, s.text, s1.text, cmd.from, cmd.to);
    } else if cmd.Substitute? {
      SubstitutedSame(v.lines, s.text, s1.text, cmd.from, cmd.to, cmd.subst, s'.text, v'.lines, s'.currentAddr);
    }
  }

  lemma {:induction false} SubstitutedSame(lines: seq<Line>, text: map<Line, Text>, text1: map<Line, Text>,
      from: int, to: int, subst: Subst, text': map<Line, Text>, lines': seq<Line>, current: int)
    requires LinesKept(lines, text, text1) && 1 <= from <= to < |lines|
    requires Substituted(text1, lines, from, to + 1, subst, text', lines', current)
    ensures Substituted(text, lines, from, to + 1, subst, text', lines', current)
  {
    hide LineTexts, LinesKept, Hit, Replaced;
    HitsSame(lines, text, text1, from, to, subst);
    TextsSame(lines, text, text1, from, to);
  }

  lemma {:induction false} TextsSame(lines: seq<Line>, text: map<Line, Text>, text1: map<Line, Text>, from: int,
      to: int)
    requires LinesKept(lines, text, text1) && 0 <= from <= to < |lines|
    ensures LineTexts(text, lines[from..to + 1]) == LineTexts(text1, lines[from..to + 1])
  {
    var range := lines[from..to + 1];
    forall i | 0 <= i < |range| ensures LineTexts(text, range)[i] == LineTexts(text1, range)[i] {
      assert range[i] == lines[from + i];
      assert range[i] in lines;
    }
  }

  lemma {:induction false} HitsSame(lines: seq<Line>, text: map<Line, Text>, text1: map<Line, Text>, from: int,
      to: int, subst: Subst)
    requires LinesKept(lines, text, text1) && 0 <= from <= to < |lines|
    ensures Hits(text, lines[from..to + 1], subst) == Hits(text1, lines[from..to + 1], subst)
    ensures forall i :: from <= i < to + 1 ==> Hit(text, subst, lines[i]) == Hit(text1, subst, lines[i])
  {
    forall n | n in lines ensures Hit(text, subst, n) == Hit(text1, subst, n) {
    }
    assert forall n :: n in lines[from..to + 1] ==> n in lines;
  }

  /** What a command names and whether it succeeds depends on the lines, their texts and the cut
      buffer only. */
  lemma {:induction false} CommandSame(isglobal: bool, cmd: Command, s: Ed, v: View, s1: Ed, v1: View)
    requires Accepted(s, cmd) && |v.lines| == s.lastAddr + 1 && Edits(cmd)
    requires s1.lastAddr == s.lastAddr && s1.yank == s.yank && v1.lines == v.lines
    requires LinesKept(v.lines, s.text, s1.text)
    ensures Accepted(s1, cmd) && Gone(cmd, s1, v1) == Gone(cmd, s, v) && Changes(cmd, s1, v1) == Changes(cmd, s, v)
    ensures Succeeds(isglobal, cmd, s1, v1) == Succeeds(isglobal, cmd, s, v)
  {
    hide LinesKept, Hits, Elems;
    if cmd.Substitute? {
      HitsSame(v.lines, s.text, s1.text, cmd.from, cmd.to, cmd.subst);
    }
  }

  lemma {:induction false} MarksSame(isglobal: bool, s: Ed, v: View)
    requires isglobal
    ensures MarksKept(isglobal, s, v, s)
  {
  }

  lemma {:induction false} FreedMarks(s: Ed, v: View, freed: seq<Line>, s1: Ed)
    requires Valid(s, v) && Unmarked(s.mark, freed, s1.mark)
    requires multiset(freed) == multiset(s.forw.Keys - Elems(v.lines))
    ensures MarksKept(false, s, v, s1)
  {
    hide HeapOk, ListOk, Undoable;
    forall i | 0 <= i < |s.mark| ensures s1.mark[i] == if s.mark[i] in v.lines then s.mark[i] else NIL {
      var n := s.mark[i];
      assert n in freed <==> n in multiset(freed);
      assert n in v.lines <==> n in Elems(v.lines);
    }
  }

  lemma {:induction false} EditedMarks(isglobal: bool, s: Ed, v: View, s1: Ed, s': Ed)
    requires MarksKept(isglobal, s, v, s1) && s'.mark == s1.mark
    ensures MarksKept(isglobal, s, v, s')
  {
  }

  lemma {:induction false} KeptLines(s: Ed, v: View, s1: Ed, s': Ed)
    requires LinesKept(v.lines, s.text, s1.text) && TextKept(s1.text, s'.text)
    requires forall k :: 0 <= k < |v.lines| ==> v.lines[k] in s1.text
    ensures LinesKept(v.lines, s.text, s'.text)
  {
  }

  /** The lines on the buffer keep their texts. */
  ghost predicate LinesKept(lines: seq<Line>, text: map<Line, Text>, text': map<Line, Text>) {
    forall n :: n in lines ==> (n in text <==> n in text') && (n in text ==> text'[n] == text[n])
  }

  lemma {:induction false} SameLines(lines: seq<Line>, text: map<Line, Text>)
    ensures LinesKept(lines, text, text)
  {
  }

  /** Freeing nodes off the buffer leaves the texts of the lines on it. */
  lemma {:induction false} FreedKeepsLines(s: Ed, v: View, freed: seq<Line>, s1: Ed)
    requires multiset(freed) == multiset(s.forw.Keys - Elems(v.lines)) && s1.text == s.text - Elems(freed)
    ensures LinesKept(v.lines, s.text, s1.text)
  {
    forall n | n in v.lines ensures n !in Elems(freed) {
      assert n in Elems(v.lines) && n !in multiset(freed);
    }
  }

  lemma {:induction false} MarkReady(s: Ed, v: View, s1: Ed, addr: nat)
    requires Valid(s, v) && 1 <= addr < |v.lines| && s1 == s.(lp := s1.lp, oAddr := s1.oAddr)
    ensures MarksOk(s1) && v.lines[addr] in s1.forw && v.lines[addr] != NIL
  {
    At(s, v.lines, addr);
  }

  lemma {:induction false} MarkSize(s: Ed)
    requires MarksOk(s)
    ensures |s.mark| == 26
  {
  }

  lemma {:induction false} MarkValid(s: Ed, v: View, s': Ed)
    requires Valid(s, v) && s' == s.(lp := s'.lp, oAddr := s'.oAddr, mark := s'.mark, markno := s'.markno)
    requires MarksOk(s') && 0 <= s'.oAddr <= s.lastAddr && s'.lp == v.lines[s'.oAddr]
    ensures Valid(s', v)
  {
  }

  lemma {:induction false} YankValid(s: Ed, v: View, s': Ed)
    requires Valid(s, v) && s' == s.(lp := s'.lp, oAddr := s'.oAddr, yank := s'.yank) && ListOk(s', v.lines)
    ensures Valid(s', v)
  {
  }
}
