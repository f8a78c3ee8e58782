/** Whole runs of the pager: every sequence of faults, reads, writes, file-system answers and
    process starts and ends. */
module PagerRun {
  import opened Options
  import opened SeqUtil
  import opened Words
  import opened PagerState
  import opened PagerLemmas
  import opened PagerQueue
  import opened PagerClock
  import opened PagerStart
  import opened PagerFinish
  import opened PagerContinue
  import opened PagerExit

  const FRAME_ALLOC_LIMIT: nat := 1024

  // ---------------------------------------------------------------- the steps of user programs

  /** A fault is answered at once, with the page mapped, or waits in the queue behind all others. */
  ghost predicate Faulted(s: Pager, view: View, vp: Vpage, s': Pager, view': View) {
    && Extends(view, view') && Continues(s, s') && Settles(s, s')
    && s'.disk.slots == Left(s.disk.slots, Hungry(s, vp))
    && if Stalls(s, vp) then
         && s'.replies + Pids(s'.requests) == s.replies + Pids(s.requests) + [vp.pid]
         && (Wanted(s'.requests, vp) || Here(s', vp)) && Queues(s, [Some(vp)], s')
       else
         && s'.replies == s.replies + [vp.pid] && s'.requests == s.requests
         && vp in s'.mapped && view' == FirstSeen(s, view, vp) && ClockOf(s') == Use(ClockOf(s), vp)
         && s'.alloced == if Lookup(s.pt, vp).addr == 0 then s.alloced + [vp] else s.alloced
  }

  /** A page fault.  One outside every region, or against the rights of its region, ends the
      process; any other is served now or queued. */
  method PageFault(s: Pager, ghost view: View, vp: Vpage, legal: bool) returns (s': Pager, ghost view': View)
    requires Inv(s, view) && vp.pid in s.procs && vp.pid !in Pids(s.requests)
    requires legal && Hungry(s, vp) ==> |s.disk.slots| > 0
    ensures Inv(s', view')
    ensures if legal then Faulted(s, view, vp, s', view') else Deleted(s, view, vp.pid, s', view')
    ensures s.replies <= s'.replies && s'.total == s.total
  {
    hide Core, Pids, Inv, Unique, Others, Settles, Wanted, Here, Deleted, Extends, FirstSeen;
    if !legal {
      var rval;
      s', view', rval := ProcessDelete(s, view, vp.pid);
      DeletedView(s, view, vp.pid, s', view');
      return;
    }
    InvCore(s, view);
    s', view' := PagerServe(s, view, vp);
  }

  method UserWrite(s: Pager, ghost view: View, vp: Vpage, offset: nat, b: Byte) returns (s': Pager, ghost view': View)
    requires Inv(s, view) && vp in s.mapped && offset < PAGESIZE
    ensures vp in view && |view[vp]| == PAGESIZE && view' == view[vp := view[vp][offset := b]]
    ensures Inv(s', view') && s' == s.(ram := s'.ram)
  {
    hide Core, Pids, Inv;
    InvCore(s, view);
    ghost var out, limbo := OutOf(s), LimboOf(s);
    MappedPage(s, view, out, limbo, vp);
    var f := s.pt[vp].addr;
    CoreUser(s, view, out, limbo, vp, s.ram.mem[f][offset := b]);
    s' := s.(ram := s.ram.(mem := s.ram.mem[f := s.ram.mem[f][offset := b]]));
    view' := view[vp := view[vp][offset := b]];
    FlightHeld(s);
    InvKeeps(s, s', view, view');
  }

  /** What the processor reads from a page it can reach is what the process has in it. */
  method UserRead(s: Pager, ghost view: View, vp: Vpage, offset: nat) returns (b: Byte)
    requires Inv(s, view) && vp in s.mapped && offset < PAGESIZE
    ensures vp in view && |view[vp]| == PAGESIZE && b == view[vp][offset]
  {
    hide Core, Inv;
    InvCore(s, view);
    MappedPage(s, view, OutOf(s), LimboOf(s), vp);
    b := s.ram.mem[s.pt[vp].addr][offset];
  }

  lemma {:induction false} MappedPage(s: Pager, view: View, out: Option<Out>, limbo: Option<Vpage>, vp: Vpage)
    requires Core(s, view, out, limbo) && vp in s.mapped
    ensures vp in s.pt && s.pt[vp].addr in s.ram.mem && |s.ram.mem[s.pt[vp].addr]| == PAGESIZE
    ensures vp in view && view[vp] == s.ram.mem[s.pt[vp].addr] && s.pt[vp].addr !in Held(s.pinned, out)
  {
    hide SlotsOk;
    assert vp in s.alloced;
  }

  /** A process appears; it has touched nothing yet. */
  method ProcessStart(s: Pager, ghost view: View, pid: Pid) returns (s': Pager)
    requires Inv(s, view)
    ensures Inv(s', view) && s' == s.(procs := s.procs + {pid})
  {
    hide Core, Pids, Inv;
    InvCore(s, view);
    s' := s.(procs := s.procs + {pid});
    CoreProcs(s, view, OutOf(s), LimboOf(s), pid);
    InvKeeps(s, s', view, view);
  }

  lemma {:induction false} CoreProcs(s: Pager, view: View, out: Option<Out>, limbo: Option<Vpage>, pid: Pid)
    requires Core(s, view, out, limbo)
    ensures Core(s.(procs := s.procs + {pid}), view, out, limbo)
  {
    hide FramesOk, SlotsOk, Transparent;
    TransparentSame(s, s.(procs := s.procs + {pid}), view, out, limbo);
  }

  /** A load is refused at once when no process number is left, and queued otherwise. */
  ghost predicate Created(s: Pager, view: View, pid: Pid, reserved: bool, s': Pager, view': View) {
    if !reserved then s' == s.(replies := s.replies + [pid]) && view' == view
    else
      && Extends(view, view') && Continues(s, s') && Settles(s, s')
      && s'.requests == s.requests + [Elfload(pid, ELFLOAD_OPEN)] && s'.replies == s.replies
      && ClockOf(s') == ClockOf(s) && s'.disk.slots == s.disk.slots
  }

  /** A process asks for a program to be loaded; `reserved` says whether a number for the new
      process could be had. */
  method ProcessCreate(s: Pager, ghost view: View, pid: Pid, reserved: bool) returns (s': Pager, ghost view': View)
    requires Inv(s, view) && pid in s.procs && pid !in Pids(s.requests)
    ensures Inv(s', view') && Created(s, view, pid, reserved, s', view')
    ensures s'.replies + Pids(s'.requests) ==
            if reserved then s.replies + Pids(s.requests) + [pid] else s.replies + [pid] + Pids(s.requests)
  {
    hide Core, Pids, Inv, Settles, Extends;
    if !reserved {
      s', view' := s.(replies := s.replies + [pid]), view;
      ReplyKeeps(s, s', view);
    } else {
      s', view' := QueueRequest(s, view, Elfload(pid, ELFLOAD_OPEN));
      PidsAppend(s.requests, Elfload(pid, ELFLOAD_OPEN));
      PidsOne(Elfload(pid, ELFLOAD_OPEN));
    }
  }

  // ---------------------------------------------------------------- what user programs observe

  datatype Event =
    | Fault(vp: Vpage, legal: bool)
    | Write(vp: Vpage, offset: nat, b: Byte)
    | Read(vp: Vpage, offset: nat)
    | VfsReply(choice: nat)
    | Start(pid: Pid)
    | Create(pid: Pid, reserved: bool)
    | Delete(pid: Pid)

  datatype Observed =
    | Wrote(vp: Vpage, offset: nat, b: Byte)
    | Saw(vp: Vpage, offset: nat, b: Byte)
    | Ended(pid: Pid)

  /** The byte last written to, or seen in, a cell of a process since it began */
  ghost function Last(log: seq<Observed>, vp: Vpage, offset: nat): Option<Byte> {
    if |log| == 0 then None else
      var e, before := log[|log| - 1], Last(log[..|log| - 1], vp, offset);
      match e
      case Wrote(v, o, b) => if v == vp && o == offset then Some(b) else before
      case Saw(v, o, b) => if v == vp && o == offset then Some(b) else before
      case Ended(pid) => if vp.pid == pid then None else before
  }

  /** Memory behaves as memory: every read sees the byte last written to, or seen in, its cell. */
  ghost predicate Consistent(log: seq<Observed>) {
    if |log| == 0 then true else
      var e, before := log[|log| - 1], log[..|log| - 1];
      Consistent(before) && (e.Saw? && Last(before, e.vp, e.offset).Some? ==> Last(before, e.vp, e.offset).value == e.b)
  }

  /** What has been observed is what the pages hold. */
  ghost predicate Agrees(log: seq<Observed>, view: View) {
    && Consistent(log)
    && forall vp, offset: nat :: Last(log, vp, offset).Some? ==>
         vp in view && offset < |view[vp]| && view[vp][offset] == Last(log, vp, offset).value
  }

  lemma {:induction false} AgreesExtends(log: seq<Observed>, view: View, view': View)
    requires Agrees(log, view) && Extends(view, view')
    ensures Agrees(log, view')
  {
  }

  lemma {:induction false} AgreesWrite(log: seq<Observed>, view: View, vp: Vpage, offset: nat, b: Byte)
    requires Agrees(log, view) && vp in view && offset < |view[vp]|
    ensures Agrees(log + [Wrote(vp, offset, b)], view[vp := view[vp][offset := b]])
  {
    var log', view' := log + [Wrote(vp, offset, b)], view[vp := view[vp][offset := b]];
    assert log'[..|log|] == log;
    forall v, o: nat | Last(log', v, o).Some?
      ensures v in view' && o < |view'[v]| && view'[v][o] == Last(log', v, o).value
    {
      if v != vp || o != offset {
        assert Last(log', v, o) == Last(log, v, o);
      }
    }
  }

  lemma {:induction false} AgreesRead(log: seq<Observed>, view: View, vp: Vpage, offset: nat)
    requires Agrees(log, view) && vp in view && offset < |view[vp]|
    ensures Agrees(log + [Saw(vp, offset, view[vp][offset])], view)
  {
    assert (log + [Saw(vp, offset, view[vp][offset])])[..|log|] == log;
  }

  lemma {:induction false} AgreesEnd(log: seq<Observed>, view: View, pid: Pid)
    requires Agrees(log, view)
    ensures Agrees(log + [Ended(pid)], ViewOthers(view, pid))
  {
    assert (log + [Ended(pid)])[..|log|] == log;
  }

  // ---------------------------------------------------------------- runs

  /** The request is one the process waits for. */
  predicate IsFor(r: Request, pid: Pid) {
    (r.Swapin? && r.vp.pid == pid) || (r.Elfload? && r.parent == pid)
  }

  predicate WaitsIn(rs: seq<Request>, pid: Pid) {
    exists i :: 0 <= i < |rs| && IsFor(rs[i], pid)
  }

  lemma {:induction false} WaitsIff(rs: seq<Request>, pid: Pid)
    ensures WaitsIn(rs, pid) <==> pid in Pids(rs)
  {
    if |rs| > 0 {
      var rest, r := rs[..|rs| - 1], rs[|rs| - 1];
      WaitsIff(rest, pid);
      PidsAppend(rest, r);
      PidsOne(r);
      assert rs == rest + [r];
      assert WaitsIn(rs, pid) <==> WaitsIn(rest, pid) || IsFor(r, pid) by {
        assert forall i :: 0 <= i < |rest| ==> rs[i] == rest[i];
      }
    }
  }

  /** The processor can reach the byte. */
  ghost predicate Reaches(s: Pager, vp: Vpage, offset: nat) {
    vp in s.mapped && offset < PAGESIZE
  }

  /** The event ends a process. */
  ghost predicate Ending(e: Event) {
    e.Delete? || (e.Fault? && !e.legal)
  }

  /** The process runs: it exists and does not wait in the queue. */
  ghost predicate Runs(s: Pager, pid: Pid) {
    pid in s.procs && pid !in Pids(s.requests)
  }

  /** What one event does, and what is observed.  Events that cannot happen change nothing: an access
      to a page the processor cannot reach, a request of a process that waits already, an answer
      nobody waits for, the end of a process that waits.  So does what would need a slot of a full
      swap file. */
  ghost predicate Happens(s: Pager, view: View, e: Event, s': Pager, view': View, obs: seq<Observed>) {
    match e
    case Fault(vp, legal) =>
      if !Runs(s, vp.pid) || (legal && Hungry(s, vp) && |s.disk.slots| == 0) then Idle(s, view, s', view', obs)
      else if legal then Faulted(s, view, vp, s', view') && obs == []
      else Deleted(s, view, vp.pid, s', view') && obs == [Ended(vp.pid)]
    case Write(vp, offset, b) =>
      if !Reaches(s, vp, offset) then Idle(s, view, s', view', obs)
      else
        && vp in view && |view[vp]| == PAGESIZE && view' == view[vp := view[vp][offset := b]] && s' == s.(ram := s'.ram)
        && obs == [Wrote(vp, offset, b)]
    case Read(vp, offset) =>
      if !Reaches(s, vp, offset) then Idle(s, view, s', view', obs)
      else
        && vp in view && |view[vp]| == PAGESIZE && view' == view && s' == s
        && obs == [Saw(vp, offset, view[vp][offset])]
    case VfsReply(choice) =>
      if |s.requests| == 0 || (AnswerNeedsSlot(s, choice) && |s.disk.slots| == 0) then Idle(s, view, s', view', obs)
      else
        && Step(s, view, s', view') && Rank(s') < Rank(s) && Advances(s, choice, s') && obs == []
        && s'.disk.slots == SlotsAfter(s, choice) && ZeroFilled(s, view')
        && (AnswerNeedsSlot(s, choice) <==> |s'.disk.slots| < |s.disk.slots|)
    case Start(pid) => s' == s.(procs := s.procs + {pid}) && view' == view && obs == []
    case Create(pid, reserved) =>
      if !Runs(s, pid) then Idle(s, view, s', view', obs)
      else Created(s, view, pid, reserved, s', view') && obs == []
    case Delete(pid) =>
      if pid in Pids(s.requests) then Idle(s, view, s', view', obs)
      else Deleted(s, view, pid, s', view') && obs == [Ended(pid)]
  }

  ghost predicate Idle(s: Pager, view: View, s': Pager, view': View, obs: seq<Observed>) {
    s' == s && view' == view && obs == []
  }

  /** Handle one event. */
  method Dispatch(s: Pager, ghost view: View, e: Event) returns (s': Pager, ghost view': View, obs: seq<Observed>)
    requires Inv(s, view)
    ensures Inv(s', view') && Happens(s, view, e, s', view', obs)
    ensures s.replies <= s'.replies && s'.total == s.total
  {
    hide Core, Pids, Inv, WaitsIn, Others, Rank, Faulted, Deleted, Created, Step, AnswerNeedsSlot, Hungry;
    s', view', obs := s, view, [];
    match e {
      case Fault(vp, legal) =>
        WaitsIff(s.requests, vp.pid);
        if vp.pid in s.procs && !WaitsIn(s.requests, vp.pid) && (legal && Hungry(s, vp) ==> |s.disk.slots| > 0) {
          s', view' := PageFault(s, view, vp, legal);
          obs := if legal then [] else [Ended(vp.pid)];
        }
      case Write(vp, offset, b) =>
        if vp in s.mapped && offset < PAGESIZE {
          s', view' := UserWrite(s, view, vp, offset, b);
          obs := [Wrote(vp, offset, b)];
        }
      case Read(vp, offset) =>
        if vp in s.mapped && offset < PAGESIZE {
          var b := UserRead(s, view, vp, offset);
          obs := [Saw(vp, offset, b)];
        }
      case VfsReply(choice) =>
        if |s.requests| > 0 && (AnswerNeedsSlot(s, choice) ==> |s.disk.slots| > 0) {
          s', view' := VfsHandler(s, view, choice);
          StepInv(s, view, s', view');
        }
      case Start(pid) => s' := ProcessStart(s, view, pid);
      case Create(pid, reserved) =>
        WaitsIff(s.requests, pid);
        if pid in s.procs && !WaitsIn(s.requests, pid) {
          s', view' := ProcessCreate(s, view, pid, reserved);
        }
      case Delete(pid) =>
        WaitsIff(s.requests, pid);
        if !WaitsIn(s.requests, pid) {
          var rval;
          s', view', rval := ProcessDelete(s, view, pid);
          obs := [Ended(pid)];
        }
    }
    HappensKeeps(s, view, e, s', view', obs);
  }

  lemma {:induction false} StepInv(s: Pager, view: View, s': Pager, view': View)
    requires Step(s, view, s', view')
    ensures Inv(s', view') && Extends(view, view') && Continues(s, s')
  {
    hide Inv;
  }

  /** Whatever happens, what processes have observed is what their pages hold. */
  lemma {:induction false} HappensAgrees(s: Pager, view: View, e: Event, s': Pager, view': View,
      obs: seq<Observed>, log: seq<Observed>)
    requires Happens(s, view, e, s', view', obs) && Agrees(log, view)
    ensures Agrees(log + obs, view')
  {
    hide Agrees, Deleted, Step, Rank, Hungry, AnswerNeedsSlot, Settles, Continues, Extends;
    assert log + [] == log;
    match e {
      case Fault(vp, legal) =>
        if obs == [Ended(vp.pid)] {
          DeletedView(s, view, vp.pid, s', view');
          AgreesEnd(log, view, vp.pid);
        } else if view' != view {
          AgreesExtends(log, view, view');
        }
      case Write(vp, offset, b) =>
        if Reaches(s, vp, offset) {
          AgreesWrite(log, view, vp, offset, b);
        }
      case Read(vp, offset) =>
        if Reaches(s, vp, offset) {
          AgreesRead(log, view, vp, offset);
        }
      case VfsReply(choice) =>
        if view' != view {
          StepInv(s, view, s', view');
          AgreesExtends(log, view, view');
        }
      case Start(pid) =>
      case Create(pid, reserved) =>
        if view' != view {
          AgreesExtends(log, view, view');
        }
      case Delete(pid) =>
        if obs != [] {
          DeletedView(s, view, pid, s', view');
          AgreesEnd(log, view, pid);
        }
    }
  }

  lemma {:induction false} DeletedView(s: Pager, view: View, pid: Pid, s': Pager, view': View)
    requires Deleted(s, view, pid, s', view')
    ensures view' == ViewOthers(view, pid) && s'.total == s.total && s'.replies == s.replies
    ensures Leaked(s') == Leaked(s) + |DiskPages(s, pid)|
  {
  }

  /** Answers are only added, the budget stays the same, and swap slots are lost only where a process
      ends. */
  lemma {:induction false} HappensKeeps(s: Pager, view: View, e: Event, s': Pager, view': View, obs: seq<Observed>)
    requires Happens(s, view, e, s', view', obs)
    ensures s.replies <= s'.replies && s'.total == s.total
    ensures Leaked(s') >= Leaked(s) && (!Ending(e) ==> Leaked(s') == Leaked(s))
  {
    hide Deleted, Step, Rank, Hungry, AnswerNeedsSlot, Settles, Extends, Stalls, FirstSeen;
    match e {
      case Fault(vp, legal) =>
        if obs == [Ended(vp.pid)] {
          DeletedView(s, view, vp.pid, s', view');
        }
      case VfsReply(choice) =>
        if s' != s {
          StepInv(s, view, s', view');
        }
      case Delete(pid) =>
        if obs != [] {
          DeletedView(s, view, pid, s', view');
        }
      case _ =>
    }
  }

  /** The pager as it starts: all frames free, all of the budget left, all slots free. */
  ghost function Started(ram: Ram, file: seq<Byte>): Pager {
    Pager(map[], ram, Disk(file, 0, NIL_FILE, NIL_FILE, NoIo, seq(SWAPSIZE, i => i), []), FRAME_ALLOC_LIMIT, |ram.free|,
          FRAME_ALLOC_LIMIT, [], [], false, 0, {}, {}, [])
  }

  /** pager_init: all frames and slots are free, and the budget is whole. */
  method PagerInit(ram: Ram, file: seq<Byte>) returns (s: Pager)
    ensures s == Started(ram, file)
  {
    var slots: seq<nat> := [];
    while |slots| < SWAPSIZE
      invariant |slots| <= SWAPSIZE && forall i :: 0 <= i < |slots| ==> slots[i] == i
    {
      slots := slots + [|slots|];
    }
    var d := Disk(file, 0, NIL_FILE, NIL_FILE, NoIo, slots, []);
    s := Pager(map[], ram, d, FRAME_ALLOC_LIMIT, |ram.free|, FRAME_ALLOC_LIMIT, [], [], false, 0, {}, {}, []);
    assert s.disk.slots == Started(ram, file).disk.slots;
  }

  lemma {:induction false} StartedInv(ram: Ram, file: seq<Byte>)
    requires Unique(ram.free) && (forall f :: f in ram.free ==> f in ram.mem)
    requires (forall f :: f in ram.mem ==> f != 0 && |ram.mem[f]| == PAGESIZE)
    requires |ram.free| > FRAME_ALLOC_LIMIT && |file| == SWAPSIZE * PAGESIZE
    ensures Inv(Started(ram, file), map[]) && Agrees([], map[])
  {
    var s := Started(ram, file);
    assert Held(0, None) == [];
    assert forall k :: k in s.disk.slots ==> k < SWAPSIZE;
    assert SlotsOk(s.pt, s.disk);
    assert FramesOk(s.pt, s.alloced, s.ram, []);
    assert Pids([]) == [];
  }

  /** A process with one page on disk ends: its slot stays handed out, to nobody. */
  method LostSlotExample(ram: Ram, file: seq<Byte>) returns (s: Pager, s': Pager, ghost view: View, ghost view': View)
    requires Unique(ram.free) && (forall f :: f in ram.free ==> f in ram.mem)
    requires (forall f :: f in ram.mem ==> f != 0 && |ram.mem[f]| == PAGESIZE)
    requires |ram.free| > FRAME_ALLOC_LIMIT && |file| == SWAPSIZE * PAGESIZE
    ensures Inv(s, view) && s.disk.swapped == [(1, 0)] && DiskPages(s, 1) == {Vpage(1, 0)} && Leaked(s) == 0
    ensures Inv(s', view') && s'.disk.swapped == [(1, 0)] && s'.procs == {} && view' == map[] && Leaked(s') == 1
  {
    hide Inv, Deleted, Pids;
    var vp := Vpage(1, 0);
    var d := Disk(file, 0, NIL_FILE, NIL_FILE, NoIo, seq(SWAPSIZE - 1, i requires 0 <= i => i + 1), [(1, 0)]);
    s := PagerInit(ram, file);
    s := s.(pt := map[vp := Entry(0, true, false)], disk := d, procs := {1});
    view := map[vp := SlotAt(file, 0)];
    OneOnDisk(s, view, ram, file);
    var rval;
    s', view', rval := ProcessDelete(s, view, 1);
    OneLost(s, view, s', view');
  }

  lemma {:induction false} OneOnDisk(s: Pager, view: View, ram: Ram, file: seq<Byte>)
    requires Unique(ram.free) && (forall f :: f in ram.free ==> f in ram.mem)
    requires (forall f :: f in ram.mem ==> f != 0 && |ram.mem[f]| == PAGESIZE)
    requires |ram.free| > FRAME_ALLOC_LIMIT && |file| == SWAPSIZE * PAGESIZE
    requires s == Started(ram, file).(pt := map[Vpage(1, 0) := Entry(0, true, false)], disk := s.disk, procs := {1})
    requires s.disk == Disk(file, 0, NIL_FILE, NIL_FILE, NoIo, s.disk.slots, [(1, 0)]) && |s.disk.slots| == SWAPSIZE - 1
    requires forall i :: 0 <= i < |s.disk.slots| ==> s.disk.slots[i] == i + 1
    requires view == map[Vpage(1, 0) := SlotAt(file, 0)]
    ensures Inv(s, view) && DiskPages(s, 1) == {Vpage(1, 0)} && Leaked(s) == 0 && Pids(s.requests) == []
  {
    hide FramesOk, SlotsOk, Unique;
    assert Held(0, None) == [];
    OneSlot(s.pt, s.disk);
    NoFrames(s.pt, s.alloced, s.ram, []);
    assert OnDisk(s.pt) == {Vpage(1, 0)} && DiskPages(s, 1) == {Vpage(1, 0)};
    assert Pids([]) == [];
    UniqueNone(s.requests);
  }

  lemma {:induction false} OneSlot(pt: map<Vpage, Entry>, d: Disk)
    requires pt == map[Vpage(1, 0) := Entry(0, true, false)] && d.swapped == [(1, 0)]
    requires |d.file| == SWAPSIZE * PAGESIZE && |d.slots| == SWAPSIZE - 1
    requires forall i :: 0 <= i < |d.slots| ==> d.slots[i] == i + 1
    ensures SlotsOk(pt, d)
  {
    assert d.swapped[0] == (1, 0);
  }

  lemma {:induction false} NoFrames(pt: map<Vpage, Entry>, alloced: seq<Vpage>, ram: Ram, held: seq<Frame>)
    requires pt == map[Vpage(1, 0) := Entry(0, true, false)] && alloced == [] && held == []
    requires Unique(ram.free) && (forall f :: f in ram.free ==> f in ram.mem)
    requires forall f :: f in ram.mem ==> f != 0 && |ram.mem[f]| == PAGESIZE
    ensures FramesOk(pt, alloced, ram, held)
  {
  }

  lemma {:induction false} UniqueNone(rs: seq<Request>)
    requires |rs| == 0
    ensures Unique(Pids(rs))
  {
  }

  lemma {:induction false} OneLost(s: Pager, view: View, s': Pager, view': View)
    requires Deleted(s, view, 1, s', view') && s.procs == {1} && view.Keys == {Vpage(1, 0)}
    requires DiskPages(s, 1) == {Vpage(1, 0)} && Leaked(s) == 0
    ensures s'.disk == s.disk && s'.procs == {} && view' == map[] && Leaked(s') == 1
  {
    hide Leaked, DiskPages;
  }

  /** A run of the pager: its states, what processes see in them, and what is observed on the way */
  ghost predicate IsRun(events: seq<Event>, states: seq<Pager>, views: seq<View>, seen: seq<seq<Observed>>) {
    && |states| == |events| + 1 && |views| == |events| + 1 && |seen| == |events|
    && forall i :: 0 <= i < |events| ==> Happens(states[i], views[i], events[i], states[i + 1], views[i + 1], seen[i])
  }

  lemma {:induction false} RunMore(events: seq<Event>, states: seq<Pager>, views: seq<View>, seen: seq<seq<Observed>>,
      e: Event, s': Pager, view': View, obs: seq<Observed>)
    requires IsRun(events, states, views, seen)
    requires Happens(states[|events|], views[|events|], e, s', view', obs)
    ensures IsRun(events + [e], states + [s'], views + [view'], seen + [obs])
  {
    hide Happens;
  }

  /** What is left of the budget, the resident pages and the page on its way out are together the whole
      budget, and the pager is active exactly while requests wait. */
  ghost predicate Budgeted(s: Pager) {
    && s.allocLimit >= 0 && (s.active <==> |s.requests| > 0)
    && s.allocLimit + |s.alloced| + (if |s.requests| > 0 && s.requests[0].Swapout? then 1 else 0) == FRAME_ALLOC_LIMIT
  }

  lemma {:induction false} InvBudgeted(s: Pager, view: View)
    requires Inv(s, view) && s.total == FRAME_ALLOC_LIMIT
    ensures Budgeted(s)
  {
    InvCore(s, view);
    CoreBudget(s, view);
  }

  /** The invariant of the pager and the budget equation hold in every state. */
  ghost predicate AllInvariant(states: seq<Pager>, views: seq<View>) {
    |states| == |views| && forall i :: 0 <= i < |states| ==> Inv(states[i], views[i]) && Budgeted(states[i])
  }

  lemma {:induction false} InvariantOne(s: Pager, view: View)
    requires Inv(s, view) && Budgeted(s)
    ensures AllInvariant([s], [view])
  {
  }

  lemma {:induction false} InvariantMore(states: seq<Pager>, views: seq<View>, s: Pager, view: View)
    requires AllInvariant(states, views) && Inv(s, view) && Budgeted(s)
    ensures AllInvariant(states + [s], views + [view])
  {
    hide Inv, Budgeted;
  }

  /** Demand paging is transparent.  Every sequence of events, starting from an idle pager, is a run
      whose events do what `Happens` says; what the processes read in it is what a memory without
      paging would give them; and the invariant of the pager and the budget equation hold in every
      state of it.  Swap slots are lost only where a process ends. */
  method Serve(ram: Ram, file: seq<Byte>, events: seq<Event>)
    returns (s: Pager, log: seq<Observed>, ghost states: seq<Pager>, ghost views: seq<View>,
        ghost seen: seq<seq<Observed>>)
    requires Unique(ram.free) && (forall f :: f in ram.free ==> f in ram.mem)
    requires (forall f :: f in ram.mem ==> f != 0 && |ram.mem[f]| == PAGESIZE)
    requires |ram.free| > FRAME_ALLOC_LIMIT && |file| == SWAPSIZE * PAGESIZE
    ensures IsRun(events, states, views, seen) && states[0] == Started(ram, file) && views[0] == map[]
    ensures s == states[|events|] && log == Concat(seen)
    ensures AllInvariant(states, views) && Consistent(log)
    ensures Leaked(s) >= 0 && ((forall i :: 0 <= i < |events| ==> !Ending(events[i])) ==> Leaked(s) == 0)
  {
    hide Inv, Agrees, Started, Core, Happens, IsRun, Serving, AllInvariant, Leaked, Consistent;
    ghost var view: View := map[];
    s := PagerInit(ram, file);
    log, states, views, seen := [], [s], [view], [];
    var i := 0;
    ServingStart(ram, file, events, i, s, view, log, states, views, seen);
    while i < |events|
      invariant 0 <= i <= |events| && Inv(s, view) && Serving(ram, file, events, i, s, view, log, states, views, seen)
    {
      var s', obs;
      ghost var view';
      s', view', obs := Dispatch(s, view, events[i]);
      ServingMore(ram, file, events, i, s, view, log, states, views, seen, s', view', obs);
      states, views, seen := states + [s'], views + [view'], seen + [obs];
      s, view, log := s', view', log + obs;
      i := i + 1;
    }
    ServingEnd(ram, file, events, i, s, view, log, states, views, seen);
  }

  /** The loop invariant: the first `i` events have been handled. */
  ghost predicate Serving(ram: Ram, file: seq<Byte>, events: seq<Event>, i: nat, s: Pager, view: View,
      log: seq<Observed>, states: seq<Pager>, views: seq<View>, seen: seq<seq<Observed>>)
  {
    && i <= |events| && Agrees(log, view) && s.total == FRAME_ALLOC_LIMIT
    && Leaked(s) >= 0 && ((forall j :: 0 <= j < i ==> !Ending(events[j])) ==> Leaked(s) == 0)
    && |states| == i + 1 && |views| == i + 1 && |seen| == i && states[i] == s && views[i] == view
    && states[0] == Started(ram, file) && views[0] == map[]
    && IsRun(events[..i], states, views, seen) && log == Concat(seen) && AllInvariant(states, views)
  }

  lemma {:induction false} ServingStart(ram: Ram, file: seq<Byte>, events: seq<Event>, i: nat, s: Pager, view: View,
      log: seq<Observed>, states: seq<Pager>, views: seq<View>, seen: seq<seq<Observed>>)
    requires Unique(ram.free) && (forall f :: f in ram.free ==> f in ram.mem)
    requires (forall f :: f in ram.mem ==> f != 0 && |ram.mem[f]| == PAGESIZE)
    requires |ram.free| > FRAME_ALLOC_LIMIT && |file| == SWAPSIZE * PAGESIZE
    requires i == 0 && s == Started(ram, file) && view == map[] && log == [] && states == [s] && views == [view]
    requires seen == []
    ensures Inv(s, view) && Serving(ram, file, events, i, s, view, log, states, views, seen)
  {
    hide Inv, Agrees, Started, Leaked, IsRun, Budgeted, AllInvariant;
    StartedInv(ram, file);
    StartedBudget(ram, file);
    RunNone(s, view);
    InvBudgeted(s, view);
    InvariantOne(s, view);
    assert events[..i] == [];
  }

  lemma {:induction false} ServingMore(ram: Ram, file: seq<Byte>, events: seq<Event>, i: nat, s: Pager, view: View,
      log: seq<Observed>, states: seq<Pager>, views: seq<View>, seen: seq<seq<Observed>>, s': Pager, view': View,
      obs: seq<Observed>)
    requires Serving(ram, file, events, i, s, view, log, states, views, seen) && i < |events|
    requires Inv(s', view') && Happens(s, view, events[i], s', view', obs)
    ensures Serving(ram, file, events, i + 1, s', view', log + obs, states + [s'], views + [view'], seen + [obs])
  {
    hide Inv, Agrees, Started, Leaked, Happens, IsRun, Budgeted, AllInvariant, Concat, Ending;
    HappensAgrees(s, view, events[i], s', view', obs, log);
    HappensKeeps(s, view, events[i], s', view', obs);
    assert events[..i] + [events[i]] == events[..i + 1];
    RunMore(events[..i], states, views, seen, events[i], s', view', obs);
    InvBudgeted(s', view');
    InvariantMore(states, views, s', view');
    ConcatMore(seen, obs);
  }

  lemma {:induction false} ServingEnd(ram: Ram, file: seq<Byte>, events: seq<Event>, i: nat, s: Pager, view: View,
      log: seq<Observed>, states: seq<Pager>, views: seq<View>, seen: seq<seq<Observed>>)
    requires Serving(ram, file, events, i, s, view, log, states, views, seen) && i == |events|
    ensures IsRun(events, states, views, seen) && |states| == |events| + 1 && |views| == |events| + 1
    ensures states[0] == Started(ram, file) && views[0] == map[] && s == states[|events|] && log == Concat(seen)
    ensures AllInvariant(states, views) && Consistent(log)
    ensures Leaked(s) >= 0 && ((forall j :: 0 <= j < |events| ==> !Ending(events[j])) ==> Leaked(s) == 0)
  {
    hide Agrees, Started, Leaked, IsRun, AllInvariant, Consistent;
    assert events[..i] == events;
    AgreesConsistent(log, view);
  }

  lemma {:induction false} RunNone(s: Pager, view: View)
    ensures IsRun([], [s], [view], [])
  {
  }

  lemma {:induction false} StartedBudget(ram: Ram, file: seq<Byte>)
    ensures Started(ram, file).total == FRAME_ALLOC_LIMIT && Leaked(Started(ram, file)) == 0
  {
  }

  lemma {:induction false} AgreesConsistent(log: seq<Observed>, view: View)
    requires Agrees(log, view)
    ensures Consistent(log)
  {
  }

  /** The budget equation, and what follows from it: the budget is never overdrawn, a victim
      exists whenever one is wanted, and no two resident pages share a frame. */
  lemma {:induction false} CoreBudget(s: Pager, view: View)
    requires Inv(s, view)
    ensures s.allocLimit >= 0
    ensures s.allocLimit + |s.alloced| + (if |s.requests| > 0 && s.requests[0].Swapout? then 1 else 0) == s.total
    ensures forall v, w :: v in s.alloced && w in s.alloced && v != w ==>
      v in s.pt && w in s.pt && s.pt[v].addr != s.pt[w].addr
    ensures forall vp :: vp in s.alloced <==> vp in s.pt && Resident(s.pt[vp])
  {
    hide Inv;
    InvCore(s, view);
  }

  /** Some answer would start a swap-out: the one that is due ends a swap-out or a load, and the
      request that can be started then has no frame, no slot and no budget. */
  ghost predicate Blocked(s: Pager) {
    NeedsSlot(s) || LoadNeedsSlot(s, false)
  }

  /** Every request is served: with answers from the file system and no new faults the queue
      empties, and the waiting processes are answered once each, in the order they came.  Only
      a swap file that fills up can stop this. */
  method Drain(s: Pager, ghost view: View, choices: nat -> nat) returns (s': Pager, ghost view': View)
    requires Inv(s, view)
    ensures Inv(s', view') && Extends(view, view')
    ensures (s'.requests == [] && s'.replies == s.replies + Pids(s.requests)) || (|s'.disk.slots| == 0 && Blocked(s'))
  {
    hide Inv, Rank, Core, Settles, Starves;
    s', view' := s, view;
    var i := 0;
    while |s'.requests| > 0 && (AnswerNeedsSlot(s', choices(i)) ==> |s'.disk.slots| > 0)
      invariant Inv(s', view') && Extends(view, view') && InOrder(s, s')
      decreases Rank(s')
    {
      s', view' := VfsHandler(s', view', choices(i));
      i := i + 1;
    }
  }

  /** The state of the pager thread, changed in place by each message. */
  class VirtualPager {
    var state: Pager
    ghost var view: View
    ghost var log: seq<Observed>

    ghost predicate Valid()
      reads this
    {
      Inv(state, view) && Agrees(log, view)
    }

    constructor (ram: Ram, file: seq<Byte>)
      requires Unique(ram.free) && (forall f :: f in ram.free ==> f in ram.mem)
      requires (forall f :: f in ram.mem ==> f != 0 && |ram.mem[f]| == PAGESIZE)
      requires |ram.free| > FRAME_ALLOC_LIMIT && |file| == SWAPSIZE * PAGESIZE
      ensures Valid() && log == [] && state == Started(ram, file)
    {
      var s := PagerInit(ram, file);
      state, view, log := s, map[], [];
      StartedInv(ram, file);
    }

    /** Handle one message; what the processes have observed stays consistent. */
    method Handle(e: Event) returns (obs: seq<Observed>)
      requires Valid()
      modifies this
      ensures Valid() && Happens(old(state), old(view), e, state, view, obs)
      ensures log == old(log) + obs && Consistent(log)
    {
      hide Inv, Agrees, Happens;
      var s';
      ghost var view';
      s', view', obs := Dispatch(state, view, e);
      HappensAgrees(state, view, e, s', view', obs, log);
      state, view, log := s', view', log + obs;
      AgreesConsistent(log, view);
    }
  }
}
