/** The continuations run on each answer of the file system. */
module PagerContinue {
  import opened Options
  import opened SeqUtil
  import opened Words
  import opened PagerState
  import opened PagerLemmas
  import opened PagerQueue
  import opened PagerClock
  import opened PagerStart
  import opened PagerFinish

  /** The file system can do what it is asked: reads and writes stay inside the slot. */
  lemma {:induction false} CanAnswer(s: Pager, view: View)
    requires Inv(s, view) && |s.requests| > 0
    ensures s.disk.io.SeekIo? || s.disk.io.ReadIo? || s.disk.io.WriteIo? || s.disk.io.CloseIo? ==>
      s.disk.io.fd == s.disk.handle
    ensures s.disk.io.ReadIo? ==> 0 < s.disk.io.n && s.disk.fp + s.disk.io.n <= |s.disk.file|
    ensures s.disk.io.WriteIo? ==> s.disk.fp + |s.disk.io.data| <= |s.disk.file|
  {
    hide Core;
  }

  /** The answer is the last that the request waits for: the file is closed, or a load has failed. */
  ghost predicate Last(r: Request, choice: nat) {
    match r
    case Swapin(_, stage, _) => stage == SWAPIN_CLOSE
    case Swapout(_, _, _, stage, _) => stage == SWAPOUT_CLOSE
    case Elfload(_, stage) => stage == ELFLOAD_CLOSE || choice == 0
  }

  /** How a request goes on after any other answer: a page is read as the file system gives it out, and
      written in the largest pieces it takes. */
  ghost function NextOf(r: Request, choice: nat): Request {
    match r
    case Swapin(vp, stage, offset) =>
      if stage == SWAPIN_OPEN then Swapin(vp, SWAPIN_LSEEK, 0)
      else if stage == SWAPIN_LSEEK || offset >= PAGESIZE then Swapin(vp, SWAPIN_READ, offset)
      else
        var o := offset + 1 + choice % Min(IO_MAX_BUFFER, PAGESIZE - offset);
        Swapin(vp, if o == PAGESIZE then SWAPIN_CLOSE else SWAPIN_READ, o)
    case Swapout(owner, frame, disk, stage, offset) =>
      if stage == SWAPOUT_OPEN then Swapout(owner, frame, disk, SWAPOUT_WRITE, 0)
      else if offset >= PAGESIZE then Swapout(owner, frame, disk, SWAPOUT_CLOSE, offset)
      else Swapout(owner, frame, disk, SWAPOUT_WRITE, offset + Min(IO_MAX_BUFFER, PAGESIZE - offset))
    case Elfload(parent, stage) => Elfload(parent, ElfNext(stage))
  }

  /** What an answer does to the request at the head.  After the last one the process that waits for it
      is answered, unless its page has been read and there is no frame for it: then a swap-out is put
      in front. */
  ghost predicate Advances(s: Pager, choice: nat, s': Pager)
    requires |s.requests| > 0
  {
    var r := s.requests[0];
    if !Last(r, choice) then s'.requests == s.requests[0 := NextOf(r, choice)] && s'.replies == s.replies
    else if r.Swapin? && s.allocLimit <= 0 then
      Opening(s') && s'.requests[1..] == s.requests && s'.replies == s.replies
    else |s'.replies| > |s.replies|
  }

  lemma {:induction false} AdvancesNext(s: Pager, choice: nat, s': Pager)
    requires |s.requests| > 0 && !Last(s.requests[0], choice) && s'.replies == s.replies
    requires s'.requests == s.requests[0 := NextOf(s.requests[0], choice)]
    ensures Advances(s, choice, s')
  {
  }

  lemma {:induction false} AdvancesLast(s: Pager, choice: nat, pid: Pid, s': Pager)
    requires |s.requests| > 0 && Last(s.requests[0], choice) && s.replies + [pid] <= s'.replies
    requires s.requests[0].Swapin? ==> s.allocLimit > 0
    ensures Advances(s, choice, s')
  {
  }

  /** The head moves on to another stage of its swap-in. */
  lemma {:induction false} SwapinStep(s: Pager, s': Pager, view: View, r: Request)
    requires Inv(s, view) && |s.requests| > 0 && s.requests[0].Swapin? && r.Swapin? && r.vp == s.requests[0].vp
    requires s' == s.(requests := s.requests[0 := r], disk := s'.disk, ram := s'.ram)
    requires s'.disk.swapped == s.disk.swapped
    requires Core(s', view, None, None) && SwapinAt(s', r.vp, r.stage, r.offset)
    ensures Step(s, view, s', view) && |Pids(s'.requests)| == |Pids(s.requests)|
  {
    hide Core, Pids, AllWaiting, Unique, SwapinAt, Clocked;
    ClockedStage(s, s', r);
    StageKeeps(s, s', r);
    WantedStage(s.requests, r);
    SettlesSame(s, s');
  }

  /** The bytes read so far are followed by those just read. */
  lemma {:induction false} FilledMore(page: Page, slot: Page, offset: nat, n: nat)
    requires |page| == |slot| && offset + n <= |page| && page[..offset] == slot[..offset]
    ensures Written(page, offset, slot[offset..offset + n])[..offset + n] == slot[..offset + n]
    ensures offset + n == |page| ==> Written(page, offset, slot[offset..offset + n]) == slot
  {
    var r := Written(page, offset, slot[offset..offset + n]);
    assert slot[..offset + n] == slot[..offset] + slot[offset..offset + n];
    assert r[..offset + n] == page[..offset] + slot[offset..offset + n];
  }

  /** Some bytes have been read: into the pin with them, and read on or close the file. */
  method SwapinRead(s: Pager, ghost view: View, disk: Disk, rval: nat, buffer: seq<Byte>) returns (s': Pager)
    requires Inv(s, view) && |s.requests| > 0 && s.requests[0].Swapin? && s.requests[0].stage == SWAPIN_READ
    requires disk == s.disk.(io := NoIo, fp := s.disk.fp + rval) && 0 < rval <= s.disk.io.n
    requires s.disk.fp + rval <= |s.disk.file| && buffer == s.disk.file[s.disk.fp..s.disk.fp + rval]
    ensures Step(s, view, s', view) && Rank(s') < Rank(s) && s'.disk.slots == s.disk.slots
    ensures s'.replies == s.replies
    ensures var vp, o := s.requests[0].vp, s.requests[0].offset + rval;
      s'.requests == s.requests[0 := Swapin(vp, if o == PAGESIZE then SWAPIN_CLOSE else SWAPIN_READ, o)]
  {
    hide Core, Pids, AllWaiting, Unique, Step, Written, Settles, Wanted, Here;
    var d, vp, offset, page := disk, s.requests[0].vp, s.requests[0].offset, FrameAt(s.ram, s.pinned);
    FilledMore(page, SlotAt(s.disk.file, s.pt[vp].addr), offset, rval);
    SlotPart(s.disk.file, s.pt[vp].addr, offset, rval);
    CoreFill(s, view, Written(page, offset, buffer));
    var s1 := s.(ram := s.ram.(mem := s.ram.mem[s.pinned := Written(page, offset, buffer)]));
    offset := offset + rval;
    if offset == PAGESIZE {
      d := d.(io := CloseIo(d.fd), fd := NIL_FILE);
      s' := s1.(requests := s.requests[0 := Swapin(vp, SWAPIN_CLOSE, offset)], disk := d);
    } else {
      d := d.(io := ReadIo(d.fd, Min(IO_MAX_BUFFER, PAGESIZE - offset)));
      s' := s1.(requests := s.requests[0 := Swapin(vp, SWAPIN_READ, offset)], disk := d);
    }
    CoreSame(s1, s', view, None, None);
    SwapinStep(s, s', view, s'.requests[0]);
  }

  method ContinueSwapin(s: Pager, ghost view: View, choice: nat) returns (s': Pager, ghost view': View)
    requires Inv(s, view) && |s.requests| > 0 && s.requests[0].Swapin?
    ensures Step(s, view, s', view') && Rank(s') < Rank(s) && s'.disk.slots == SlotsAfter(s, choice)
    ensures Advances(s, choice, s')
  {
    hide Core, Pids, AllWaiting, Unique, Step, Settles, Wanted, Here;
    CanAnswer(s, view);
    var d, rval, buffer := Answer(s.disk, choice);
    var vp, offset := s.requests[0].vp, s.requests[0].offset;
    view' := view;
    match s.requests[0].stage {
      case SWAPIN_OPEN =>
        d := d.(fd := rval, io := SeekIo(rval, s.pt[vp].addr));
        s' := s.(requests := s.requests[0 := Swapin(vp, SWAPIN_LSEEK, 0)], disk := d);
        CoreSame(s, s', view, None, None);
        SwapinStep(s, s', view, s'.requests[0]);
      case SWAPIN_LSEEK =>
        d := d.(io := ReadIo(d.fd, Min(IO_MAX_BUFFER, PAGESIZE - offset)));
        s' := s.(requests := s.requests[0 := Swapin(vp, SWAPIN_READ, offset)], disk := d);
        CoreSame(s, s', view, None, None);
        PinSize(s, view, vp);
        SwapinStep(s, s', view, s'.requests[0]);
      case SWAPIN_READ =>
        s' := SwapinRead(s, view, d, rval, buffer);
      case SWAPIN_CLOSE =>
        ghost var s1 := s.(disk := d);
        CoreSame(s, s1, view, None, None);
        WaitingShrinks(s, s1, s.requests);
        s', view' := FinishSwapin(s.(disk := d), view);
        SwapinDone(s, s1, view, s', view');
    }
  }

  lemma {:induction false} SwapinDone(s: Pager, s1: Pager, view: View, s': Pager, view': View)
    requires |s.requests| > 0 && s.requests[0].Swapin? && s.requests[0].stage == SWAPIN_CLOSE
    requires s1 == s.(disk := s1.disk) && s1.disk.swapped == s.disk.swapped
    requires Step(s1, view, s', view')
    requires |Pids(s'.requests)| < |Pids(s1.requests)| || (|s'.requests| > 0 && s'.requests[0].Swapout?)
    ensures Step(s, view, s', view') && Rank(s') < Rank(s)
  {
    hide Inv, Pids, Clocked, ClockOf;
    ClockIs(s, s1);
    ClockedSame(s, s1, s');
  }

  lemma {:induction false} PinSize(s: Pager, view: View, vp: Vpage)
    requires Core(s, view, None, None) && s.pinned != 0 && vp in s.pt && s.pt[vp].swap
    ensures |FrameAt(s.ram, s.pinned)| == PAGESIZE && |SlotAt(s.disk.file, s.pt[vp].addr)| == PAGESIZE
  {
    assert s.pinned == Held(s.pinned, None)[0];
    assert (vp.pid, s.pt[vp].addr) in s.disk.swapped;
    assert IsSlot(s.pt[vp].addr);
  }

  lemma {:induction false} SlotPart(file: seq<Byte>, a: nat, offset: nat, n: nat)
    requires a + PAGESIZE <= |file| && offset + n <= PAGESIZE
    ensures SlotAt(file, a)[offset..offset + n] == file[a + offset..a + offset + n]
  {
    var part, there := SlotAt(file, a)[offset..offset + n], file[a + offset..a + offset + n];
    forall i | 0 <= i < n ensures part[i] == there[i] {
      assert part[i] == SlotAt(file, a)[offset + i];
    }
  }

  // ---------------------------------------------------------------- swap-out

  lemma {:induction false} SwapoutStep(s: Pager, s': Pager, view: View, r: Request)
    requires Inv(s, view) && |s.requests| > 0 && s.requests[0].Swapout?
    requires r.Swapout? && r.frame == s.requests[0].frame && r.disk == s.requests[0].disk && r.stage != SWAPOUT_OPEN
    requires s' == s.(requests := s.requests[0 := r], disk := s'.disk) && s'.disk.swapped == s.disk.swapped
    requires Core(s', view, Some(Out(r.frame, r.disk)), LimboOf(s)) && SwapoutAt(s', r.frame, r.disk, r.stage, r.offset)
    ensures Step(s, view, s', view) && |Pids(s'.requests)| == |Pids(s.requests)|
  {
    hide Core, Pids, AllWaiting, Unique, SwapoutAt, Clocked;
    ClockedStage(s, s', r);
    PidsOne(r);
    PidsOne(s.requests[0]);
    PidsSame(s.requests, r);
    assert s'.requests[1..] == s.requests[1..];
    WaitingShrinks(s, s', s.requests[1..]);
    WantedStage(s.requests, r);
    StageSettles(s, s', r);
  }

  lemma {:induction false} StageSettles(s: Pager, s': Pager, r: Request)
    requires s'.pt == s.pt
    requires forall i :: 0 <= i < |s.requests| && s.requests[i].Swapin? ==> Wanted(s'.requests, s.requests[i].vp)
    ensures Settles(s, s')
  {
  }

  /** After the answer the slot holds everything handed to the file system so far. */
  lemma {:induction false} SlotGrows(file: seq<Byte>, a: nat, page: Page, offset: nat, data: seq<Byte>)
    requires IsSlot(a) && |file| == SWAPSIZE * PAGESIZE && |page| == PAGESIZE && |data| <= offset <= PAGESIZE
    requires data == page[offset - |data|..offset] && SlotAt(file, a)[..offset - |data|] == page[..offset - |data|]
    ensures a + offset <= |file|
    ensures var f' := Written(file, a + offset - |data|, data);
      |SlotAt(f', a)| == PAGESIZE && SlotAt(f', a)[..offset] == page[..offset]
  {
    hide Written, SlotAt, IsSlot;
    WriteInside(file, a, offset - |data|, data);
    assert page[..offset] == page[..offset - |data|] + data;
  }

  /** What the slot holds once the file system has answered a write or the seek before it */
  lemma {:induction false} WroteSoFar(s: Pager, view: View, d: Disk)
    requires Inv(s, view) && |s.requests| > 0 && s.requests[0].Swapout? && s.requests[0].stage == SWAPOUT_WRITE
    requires d == s.disk.(io := NoIo, fp := d.fp, file := d.file)
    requires s.disk.io.SeekIo? ==> d.fp == s.disk.io.pos && d.file == s.disk.file
    requires s.disk.io.WriteIo? ==> s.disk.fp + |s.disk.io.data| <= |s.disk.file|
    requires s.disk.io.WriteIo? ==> d.file == Written(s.disk.file, s.disk.fp, s.disk.io.data)
    requires s.disk.io.WriteIo? ==> d.fp == s.disk.fp + |s.disk.io.data|
    ensures var r, page := s.requests[0], FrameAt(s.ram, s.requests[0].frame);
      && Core(s.(disk := d), view, Some(Out(r.frame, r.disk)), LimboOf(s))
      && r.offset <= PAGESIZE && |page| == PAGESIZE && |SlotAt(d.file, r.disk)| == PAGESIZE
      && d.fp == r.disk + r.offset && SlotAt(d.file, r.disk)[..r.offset] == page[..r.offset]
  {
    hide Core, Pids, AllWaiting, Unique;
    var r := s.requests[0];
    var limbo := LimboOf(s);
    CoreFile(s, view, r.frame, r.disk, limbo, r.disk, []);
    FileSize(s, view, Some(Out(r.frame, r.disk)), limbo);
    if s.disk.io.WriteIo? {
      var data := s.disk.io.data;
      SlotGrows(s.disk.file, r.disk, FrameAt(s.ram, r.frame), r.offset, data);
      CoreFile(s, view, r.frame, r.disk, limbo, s.disk.fp, data);
      CoreSame(s.(disk := s.disk.(file := d.file)), s.(disk := d), view, Some(Out(r.frame, r.disk)), limbo);
    } else {
      CoreSame(s, s.(disk := d), view, Some(Out(r.frame, r.disk)), limbo);
    }
  }

  lemma {:induction false} FileSize(s: Pager, view: View, out: Option<Out>, limbo: Option<Vpage>)
    requires Core(s, view, out, limbo)
    ensures |s.disk.file| == SWAPSIZE * PAGESIZE
  {
  }

  /** The next answer ends a swap-out, and starting what comes then needs a swap-out.  (The end of a
      swap-in frees the slot that a swap-out would take.) */
  predicate NeedsSlot(s: Pager) {
    && |s.requests| > 1 && s.requests[0].Swapout? && s.requests[0].stage == SWAPOUT_CLOSE
    && Starves(s.pt, s.requests[2..], s.allocLimit)
  }

  /** The answer, good or bad, ends a load, and starting what comes then needs a swap-out. */
  predicate LoadNeedsSlot(s: Pager, good: bool) {
    && |s.requests| > 0 && s.requests[0].Elfload? && (!good || s.requests[0].stage == ELFLOAD_CLOSE)
    && Starves(s.pt, s.requests[1..], s.allocLimit)
  }

  predicate AnswerNeedsSlot(s: Pager, choice: nat) {
    NeedsSlot(s) || LoadNeedsSlot(s, choice > 0)
  }

  /** The free slots after an answer: the end of a swap-in gives its slot back, first to be used again,
      and a swap-out takes the first. */
  ghost function SlotsAfter(s: Pager, choice: nat): seq<nat>
    requires |s.requests| > 0
  {
    var r := s.requests[0];
    if r.Swapin? && r.stage == SWAPIN_CLOSE then
      Left([Lookup(s.pt, r.vp).addr / PAGESIZE] + s.disk.slots,
           s.allocLimit <= 0 || Starves(s.pt, s.requests[1..], s.allocLimit - 1))
    else Left(s.disk.slots, AnswerNeedsSlot(s, choice))
  }

  /** A page never touched before that had to wait for a swap-out is filled with zeros. */
  ghost predicate ZeroFilled(s: Pager, view': View) {
    |s.requests| > 1 && s.requests[0].Swapout? && s.requests[0].stage == SWAPOUT_CLOSE && s.requests[1].Swapin? &&
    s.pinned == 0 ==>
      s.requests[1].vp in view' && view'[s.requests[1].vp] == seq(PAGESIZE, _ => 0)
  }

  lemma {:induction false} OutNext(r: Request, choice: nat)
    requires r.Swapout?
    ensures NextOf(r, choice) ==
            if r.stage == SWAPOUT_OPEN then Swapout(r.owner, r.frame, r.disk, SWAPOUT_WRITE, 0)
            else if r.offset >= PAGESIZE then Swapout(r.owner, r.frame, r.disk, SWAPOUT_CLOSE, r.offset)
            else Swapout(r.owner, r.frame, r.disk, SWAPOUT_WRITE, r.offset + Min(IO_MAX_BUFFER, PAGESIZE - r.offset))
  {
  }

  /** Some bytes have been written, or the place has been sought: write on, or close the file. */
  method SwapoutWrite(s: Pager, ghost view: View, disk: Disk) returns (s': Pager)
    requires Inv(s, view) && |s.requests| > 0 && s.requests[0].Swapout? && s.requests[0].stage == SWAPOUT_WRITE
    requires disk == s.disk.(io := NoIo, fp := disk.fp, file := disk.file)
    requires s.disk.io.SeekIo? ==> disk.fp == s.disk.io.pos && disk.file == s.disk.file
    requires s.disk.io.WriteIo? ==> s.disk.fp + |s.disk.io.data| <= |s.disk.file|
    requires s.disk.io.WriteIo? ==> disk.file == Written(s.disk.file, s.disk.fp, s.disk.io.data)
    requires s.disk.io.WriteIo? ==> disk.fp == s.disk.fp + |s.disk.io.data|
    ensures Step(s, view, s', view) && Rank(s') < Rank(s) && s'.disk.slots == s.disk.slots && s'.replies == s.replies
    ensures s.requests[0].offset <= PAGESIZE
    ensures var r := s.requests[0];
      var stage, size := if r.offset == PAGESIZE then SWAPOUT_CLOSE else SWAPOUT_WRITE,
          if r.offset == PAGESIZE then 0 else Min(IO_MAX_BUFFER, PAGESIZE - r.offset);
      s'.requests == s.requests[0 := Swapout(r.owner, r.frame, r.disk, stage, r.offset + size)]
  {
    hide Core, Pids, AllWaiting, Unique, Step, Settles, Wanted, Here;
    var d, r := disk, s.requests[0];
    WroteSoFar(s, view, d);
    ghost var s1 := s.(disk := d);
    if r.offset == PAGESIZE {
      d := d.(io := CloseIo(d.fd), fd := NIL_FILE);
      s' := s.(requests := s.requests[0 := Swapout(r.owner, r.frame, r.disk, SWAPOUT_CLOSE, r.offset)], disk := d);
    } else {
      var size := Min(IO_MAX_BUFFER, PAGESIZE - r.offset);
      d := d.(io := WriteIo(d.fd, FrameAt(s.ram, r.frame)[r.offset..r.offset + size]));
      s' := s.(requests := s.requests[0 := Swapout(r.owner, r.frame, r.disk, SWAPOUT_WRITE, r.offset + size)],
               disk := d);
    }
    CoreSame(s1, s', view, OutOf(s), LimboOf(s));
    WriteStage(s, s', d, r);
    SwapoutStep(s, s', view, s'.requests[0]);
  }

  method ContinueSwapout(s: Pager, ghost view: View, choice: nat) returns (s': Pager, ghost view': View)
    requires Inv(s, view) && |s.requests| > 0 && s.requests[0].Swapout? && (NeedsSlot(s) ==> |s.disk.slots| > 0)
    ensures Step(s, view, s', view') && Rank(s') < Rank(s)
    ensures s'.disk.slots == Left(s.disk.slots, NeedsSlot(s)) && Advances(s, choice, s') && ZeroFilled(s, view')
  {
    hide Core, Pids, AllWaiting, Unique, Step, Settles, Wanted, Here, Starves, Advances, NextOf, FrameAt, SlotAt;
    CanAnswer(s, view);
    var d, rval, buffer := Answer(s.disk, choice);
    var r := s.requests[0];
    OutNext(r, choice);
    view' := view;
    match r.stage {
      case SWAPOUT_OPEN =>
        d := d.(fd := rval, io := SeekIo(rval, r.disk));
        s' := s.(requests := s.requests[0 := Swapout(r.owner, r.frame, r.disk, SWAPOUT_WRITE, 0)], disk := d);
        CoreSame(s, s', view, OutOf(s), LimboOf(s));
        OutSize(s, view, r.frame, r.disk);
        SwapoutStep(s, s', view, s'.requests[0]);
        AdvancesNext(s, choice, s');
      case SWAPOUT_WRITE =>
        s' := SwapoutWrite(s, view, d);
        AdvancesNext(s, choice, s');
      case SWAPOUT_CLOSE =>
        ghost var s1 := s.(disk := d);
        CoreSame(s, s1, view, OutOf(s), LimboOf(s));
        WaitingShrinks(s, s1, s.requests[1..]);
        s', view' := FinishSwapout(s.(disk := d), view);
        SwapoutDone(s, s1, view, s', view');
        AdvancesLast(s, choice, s.requests[1].vp.pid, s');
    }
  }

  lemma {:induction false} WriteStage(s: Pager, s': Pager, d: Disk, r: Request)
    requires |s.requests| > 0 && r == s.requests[0] && r.Swapout? && s'.disk == d
    requires d.handle != NIL_FILE && d.fd == (if r.offset == PAGESIZE then NIL_FILE else d.handle) && s'.ram == s.ram
    requires var page := FrameAt(s.ram, r.frame);
      && r.offset <= PAGESIZE && |page| == PAGESIZE && |SlotAt(d.file, r.disk)| == PAGESIZE
      && d.fp == r.disk + r.offset && SlotAt(d.file, r.disk)[..r.offset] == page[..r.offset]
      && |s'.requests| > 0
      && if r.offset == PAGESIZE then
           d.io == CloseIo(d.handle) && s'.requests[0] == Swapout(r.owner, r.frame, r.disk, SWAPOUT_CLOSE, r.offset)
         else var size := Min(IO_MAX_BUFFER, PAGESIZE - r.offset);
           && d.io == WriteIo(d.handle, page[r.offset..r.offset + size])
           && s'.requests[0] == Swapout(r.owner, r.frame, r.disk, SWAPOUT_WRITE, r.offset + size)
    ensures SwapoutAt(s', r.frame, r.disk, s'.requests[0].stage, s'.requests[0].offset)
  {
    var page := FrameAt(s.ram, r.frame);
    assert r.offset == PAGESIZE ==> page[..r.offset] == page;
    assert r.offset == PAGESIZE ==> SlotAt(d.file, r.disk)[..r.offset] == SlotAt(d.file, r.disk);
  }

  lemma {:induction false} OutSize(s: Pager, view: View, f: Frame, a: nat)
    requires Core(s, view, Some(Out(f, a)), LimboOf(s))
    ensures |FrameAt(s.ram, f)| == PAGESIZE && |SlotAt(s.disk.file, a)| == PAGESIZE
  {
    var held := Held(s.pinned, Some(Out(f, a)));
    assert held[0] == f;
    assert IsSlot(a);
  }

  lemma {:induction false} SwapoutDone(s: Pager, s1: Pager, view: View, s': Pager, view': View)
    requires |s.requests| > 0 && s1 == s.(disk := s1.disk) && s1.disk.swapped == s.disk.swapped
    requires Step(s1, view, s', view') && |Pids(s'.requests)| < |Pids(s1.requests)|
    ensures Step(s, view, s', view') && Rank(s') < Rank(s)
  {
    hide Inv, Pids, Clocked, ClockOf;
    ClockIs(s, s1);
    ClockedSame(s, s1, s');
    RankFewer(s, s');
  }

  // ---------------------------------------------------------------- ELF loads

  /** An ELF load: open the file, look at its mode, read its header, close it.  A bad answer on the
      way ends it early; in any case the process that asked is answered once. */
  method ContinueElfload(s: Pager, ghost view: View, good: bool) returns (s': Pager, ghost view': View)
    requires Inv(s, view) && |s.requests| > 0 && s.requests[0].Elfload?
    requires (LoadNeedsSlot(s, good) ==> |s.disk.slots| > 0)
    ensures Step(s, view, s', view') && Rank(s') < Rank(s)
    ensures s'.disk.slots == Left(s.disk.slots, LoadNeedsSlot(s, good))
    ensures var r := s.requests[0];
      if good && r.stage != ELFLOAD_CLOSE then
        s' == s.(requests := s.requests[0 := Elfload(r.parent, ElfNext(r.stage))],
                 disk := s.disk.(io := ElfIo(ElfNext(r.stage))))
      else s.replies + [r.parent] <= s'.replies
  {
    var r := s.requests[0];
    view' := view;
    if good && r.stage != ELFLOAD_CLOSE {
      var next := match r.stage
        case ELFLOAD_OPEN => ELFLOAD_CHECK_EXEC
        case ELFLOAD_CHECK_EXEC => ELFLOAD_READ_HEADER
        case _ => ELFLOAD_CLOSE;
      s' := s.(requests := s.requests[0 := Elfload(r.parent, next)], disk := s.disk.(io := ElfIo(next)));
      ElfStep(s, s', view);
    } else {
      s', view' := FinishElfload(s, view);
    }
  }

  ghost function ElfNext(stage: Stage): Stage {
    if stage == ELFLOAD_OPEN then ELFLOAD_CHECK_EXEC
    else if stage == ELFLOAD_CHECK_EXEC then ELFLOAD_READ_HEADER
    else ELFLOAD_CLOSE
  }

  lemma {:induction false} ElfStep(s: Pager, s': Pager, view: View)
    requires Inv(s, view) && |s.requests| > 0 && s.requests[0].Elfload? && s.requests[0].stage != ELFLOAD_CLOSE
    requires var next := ElfNext(s.requests[0].stage);
      s' == s.(requests := s.requests[0 := Elfload(s.requests[0].parent, next)], disk := s.disk.(io := ElfIo(next)))
    ensures Step(s, view, s', view) && Rank(s') < Rank(s)
  {
    hide Core, Pids, Unique, Clocked;
    var r := s'.requests[0];
    ClockedStage(s, s', r);
    CoreSame(s, s', view, None, None);
    PidsOne(r);
    PidsOne(s.requests[0]);
    PidsSame(s.requests, r);
    assert IsElfStage(s.requests[0].stage) by {
      assert Waiting(s, s.requests[0]);
    }
    forall i | 0 <= i < |s'.requests| ensures Waiting(s', s'.requests[i]) {
      assert Waiting(s, s.requests[i]);
    }
    WantedStage(s.requests, r);
    StageSettles(s, s', r);
  }

  /** finishElfload: answer the process that asked and go on with the queue. */
  method FinishElfload(s: Pager, ghost view: View) returns (s': Pager, ghost view': View)
    requires Inv(s, view) && |s.requests| > 0 && s.requests[0].Elfload?
    requires Starves(s.pt, s.requests[1..], s.allocLimit) ==> |s.disk.slots| > 0
    ensures Step(s, view, s', view') && Rank(s') < Rank(s) && s.replies + [s.requests[0].parent] <= s'.replies
    ensures s'.disk.slots == Left(s.disk.slots, Starves(s.pt, s.requests[1..], s.allocLimit))
  {
    hide Core, Pids, AllWaiting, Unique, Settles, Wanted, Here, Clocked, Serves, ClockOf, Starves;
    s' := s.(disk := s.disk.(io := NoIo), replies := s.replies + [s.requests[0].parent]);
    ghost var s1 := s'.(active := false, requests := s.requests[1..]);
    CoreSame(s, s1, view, None, None);
    PidsServe(s.requests);
    WaitingRest(s, s1);
    ghost var s3 := s'.(requests := s.requests[1..]);
    ClockIs(s, s');
    s', view' := DequeueRequest(s', view);
    LoadSettles(s, s3, s');
    HeadClocked(s, None, ClockOf(s), s');
    RankFewer(s, s');
  }

  lemma {:induction false} LoadSettles(s: Pager, s3: Pager, s': Pager)
    requires |s.requests| > 0 && s.requests[0].Elfload? && s3.requests == s.requests[1..] && s3.pt == s.pt
    requires Settles(s3, s')
    ensures Settles(s, s')
  {
    hide Here;
    forall vp | Wanted(s.requests, vp) ensures Wanted(s'.requests, vp) || Here(s', vp) {
      WantedRest(s.requests, vp);
    }
  }

  /** vfsHandler: the file system has answered; the request at the head goes on.  Slots are used up just
      by the answers that are said to need one. */
  method VfsHandler(s: Pager, ghost view: View, choice: nat) returns (s': Pager, ghost view': View)
    requires Inv(s, view) && |s.requests| > 0 && (AnswerNeedsSlot(s, choice) ==> |s.disk.slots| > 0)
    ensures Step(s, view, s', view') && Rank(s') < Rank(s)
    ensures s'.disk.slots == SlotsAfter(s, choice) && (AnswerNeedsSlot(s, choice) <==> |s'.disk.slots| < |s.disk.slots|)
    ensures Advances(s, choice, s') && ZeroFilled(s, view')
  {
    hide Core, Pids, Inv, Step, Rank, Settles, Wanted, Here, Starves, Advances;
    if s.requests[0].Swapout? {
      s', view' := ContinueSwapout(s, view, choice);
    } else if s.requests[0].Swapin? {
      s', view' := ContinueSwapin(s, view, choice);
    } else {
      s', view' := ContinueElfload(s, view, choice > 0);
      if choice > 0 && s.requests[0].stage != ELFLOAD_CLOSE {
        AdvancesNext(s, choice, s');
      } else {
        AdvancesLast(s, choice, s.requests[0].parent, s');
      }
    }
  }
}
