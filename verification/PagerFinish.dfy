/** Advancing the request at the head of the queue with each answer of the file system. */
module PagerFinish {
  import opened Options
  import opened SeqUtil
  import opened Words
  import opened PagerState
  import opened PagerLemmas
  import opened PagerQueue
  import opened PagerClock
  import opened PagerStart

  // ---------------------------------------------------------------- the file system

  /** The file system carries out what it was asked for, on the descriptor it has given out.  An open
      yields some descriptor, a read yields between one and all of the bytes asked for, a write
      writes everything. */
  method Answer(d: Disk, choice: nat) returns (d': Disk, rval: nat, buffer: seq<Byte>)
    requires d.io.SeekIo? || d.io.ReadIo? || d.io.WriteIo? || d.io.CloseIo? ==> d.io.fd == d.handle
    requires d.io.ReadIo? ==> 0 < d.io.n && d.fp + d.io.n <= |d.file|
    requires d.io.WriteIo? ==> d.fp + |d.io.data| <= |d.file|
    ensures d' == d.(io := NoIo, fp := d'.fp, file := d'.file, handle := d'.handle)
    ensures d'.handle == if d.io.OpenIo? then rval else if d.io.CloseIo? then NIL_FILE else d.handle
    ensures rval == if d.io.ReadIo? then 1 + choice % d.io.n else choice
    ensures d.io.SeekIo? ==> d'.fp == d.io.pos && d'.file == d.file
    ensures d.io.ReadIo? ==>
      0 < rval <= d.io.n && buffer == d.file[d.fp..d.fp + rval] && d'.fp == d.fp + rval && d'.file == d.file
    ensures d.io.WriteIo? ==> d'.file == Written(d.file, d.fp, d.io.data) && d'.fp == d.fp + |d.io.data|
    ensures d.io.NoIo? || d.io.OpenIo? || d.io.CloseIo? || d.io.ElfIo? ==> d'.file == d.file
  {
    d', rval, buffer := d.(io := NoIo), choice, [];
    match d.io {
      case OpenIo => d' := d'.(handle := rval);
      case CloseIo(_) => d' := d'.(handle := NIL_FILE);
      case SeekIo(_, pos) => d' := d'.(fp := pos);
      case ReadIo(_, n) =>
        rval := 1 + choice % n;
        buffer := d.file[d.fp..d.fp + rval];
        d' := d'.(fp := d.fp + rval);
      case WriteIo(_, data) => d' := d'.(file := Written(d.file, d.fp, data), fp := d.fp + |data|);
      case _ =>
    }
  }

  // ---------------------------------------------------------------- swap slots

  /** Take slots back: every listed pair of the process whose slot is `word`, or whose slot is
      the mark for "all".  No slot is that mark, so one slot or none is taken back. */
  method SwapslotsFree(d: Disk, pid: Pid, word: nat, ghost pt: map<Vpage, Entry>) returns (d': Disk)
    requires SlotsOk(pt, d)
    ensures (pid, word) !in d.swapped ==> d' == d
    ensures forall k :: 0 <= k < |d.swapped| && d.swapped[k] == (pid, word) ==>
      d' == d.(slots := [word / PAGESIZE] + d.slots, swapped := d.swapped[..k] + d.swapped[k + 1..])
  {
    hide SlotsOk;
    var kept: seq<(Pid, nat)>, slots: seq<nat>, i := [], d.slots, 0;
    ghost var found: int := -1;
    while i < |d.swapped|
      invariant 0 <= i <= |d.swapped| && -1 <= found < i
      invariant forall k :: 0 <= k < i && d.swapped[k] == (pid, word) ==> k == found
      invariant found == -1 ==> kept == d.swapped[..i] && slots == d.slots
      invariant found >= 0 ==> d.swapped[found] == (pid, word) && slots == [word / PAGESIZE] + d.slots
      invariant found >= 0 ==> kept == d.swapped[..found] + d.swapped[found + 1..i]
    {
      var (p, a) := d.swapped[i];
      SlotOnce(pt, d, found, i);
      SliceMore(d.swapped, if found >= 0 && found < i then found + 1 else 0, i);
      if p == pid && (a == word || a == ADDRESS_ALL) {
        slots := [a / PAGESIZE] + slots;
        found := i;
        assert d.swapped[found + 1..i + 1] == [];
      } else {
        kept := kept + [(p, a)];
      }
      i := i + 1;
    }
    assert d.swapped[..i] == d.swapped && (found >= 0 ==> d.swapped[found + 1..i] == d.swapped[found + 1..]);
    d' := d.(slots := slots, swapped := kept);
  }

  /** A slot is listed once, and none is the mark for "all". */
  lemma {:induction false} SlotOnce(pt: map<Vpage, Entry>, d: Disk, k: int, i: nat)
    requires SlotsOk(pt, d) && k < i < |d.swapped|
    ensures d.swapped[i].1 != ADDRESS_ALL && (k >= 0 ==> d.swapped[k].1 != d.swapped[i].1)
  {
    assert IsSlot(d.swapped[i].1);
  }

  // ---------------------------------------------------------------- finishing

  /** Everything a request at the head still has to do, in answers of the file system. */
  ghost function WorkLeft(r: Request): nat {
    match r
    case Elfload(_, stage) =>
      if stage == ELFLOAD_OPEN then 4 else if stage == ELFLOAD_CHECK_EXEC then 3
      else if stage == ELFLOAD_READ_HEADER then 2 else 1
    case Swapin(_, stage, offset) =>
      if stage == SWAPIN_OPEN then 15003 else if stage == SWAPIN_LSEEK then 15002
      else if stage == SWAPIN_READ && offset <= PAGESIZE then 10000 + PAGESIZE - offset else 9001
    case Swapout(_, _, _, stage, offset) =>
      if stage == SWAPOUT_OPEN then 9000
      else if stage == SWAPOUT_WRITE && offset <= PAGESIZE then 2 + PAGESIZE - offset else 1
  }

  ghost function Rank(s: Pager): nat {
    if |s.requests| == 0 then 0 else 20000 * |Pids(s.requests)| + WorkLeft(s.requests[0])
  }

  /** Whatever is started next, fewer waiting processes means less to do. */
  lemma {:induction false} RankFewer(s: Pager, s': Pager)
    requires |s.requests| > 0 && |Pids(s'.requests)| < |Pids(s.requests)|
    ensures Rank(s') < Rank(s)
  {
  }

  /** Take the served request off the queue and start the next one. */
  method DequeueRequest(s: Pager, ghost view: View) returns (s': Pager, ghost view': View)
    requires s.active && |s.requests| > 0 && Calm(s.(active := false, requests := s.requests[1..]), view)
    requires Starves(s.pt, s.requests[1..], s.allocLimit) ==> |s.disk.slots| > 0
    ensures Inv(s', view') && Extends(view, view') && Continues(s, s') && Settles(s.(requests := s.requests[1..]), s')
    ensures s'.replies + Pids(s'.requests) == s.replies + Pids(s.requests[1..])
    ensures Serves(ClockOf(s), |s.replies|, Goals(s.requests[1..]), s')
    ensures s'.disk.slots == Left(s.disk.slots, Starves(s.pt, s.requests[1..], s.allocLimit))
  {
    hide Core, Pids, AllWaiting, Unique, Settles, Wanted, Here, Serves, Clocked, ClockOf;
    s' := s.(active := false, requests := s.requests[1..]);
    view' := view;
    ghost var s1 := s';
    SameSettles(s.(requests := s.requests[1..]), s1);
    ClockIs(s, s1);
    if |s'.requests| > 0 {
      HeadIsSwapin(s1, view);
      s', view' := StartRequest(s', view);
      SettlesTrans(s.(requests := s.requests[1..]), s1, s');
      ClockedFrom(s1, s');
    } else {
      ServesDone(s1);
    }
  }

  /** The page is in its frame: give the pin back, answer the process, and go on. */
  lemma {:induction false} ServedCalm(s: Pager, view: View, s1: Pager, view1: View)
    requires |s.requests| > 0 && s.requests[0].Swapin? && AllWaiting(s, s.requests) && Unique(Pids(s.requests))
    requires Core(s1, view1, None, None) && s1.pinned == 0 && Shut(s1.disk)
    requires s1.requests == s.requests[1..] && s1.procs == s.procs
    requires forall v :: v != s.requests[0].vp && Resident(Lookup(s1.pt, v)) ==> Resident(Lookup(s.pt, v))
    ensures Calm(s1, view1) && Pids(s.requests) == [s.requests[0].vp.pid] + Pids(s1.requests)
    ensures s.requests[0].vp.pid !in Pids(s1.requests)
  {
    hide Core, Pids, Unique;
    PidsServe(s.requests);
    assert AllWaiting(s, s.requests[1..]) by {
      WaitingRest(s, s.(requests := s.requests[1..]));
    }
    WaitingKeeps(s, s1, s.requests[1..], s.requests[0].vp.pid);
  }

  /** Where the entry of the page at the head is on disk */
  lemma {:induction false} SlotListed(s: Pager, view: View, vp: Vpage) returns (k: nat)
    requires Core(s, view, None, None) && vp in s.pt && s.pt[vp].swap
    ensures k < |s.disk.swapped| && s.disk.swapped[k] == (vp.pid, s.pt[vp].addr)
    ensures SlotsOk(s.pt, s.disk) && vp.pid in s.procs && !s.pt[vp].refd
  {
    k :| 0 <= k < |s.disk.swapped| && s.disk.swapped[k] == (vp.pid, s.pt[vp].addr);
  }

  /** The page at the head has been read into the pin: release its slot, and give it a frame
      now if there is one, after a swap-out otherwise. */
  method FinishSwapin(s: Pager, ghost view: View) returns (s': Pager, ghost view': View)
    requires |s.requests| > 0 && s.requests[0].Swapin? && s.active && Lookup(s.pt, s.requests[0].vp).swap
    requires Core(s, view, None, None) && s.pinned != 0 && Shut(s.disk)
    requires FrameAt(s.ram, s.pinned) == SlotAt(s.disk.file, Lookup(s.pt, s.requests[0].vp).addr)
    requires AllWaiting(s, s.requests) && Unique(Pids(s.requests))
    ensures Step(s, view, s', view')
    ensures |Pids(s'.requests)| < |Pids(s.requests)| || (|s'.requests| > 0 && s'.requests[0].Swapout?)
    ensures s'.disk.slots == Left([Lookup(s.pt, s.requests[0].vp).addr / PAGESIZE] + s.disk.slots,
                                  s.allocLimit <= 0 || Starves(s.pt, s.requests[1..], s.allocLimit - 1))
    ensures if s.allocLimit > 0 then s.replies + [s.requests[0].vp.pid] <= s'.replies
            else Opening(s') && s'.requests[1..] == s.requests && s'.replies == s.replies
  {
    hide Core, Pids, AllWaiting, Unique, SlotsOk, Settles, Wanted, Here, Clocked, ClockOf, Sweep, Starves;
    var vp := s.requests[0].vp;
    ghost var k := SlotListed(s, view, vp);
    CoreRead(s, view, vp, k);
    var d := SwapslotsFree(s.disk, vp.pid, s.pt[vp].addr, s.pt);
    var s1 := s.(disk := d, pt := s.pt[vp := Entry(0, false, s.pt[vp].refd)]);
    assert s1 == s.(pt := s.pt[vp := ZERO], disk := d);
    LeakedOne(s1, s, vp);
    WaitingShrinks(s, s1, s.requests);
    view' := view;
    ZeroSettles(s, s1, vp);
    ZeroClock(s, s1, vp);
    PidsServe(s.requests);
    StarvesSame(s.pt, s1.pt, s.requests[1..], s.allocLimit - 1);
    if s.allocLimit > 0 {
      s', view' := FinishServe(s1, view);
    } else {
      BudgetFrame(s1, view, None, Some(vp));
      ghost var j;
      s', j := StartSwapout(s1, view);
    }
    SettlesTrans(s, s1, s');
    ClockedSame(s, s1, s');
  }

  lemma {:induction false} ZeroClock(s: Pager, s1: Pager, vp: Vpage)
    requires vp in s.pt && !s.pt[vp].refd && s1.pt == s.pt[vp := ZERO] && s1.requests == s.requests
    requires s1.alloced == s.alloced && s1.mapped == s.mapped && s1.replies == s.replies
    ensures SameClock(s, s1)
  {
    assert Refd(s1.pt) == Refd(s.pt);
  }

  lemma {:induction false} ZeroSettles(s: Pager, s1: Pager, vp: Vpage)
    requires s1.requests == s.requests && s1.pt == s.pt[vp := ZERO] && Lookup(s.pt, vp).swap
    ensures Settles(s, s1)
  {
  }

  /** Give the page at the head its frame, filled from the pin or with zeros; answer its
      process and go on with the queue. */
  method FinishServe(s: Pager, ghost view: View) returns (s': Pager, ghost view': View)
    requires Wanting(s, view) && s.allocLimit > 0
    requires Starves(s.pt, s.requests[1..], s.allocLimit - 1) ==> |s.disk.slots| > 0
    ensures Step(s, view, s', view') && |Pids(s'.requests)| < |Pids(s.requests)|
    ensures s.replies + [s.requests[0].vp.pid] <= s'.replies
    ensures s.pinned == 0 ==> s.requests[0].vp in view' && view'[s.requests[0].vp] == seq(PAGESIZE, _ => 0)
    ensures s'.disk.slots == Left(s.disk.slots, Starves(s.pt, s.requests[1..], s.allocLimit - 1))
  {
    hide Core, Pids, AllWaiting, Unique, Settles, Wanted, Here, Resident, Clocked, Serves, ClockOf, Use;
    var vp := s.requests[0].vp;
    var s1;
    s1, view' := GiveHead(s, view);
    s' := s1.(replies := s.replies + [vp.pid]);
    ghost var s2 := s'.(active := false, requests := s.requests[1..]);
    CoreSame(s1, s2, view', None, None);
    ServedCalm(s, view, s2, view');
    StarvesSame(s.pt, s2.pt, s2.requests, s2.allocLimit);
    ghost var s3 := s'.(requests := s.requests[1..]);
    ClockIs(s1, s');
    s', view' := DequeueRequest(s', view');
    GivenSettles(s, s3, s');
    HeadClocked(s, Some(vp), Use(ClockOf(s), vp), s');
  }

  /** The page at the head gets its frame and its bytes, and the pin is given back. */
  method GiveHead(s: Pager, ghost view: View) returns (s1: Pager, ghost view': View)
    requires Wanting(s, view) && s.allocLimit > 0
    ensures Core(s1, view', None, None) && s1.pinned == 0 && Extends(view, view') && Leaked(s1) == Leaked(s)
    ensures s1.allocLimit == s.allocLimit - 1 && Resident(Lookup(s1.pt, s.requests[0].vp))
    ensures var vp := s.requests[0].vp;
      && vp in s1.mapped && vp in s1.pt && s1.pt[vp].refd && s1.alloced == s.alloced + [vp]
      && ClockOf(s1) == Use(ClockOf(s), vp)
      && |s.ram.free| > 0 && s1.ram.free == (if s.pinned != 0 then [s.pinned] else []) + s.ram.free[1..]
    ensures forall v :: v != s.requests[0].vp ==> Lookup(s1.pt, v) == Lookup(s.pt, v)
    ensures s1 == s.(pt := s1.pt, ram := s1.ram, alloced := s1.alloced, allocLimit := s1.allocLimit,
                     mapped := s1.mapped, pinned := 0)
    ensures s.pinned == 0 ==> s.requests[0].vp in view' && view'[s.requests[0].vp] == seq(PAGESIZE, _ => 0)
  {
    hide Core, Pids, AllWaiting, Unique, ClockOf, Use;
    var vp := s.requests[0].vp;
    ghost var limbo := if s.pinned != 0 then Some(vp) else None;
    var frame;
    s1, frame := PagerFrameAlloc(s, vp, view, None, limbo);
    s1 := s1.(pt := s1.pt[vp := Entry(frame, false, true)], mapped := s1.mapped + {vp});
    var page := if s.pinned != 0 then FrameAt(s.ram, s.pinned) else seq(PAGESIZE, _ => 0);
    PinPage(s, view, limbo, vp);
    HeadProc(s);
    CoreGive(s, view, None, limbo, vp, page);
    view' := view[vp := page];
    s1 := s1.(ram := s1.ram.(mem := s1.ram.mem[frame := page]));
    assert s1 == Given(s, vp, page);
    LeakedSame(s, s1);
    if s.pinned != 0 {
      CoreUnpin(s1, view', None);
      s1 := s1.(ram := FrameFree(s1.ram, s1.pinned), pinned := 0);
    }
    AllocedIff(s, view, None, limbo, vp);
    UseIs(s, vp, s1);
  }

  /** The head has its frame; whatever comes after that keeps it in memory. */
  lemma {:induction false} GivenSettles(s: Pager, s3: Pager, s': Pager)
    requires |s.requests| > 0 && s.requests[0].Swapin? && s3.requests == s.requests[1..]
    requires Resident(Lookup(s3.pt, s.requests[0].vp)) && Settles(s3, s')
    requires forall v :: v != s.requests[0].vp ==> Lookup(s3.pt, v) == Lookup(s.pt, v)
    ensures Settles(s, s')
  {
    hide Here;
    forall vp | Wanted(s.requests, vp) ensures Wanted(s'.requests, vp) || Here(s', vp) {
      WantedRest(s.requests, vp);
    }
  }

  lemma {:induction false} PinPage(s: Pager, view: View, limbo: Option<Vpage>, vp: Vpage)
    requires Core(s, view, None, limbo) && Lookup(s.pt, vp) == ZERO && limbo == if s.pinned != 0 then Some(vp) else None
    ensures s.pinned != 0 ==>
      vp in view && view[vp] == FrameAt(s.ram, s.pinned) && |FrameAt(s.ram, s.pinned)| == PAGESIZE
    ensures s.pinned == 0 ==> vp !in view
  {
    if s.pinned != 0 {
      assert Held(s.pinned, None) == [s.pinned];
      assert s.pinned in Held(s.pinned, None);
    }
  }

  lemma {:induction false} HeadProc(s: Pager)
    requires |s.requests| > 0 && s.requests[0].Swapin? && AllWaiting(s, s.requests)
    ensures s.requests[0].vp.pid in s.procs
  {
    assert Waiting(s, s.requests[0]);
  }

  /** The victim is on disk: its frame joins the free ones, and the page that asked for it can
      have a frame. */
  method FinishSwapout(s: Pager, ghost view: View) returns (s': Pager, ghost view': View)
    requires |s.requests| > 1 && s.requests[0].Swapout? && s.requests[1].Swapin? && s.active
    requires Lookup(s.pt, s.requests[1].vp) == ZERO && Shut(s.disk)
    requires Core(s, view, Some(Out(s.requests[0].frame, s.requests[0].disk)),
                  if s.pinned != 0 then Some(s.requests[1].vp) else None)
    requires SlotAt(s.disk.file, s.requests[0].disk) == FrameAt(s.ram, s.requests[0].frame)
    requires AllWaiting(s, s.requests[1..]) && Unique(Pids(s.requests))
    requires Starves(s.pt, s.requests[2..], s.allocLimit) ==> |s.disk.slots| > 0
    ensures Step(s, view, s', view') && |Pids(s'.requests)| < |Pids(s.requests)|
    ensures s'.disk.slots == Left(s.disk.slots, Starves(s.pt, s.requests[2..], s.allocLimit))
    ensures s.replies + [s.requests[1].vp.pid] <= s'.replies
    ensures s.pinned == 0 ==> s.requests[1].vp in view' && view'[s.requests[1].vp] == seq(PAGESIZE, _ => 0)
  {
    hide Core, Pids, AllWaiting, Unique, Settles, Wanted, Here, Clocked, ClockOf, Starves;
    var frame, a := s.requests[0].frame, s.requests[0].disk;
    ghost var limbo := if s.pinned != 0 then Some(s.requests[1].vp) else None;
    CoreOut(s, view, frame, a, limbo);
    var s1 := s.(ram := FrameFree(s.ram, frame), allocLimit := s.allocLimit + 1);
    var s2 := s1.(requests := s.requests[1..]);
    CoreSame(s1, s2, view, None, limbo);
    assert s.requests == [s.requests[0]] + s.requests[1..];
    PidsHead(s.requests[0], s.requests[1..]);
    PidsOne(s.requests[0]);
    assert [] + Pids(s.requests[1..]) == Pids(s.requests[1..]);
    WaitingShrinks(s, s2, s.requests[1..]);
    BudgetFrame(s, view, Some(Out(frame, a)), limbo);
    assert s2.requests[1..] == s.requests[2..];
    TailSettles(s, s2);
    s', view' := FinishServe(s2, view);
    SettlesTrans(s, s2, s');
    ClockIs(s, s2);
    GoalsHead(s.requests);
    assert [] + Goals(s2.requests) == Goals(s2.requests);
    ClockedSame(s, s2, s');
  }

  lemma {:induction false} TailSettles(s: Pager, s2: Pager)
    requires |s.requests| > 0 && s.requests[0].Swapout? && s2.requests == s.requests[1..] && s2.pt == s.pt
    ensures Settles(s, s2)
  {
    forall vp | Wanted(s.requests, vp) ensures Wanted(s2.requests, vp) {
      WantedRest(s.requests, vp);
    }
  }
}
