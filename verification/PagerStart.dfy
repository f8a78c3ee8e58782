/** Serving a fault and starting requests: pagerAction, pager and the start chain. */
module PagerStart {
  import opened Options
  import opened SeqUtil
  import opened PagerState
  import opened PagerLemmas
  import opened PagerQueue
  import opened PagerClock

  /** Pages keep what they hold; only pages never touched before may appear. */
  ghost predicate Extends(view: View, view': View) {
    forall vp :: vp in view ==> vp in view' && view'[vp] == view[vp]
  }

  /** Everybody waiting is answered once, in the order of arrival: the processes answered so far
      followed by those still waiting stay the same sequence. */
  ghost predicate InOrder(s: Pager, s': Pager) {
    s'.replies + Pids(s'.requests) == s.replies + Pids(s.requests)
  }

  ghost function OnDisk(pt: map<Vpage, Entry>): set<Vpage> {
    set vp | vp in pt && pt[vp].swap
  }

  /** The swap slots handed out that hold no page of any process */
  ghost function Leaked(s: Pager): int {
    |s.disk.swapped| - |OnDisk(s.pt)|
  }

  /** Answers are only added, the processes, the budget and the pool stay the same, and no swap
      slot is lost or handed out without a page going there. */
  ghost predicate Continues(s: Pager, s': Pager) {
    && s.replies <= s'.replies && s'.procs == s.procs && s'.total == s.total && s'.pool == s.pool
    && Leaked(s') == Leaked(s)
  }

  lemma {:induction false} LeakedSame(s: Pager, s': Pager)
    requires |s'.disk.swapped| == |s.disk.swapped| && forall vp :: Lookup(s'.pt, vp).swap <==> Lookup(s.pt, vp).swap
    ensures Leaked(s') == Leaked(s)
  {
    assert forall vp :: vp in OnDisk(s.pt) <==> Lookup(s.pt, vp).swap;
    assert forall vp :: vp in OnDisk(s'.pt) <==> Lookup(s'.pt, vp).swap;
    assert OnDisk(s'.pt) == OnDisk(s.pt);
  }

  /** One slot more handed out, for one page more on disk */
  lemma {:induction false} LeakedOne(s: Pager, s': Pager, vp: Vpage)
    requires |s'.disk.swapped| == |s.disk.swapped| + 1 && !Lookup(s.pt, vp).swap && Lookup(s'.pt, vp).swap
    requires forall v :: v != vp ==> (Lookup(s'.pt, v).swap <==> Lookup(s.pt, v).swap)
    ensures Leaked(s') == Leaked(s)
  {
    assert forall v :: v in OnDisk(s.pt) <==> Lookup(s.pt, v).swap;
    assert forall v :: v in OnDisk(s'.pt) <==> Lookup(s'.pt, v).swap;
    assert OnDisk(s'.pt) == OnDisk(s.pt) + {vp};
  }

  /** A request for the page is in the queue. */
  ghost predicate Wanted(rs: seq<Request>, vp: Vpage) {
    exists i :: 0 <= i < |rs| && rs[i].Swapin? && rs[i].vp == vp
  }

  /** The page is in a frame: its own, or the one it is being written to disk from. */
  ghost predicate Here(s: Pager, vp: Vpage) {
    var e := Lookup(s.pt, vp);
    Resident(e) || (e.swap && |s.requests| > 0 && s.requests[0].Swapout? && s.requests[0].disk == e.addr)
  }

  /** No page is lost from memory except by a swap-out, and no request leaves the queue unless its
      page has come. */
  ghost predicate Settles(s: Pager, s': Pager) {
    && (forall vp :: Resident(Lookup(s.pt, vp)) ==> Here(s', vp))
    && (forall vp :: Wanted(s.requests, vp) ==> Wanted(s'.requests, vp) || Here(s', vp))
  }

  /** The processes answered have their pages mapped, each the last in the queue if it was not there, and
      a victim is chosen by second chance after that. */
  ghost predicate Clocked(s: Pager, s': Pager) {
    Serves(ClockOf(s), |s.replies|, Goals(s.requests), s')
  }

  ghost predicate Step(s: Pager, view: View, s': Pager, view': View) {
    && Inv(s', view') && Extends(view, view') && InOrder(s, s') && Continues(s, s') && Settles(s, s')
    && Clocked(s, s')
  }

  /** The free slots afterwards: the first is taken if a swap-out is needed. */
  ghost function Left(slots: seq<nat>, needed: bool): seq<nat> {
    if needed && |slots| > 0 then slots[1..] else slots
  }

  lemma {:induction false} ClockedStage(s: Pager, s': Pager, r: Request)
    requires |s.requests| > 0 && s'.requests == s.requests[0 := r] && GoalOf(r) == GoalOf(s.requests[0])
    requires !(r.Swapout? && r.stage == SWAPOUT_OPEN)
    requires s'.pt == s.pt && s'.alloced == s.alloced && s'.mapped == s.mapped && s'.replies == s.replies
    ensures Clocked(s, s')
  {
    GoalsStage(s.requests, r);
    ServesNone(ClockOf(s), |s.replies|, Goals(s.requests), s');
  }

  lemma {:induction false} SettlesTrans(s: Pager, s1: Pager, s': Pager)
    requires Settles(s, s1) && Settles(s1, s') && (|s1.requests| > 0 ==> !s1.requests[0].Swapout?)
    ensures Settles(s, s')
  {
    hide Wanted;
    forall vp ensures Here(s1, vp) ==> Here(s', vp) {
      assert Here(s1, vp) ==> Resident(Lookup(s1.pt, vp));
    }
  }

  /** Nothing leaves memory or the queue. */
  lemma {:induction false} SettlesSame(s: Pager, s': Pager)
    requires forall vp :: Resident(Lookup(s.pt, vp)) ==> Resident(Lookup(s'.pt, vp))
    requires forall i :: 0 <= i < |s.requests| && s.requests[i].Swapin? ==> Wanted(s'.requests, s.requests[i].vp)
    ensures Settles(s, s')
  {
  }

  /** Moving the head on to another stage leaves it in the queue. */
  lemma {:induction false} WantedStage(rs: seq<Request>, r: Request)
    requires |rs| > 0 && (rs[0].Swapin? ==> r.Swapin? && r.vp == rs[0].vp)
    ensures forall i :: 0 <= i < |rs| && rs[i].Swapin? ==> Wanted(rs[0 := r], rs[i].vp)
  {
    var rs' := rs[0 := r];
    forall i | 0 <= i < |rs| && rs[i].Swapin? ensures Wanted(rs', rs[i].vp) {
      assert rs'[i].Swapin? && rs'[i].vp == rs[i].vp;
    }
  }

  lemma {:induction false} WantedTail(rs: seq<Request>, r: Request)
    ensures forall i :: 0 <= i < |rs| && rs[i].Swapin? ==> Wanted(rs + [r], rs[i].vp) && Wanted([r] + rs, rs[i].vp)
  {
    forall i | 0 <= i < |rs| && rs[i].Swapin? ensures Wanted(rs + [r], rs[i].vp) && Wanted([r] + rs, rs[i].vp) {
      assert (rs + [r])[i] == rs[i] && ([r] + rs)[i + 1] == rs[i];
    }
  }

  lemma {:induction false} WantedLast(rs: seq<Request>, r: Request)
    ensures r.Swapin? ==> Wanted(rs + [r], r.vp)
  {
    assert (rs + [r])[|rs|] == r;
  }

  lemma {:induction false} StaysWanted(s: Pager, s': Pager, vp: Vpage)
    requires Settles(s, s') && Wanted(s.requests, vp)
    ensures Wanted(s'.requests, vp) || Here(s', vp)
  {
  }

  /** With the head served, what was wanted is wanted still or is the page of the head. */
  lemma {:induction false} WantedRest(rs: seq<Request>, vp: Vpage)
    requires |rs| > 0 && Wanted(rs, vp)
    ensures Wanted(rs[1..], vp) || (rs[0].Swapin? && rs[0].vp == vp)
  {
    var i :| 0 <= i < |rs| && rs[i].Swapin? && rs[i].vp == vp;
    if i > 0 {
      assert rs[1..][i - 1] == rs[i];
    }
  }

  /** Starting the queue `rs` with this budget comes to a page that has neither a frame nor a slot:
      that needs a swap-out, and so a free slot. */
  predicate Starves(pt: map<Vpage, Entry>, rs: seq<Request>, budget: int) {
    |rs| > 0 && rs[0].Swapin? && !Lookup(pt, rs[0].vp).swap && (budget <= 0 || Starves(pt, rs[1..], budget - 1))
  }

  /** Only the pages asked for matter. */
  lemma {:induction false} StarvesSame(pt: map<Vpage, Entry>, pt': map<Vpage, Entry>, rs: seq<Request>, budget: int)
    requires forall vp: Vpage :: vp.pid in Pids(rs) ==> Lookup(pt', vp) == Lookup(pt, vp)
    ensures Starves(pt', rs, budget) == Starves(pt, rs, budget)
  {
    if |rs| > 0 && rs[0].Swapin? {
      PidsIn(rs, 0);
      PidsHead(rs[0], rs[1..]);
      assert rs == [rs[0]] + rs[1..];
      StarvesSame(pt, pt', rs[1..], budget - 1);
    }
  }

  /** A fault on the page now would start a swap-out. */
  predicate Hungry(s: Pager, vp: Vpage) {
    |s.requests| == 0 && Stalls(s, vp) && !Lookup(s.pt, vp).swap
  }

  /** The page has to wait: it is on disk, or there is no frame for it. */
  predicate Stalls(s: Pager, vp: Vpage) {
    var e := Lookup(s.pt, vp);
    e.swap || (e.addr == 0 && s.allocLimit <= 0)
  }

  // ---------------------------------------------------------------- starting a swap-in

  lemma {:induction false} CalmCore(s: Pager, view: View)
    requires Calm(s, view)
    ensures Core(s, view, None, None) && s.pinned == 0 && Shut(s.disk)
    ensures AllWaiting(s, s.requests) && Unique(Pids(s.requests))
  {
  }

  /** Pin a frame and open the swap file. */
  method StartSwapin(s: Pager, ghost view: View) returns (s': Pager)
    requires Calm(s, view) && s.active && |s.requests| > 0 && s.requests[0].Swapin?
    requires Lookup(s.pt, s.requests[0].vp).swap
    ensures Step(s, view, s', view) && s'.disk.slots == s.disk.slots && FrameAlloc(s.ram) == (s'.ram, s'.pinned)
  {
    hide Core, Pids, AllWaiting, Calm, Settles, Wanted, Here, Clocked;
    CalmCore(s, view);
    CorePin(s, view);
    var r := s.requests[0];
    var (ram, pin) := FrameAlloc(s.ram);
    var s1 := s.(ram := ram, pinned := pin);
    r := Swapin(r.vp, SWAPIN_OPEN, r.offset);
    s' := s1.(requests := s.requests[0 := r], disk := s.disk.(io := OpenIo));
    CoreSame(s1, s', view, None, None);
    StageKeeps(s, s', r);
    WantedStage(s.requests, r);
    SettlesSame(s, s');
    ClockedStage(s, s', r);
  }

  /** Moving the head on to another stage keeps everybody's place. */
  lemma {:induction false} StageKeeps(s: Pager, s': Pager, r: Request)
    requires |s.requests| > 0 && s.requests[0].Swapin? && r.Swapin? && r.vp == s.requests[0].vp
    requires s'.requests == s.requests[0 := r] && s'.pt == s.pt && s'.procs == s.procs && s'.replies == s.replies
    ensures Pids(s'.requests) == Pids(s.requests) && InOrder(s, s')
    ensures AllWaiting(s, s.requests) ==> AllWaiting(s', s'.requests)
  {
    PidsOne(r);
    PidsOne(s.requests[0]);
    PidsSame(s.requests, r);
    if AllWaiting(s, s.requests) {
      forall i | 0 <= i < |s'.requests| ensures Waiting(s', s'.requests[i]) {
        assert Waiting(s, s.requests[i]);
      }
    }
  }

  // ---------------------------------------------------------------- starting a swap-out

  /** The head asks for a frame for a page that has none; its bytes, if any, are in the pin. */
  ghost predicate Wanting(s: Pager, view: View) {
    && |s.requests| > 0 && s.requests[0].Swapin? && s.active
    && Lookup(s.pt, s.requests[0].vp) == ZERO
    && Core(s, view, None, if s.pinned != 0 then Some(s.requests[0].vp) else None)
    && Shut(s.disk)
    && AllWaiting(s, s.requests) && Unique(Pids(s.requests))
  }

  /** Choose a victim, give it a swap slot, and open the swap file to write it there. */
  method StartSwapout(s: Pager, ghost view: View) returns (s': Pager, ghost j: nat)
    requires Wanting(s, view) && s.allocLimit == 0 && |s.disk.slots| > 0
    ensures Step(s, view, s', view)
    ensures |s.alloced| > 0 && Victim(s, j) && s'.disk.slots == s.disk.slots[1..]
    ensures ClockOf(s') == Sweep(ClockOf(s)) && s'.replies == s.replies
    ensures var vp := if j < |s.alloced| then s.alloced[j] else s.alloced[0];
      && [vp] + s'.alloced == s.alloced[j..] + s.alloced[..j]
      && s'.requests == [Swapout(vp.pid, s.pt[vp].addr, s.disk.slots[0] * PAGESIZE, SWAPOUT_OPEN, 0)] + s.requests
  {
    hide Core, Pids, AllWaiting, Turned, Settles, Wanted, Here, Clocked, ClockOf, Sweep;
    ghost var limbo := if s.pinned != 0 then Some(s.requests[0].vp) else None;
    SomeVictim(s, view, limbo);
    var s1, vp;
    s1, vp, j := DeleteAllocList(s, view, limbo);
    ghost var t := Turned(s, j);
    TurnedSame(s, j);
    var a, frame := s1.disk.slots[0] * PAGESIZE, s1.pt[vp].addr;
    VictimRest(t, s1.alloced, view, limbo, vp);
    CoreVictim(t, view, limbo, vp, s1.alloced);
    var d := s1.disk.(slots := s1.disk.slots[1..], swapped := s1.disk.swapped + [(vp.pid, a)]);
    var s2 := s1.(pt := s1.pt[vp := Entry(a, true, false)], disk := d, mapped := s1.mapped - {vp});
    var r := Swapout(vp.pid, frame, a, SWAPOUT_OPEN, 0);
    s' := s2.(requests := [r] + s.requests, disk := d.(io := OpenIo));
    CoreSame(s2, s', view, Some(Out(frame, a)), limbo);
    PidsOne(r);
    PidsHead(r, s.requests);
    assert s'.requests[1..] == s.requests;
    WaitingShrinks(s, s', s.requests);
    assert Lookup(s'.pt, s.requests[0].vp) == ZERO;
    assert Lookup(s1.pt, vp).addr == Lookup(s.pt, vp).addr;
    LeakedOne(s, s', vp);
    WantedTail(s.requests, r);
    OutSettles(s, s', vp);
    VictimSwept(s, j, vp, a, s');
    OutClocked(s, s', r);
  }

  /** The loop of deleteAllocList is the sweep of the clock. */
  lemma {:induction false} VictimSwept(s: Pager, j: nat, vp: Vpage, a: nat, s': Pager)
    requires |s.alloced| > 0 && Victim(s, j) && vp == (if j < |s.alloced| then s.alloced[j] else s.alloced[0])
    requires var t := Turned(s, j);
      && t.alloced == [vp] + s'.alloced && vp in t.pt && s'.pt == t.pt[vp := Entry(a, true, false)]
      && s'.mapped == t.mapped - {vp} && !t.pt[vp].refd
    ensures ClockOf(s') == Sweep(ClockOf(s))
  {
    var c, c' := ClockOf(s), ClockOf(s');
    UnusedIs(c, 0, j);
    var turned := s.alloced[j..] + s.alloced[..j];
    assert turned == [vp] + s'.alloced && turned[1..] == s'.alloced;
    assert c'.mapped == c.mapped - Elements(s.alloced[..j]) - {vp};
    assert c'.refd == c.refd - Elements(s.alloced[..j]);
  }

  lemma {:induction false} OutClocked(s: Pager, s': Pager, r: Request)
    requires r.Swapout? && r.stage == SWAPOUT_OPEN && s'.requests == [r] + s.requests && s'.replies == s.replies
    requires ClockOf(s') == Sweep(ClockOf(s))
    ensures Clocked(s, s')
  {
    hide ClockOf, Sweep;
    GoalsHead(s'.requests);
    assert s'.requests[1..] == s.requests && [] + Goals(s.requests) == Goals(s.requests);
    ServesNone(ClockOf(s), |s.replies|, Goals(s.requests), s');
  }

  lemma {:induction false} OutSettles(s: Pager, s': Pager, vp: Vpage)
    requires |s'.requests| > 0 && s'.requests[0].Swapout?
    requires Lookup(s'.pt, vp) == Entry(s'.requests[0].disk, true, false)
    requires forall v :: v != vp ==> (Resident(Lookup(s.pt, v)) ==> Resident(Lookup(s'.pt, v)))
    requires forall i :: 0 <= i < |s.requests| && s.requests[i].Swapin? ==> Wanted(s'.requests, s.requests[i].vp)
    ensures Settles(s, s')
  {
  }

  /** With the budget used up some page is resident: there is a victim. */
  lemma {:induction false} SomeVictim(s: Pager, view: View, limbo: Option<Vpage>)
    requires Core(s, view, None, limbo) && s.allocLimit == 0
    ensures |s.alloced| > 0
  {
  }

  /** Turning the second-chance queue changes no page's place. */
  lemma {:induction false} TurnedSame(s: Pager, j: nat)
    requires j <= |s.alloced|
    ensures var t := Turned(s, j);
      && t == s.(pt := t.pt, alloced := s.alloced[j..] + s.alloced[..j], mapped := t.mapped)
      && t.pt.Keys == s.pt.Keys
      && forall vp :: Lookup(t.pt, vp) == Lookup(s.pt, vp) || Lookup(t.pt, vp) == Lookup(s.pt, vp).(refd := false)
  {
  }

  lemma {:induction false} VictimRest(t: Pager, rest: seq<Vpage>, view: View, limbo: Option<Vpage>, vp: Vpage)
    requires Core(t, view, None, limbo) && t.alloced == [vp] + rest
    ensures vp in t.alloced && Unique(rest) && vp !in rest && |rest| == |t.alloced| - 1
    ensures forall x :: x in t.alloced <==> x == vp || x in rest
  {
    hide Core;
    CoreUnique(t, view, limbo);
    UniqueTail(t.alloced);
    assert rest == t.alloced[1..];
  }

  // ---------------------------------------------------------------- mapping a page

  /** The page on its way out, and the page waiting in the pin, are known from the queue. */
  ghost function OutOf(s: Pager): Option<Out> {
    if |s.requests| > 0 && s.requests[0].Swapout? then Some(Out(s.requests[0].frame, s.requests[0].disk)) else None
  }

  ghost function LimboOf(s: Pager): Option<Vpage> {
    if |s.requests| > 1 && s.requests[0].Swapout? && s.pinned != 0 && s.requests[1].Swapin?
    then Some(s.requests[1].vp) else None
  }

  lemma {:induction false} InvCore(s: Pager, view: View)
    requires Inv(s, view)
    ensures Core(s, view, OutOf(s), LimboOf(s))
    ensures s.active <==> |s.requests| > 0
    ensures Unique(Pids(s.requests))
    ensures LimboOf(s).Some? ==> LimboOf(s).value.pid in Pids(s.requests)
  {
    hide Core, AllWaiting, SwapinAt, SwapoutAt;
    if LimboOf(s).Some? {
      PidsIn(s.requests, 1);
    }
  }

  /** The bytes in flight, if any, are the same. */
  ghost predicate SameFlight(s: Pager, s': Pager) {
    && (s.pinned != 0 ==> FrameAt(s'.ram, s.pinned) == FrameAt(s.ram, s.pinned))
    && (OutOf(s).Some? ==> FrameAt(s'.ram, OutOf(s).value.frame) == FrameAt(s.ram, OutOf(s).value.frame))
  }

  /** What happens to pages of processes that wait for nothing leaves the queue as it is. */
  lemma {:induction false} InvKeeps(s: Pager, s': Pager, view: View, view': View)
    requires Inv(s, view) && Core(s', view', OutOf(s), LimboOf(s))
    requires s'.requests == s.requests && s'.active == s.active && s'.pinned == s.pinned && s'.disk == s.disk
    requires forall vp: Vpage :: vp.pid in Pids(s.requests) ==> Lookup(s'.pt, vp) == Lookup(s.pt, vp)
    requires forall p :: p in Pids(s.requests) && p in s.procs ==> p in s'.procs
    requires SameFlight(s, s')
    ensures Inv(s', view')
  {
    hide Core, Pids;
    forall i | 0 <= i < |s.requests| && Waiting(s, s.requests[i]) ensures Waiting(s', s'.requests[i]) {
      PidsIn(s.requests, i);
    }
    if |s.requests| > 0 && s.requests[0].Swapout? {
      PidsIn(s.requests, 1);
      forall i | 0 <= i < |s.requests[1..]| ensures Waiting(s', s'.requests[1..][i]) {
        assert s.requests[1..][i] == s.requests[i + 1] && Waiting(s, s.requests[1..][i]);
      }
    } else if |s.requests| > 0 {
      PidsIn(s.requests, 0);
    }
  }

  lemma {:induction false} CalmKeeps(s: Pager, s': Pager, view: View, view': View)
    requires Calm(s, view) && Core(s', view', None, None)
    requires s'.requests == s.requests && s'.pinned == s.pinned && s'.disk == s.disk
    requires forall vp: Vpage :: vp.pid in Pids(s.requests) ==> Lookup(s'.pt, vp) == Lookup(s.pt, vp)
    requires s'.procs == s.procs
    ensures Calm(s', view')
  {
    hide Core, Pids;
    forall i | 0 <= i < |s.requests| ensures Waiting(s', s'.requests[i]) {
      PidsIn(s.requests, i);
      assert Waiting(s, s.requests[i]);
    }
  }

  /** A frame for a page, within the budget; 0 when the budget is used up. */
  method PagerFrameAlloc(s: Pager, vp: Vpage, ghost view: View, ghost out: Option<Out>, ghost limbo: Option<Vpage>)
    returns (s': Pager, frame: Frame)
    requires Core(s, view, out, limbo)
    ensures frame == 0 <==> s.allocLimit == 0
    ensures frame == 0 ==> s' == s
    ensures frame != 0 ==> |s.ram.free| > 0 && frame == s.ram.free[0] && |FrameAt(s.ram, frame)| == PAGESIZE
    ensures frame != 0 ==>
      s' == s.(ram := FrameAlloc(s.ram).0, alloced := s.alloced + [vp], allocLimit := s.allocLimit - 1)
  {
    BudgetFrame(s, view, out, limbo);
    if s.allocLimit == 0 {
      return s, 0;
    }
    var (ram, f) := FrameAlloc(s.ram);
    frame := f;
    s' := s.(ram := ram, alloced := s.alloced + [vp], allocLimit := s.allocLimit - 1);
  }

  /** The budget is never overdrawn, and while something is left of it there is a free frame. */
  lemma {:induction false} BudgetFrame(s: Pager, view: View, out: Option<Out>, limbo: Option<Vpage>)
    requires Core(s, view, out, limbo)
    ensures 0 <= s.allocLimit <= s.total
    ensures s.allocLimit > 0 ==> |s.ram.free| > 0 && s.ram.free[0] != 0 && |FrameAt(s.ram, s.ram.free[0])| == PAGESIZE
  {
    if s.allocLimit > 0 {
      assert s.ram.free[0] in s.ram.free;
    }
  }

  /** What a process sees in its pages once `vp` is mapped: in a page touched for the first time,
      whatever the frame last held, since it is not cleared. */
  ghost function FirstSeen(s: Pager, view: View, vp: Vpage): View {
    if Lookup(s.pt, vp).addr == 0 then view[vp := FrameAt(s.ram, FrameAlloc(s.ram).1)] else view
  }

  /** Map a page that is resident or can have a frame: the end of pagerAction. */
  method PagerMap(s: Pager, vp: Vpage, ghost view: View, ghost out: Option<Out>, ghost limbo: Option<Vpage>)
    returns (s': Pager, ghost view': View)
    requires Core(s, view, out, limbo) && vp.pid in s.procs && !Stalls(s, vp) && limbo != Some(vp)
    ensures Core(s', view', out, limbo) && Extends(view, view') && vp in view'
    ensures vp in s'.mapped && Resident(Lookup(s'.pt, vp))
    ensures s' == s.(pt := s'.pt, ram := s'.ram, alloced := s'.alloced, allocLimit := s'.allocLimit,
                     mapped := s'.mapped)
    ensures s'.ram.mem == s.ram.mem && Leaked(s') == Leaked(s) && view' == FirstSeen(s, view, vp)
    ensures s'.allocLimit == s.allocLimit - (if Lookup(s.pt, vp).addr == 0 then 1 else 0)
    ensures s'.alloced == if Lookup(s.pt, vp).addr == 0 then s.alloced + [vp] else s.alloced
    ensures s'.ram == if Lookup(s.pt, vp).addr == 0 then FrameAlloc(s.ram).0 else s.ram
    ensures vp in s'.pt && s'.pt[vp].refd && ClockOf(s') == Use(ClockOf(s), vp)
    ensures forall v :: v != vp ==> Lookup(s'.pt, v) == Lookup(s.pt, v)
  {
    hide Core, Settles, Wanted, Here, ClockOf, Use;
    var frame := Lookup(s.pt, vp).addr;
    s' := s;
    view' := view;
    if frame == 0 {
      s', frame := PagerFrameAlloc(s, vp, view, out, limbo);
      BudgetFrame(s, view, out, limbo);
      ZeroEntry(s, view, out, limbo, vp);
      ghost var page := FrameAt(s.ram, frame);
      CoreGive(s, view, out, limbo, vp, page);
      view' := view[vp := page];
      s' := s'.(pt := s'.pt[vp := Entry(frame, false, true)], mapped := s'.mapped + {vp});
      assert s'.ram == Given(s, vp, page).ram;
      assert s' == Given(s, vp, page);
    } else {
      CoreRemap(s, view, out, limbo, vp);
      CoreView(s, view, out, limbo, vp);
      s' := s'.(pt := s'.pt[vp := Entry(frame, false, true)], mapped := s'.mapped + {vp});
      assert s'.pt == s.pt[vp := s.pt[vp].(refd := true)];
    }
    LeakedSame(s, s');
    AllocedIff(s, view, out, limbo, vp);
    UseIs(s, vp, s');
  }

  lemma {:induction false} AllocedIff(s: Pager, view: View, out: Option<Out>, limbo: Option<Vpage>, vp: Vpage)
    requires Core(s, view, out, limbo)
    ensures vp in s.alloced <==> Resident(Lookup(s.pt, vp))
  {
  }

  lemma {:induction false} UseIs(s: Pager, vp: Vpage, s': Pager)
    requires s'.alloced == (if vp in s.alloced then s.alloced else s.alloced + [vp]) && s'.mapped == s.mapped + {vp}
    requires vp in s'.pt && s'.pt[vp].refd && s'.pt == s.pt[vp := s'.pt[vp]]
    ensures ClockOf(s') == Use(ClockOf(s), vp)
  {
    assert Refd(s'.pt) == Refd(s.pt) + {vp};
  }

  /** A page that is neither on disk nor in a frame has an entry of zero and was never seen. */
  lemma {:induction false} ZeroEntry(s: Pager, view: View, out: Option<Out>, limbo: Option<Vpage>, vp: Vpage)
    requires Core(s, view, out, limbo) && !Lookup(s.pt, vp).swap && Lookup(s.pt, vp).addr == 0
    ensures Lookup(s.pt, vp) == ZERO && (vp in view <==> limbo == Some(vp))
  {
  }

  lemma {:induction false} CoreView(s: Pager, view: View, out: Option<Out>, limbo: Option<Vpage>, vp: Vpage)
    requires Core(s, view, out, limbo) && vp in s.pt && Resident(s.pt[vp])
    ensures vp in view
  {
  }

  // ---------------------------------------------------------------- the start chain

  /** pagerAction: map the page if that can be done now, and queue a request otherwise. */
  method PagerAction(s: Pager, ghost view: View, vp: Vpage) returns (s': Pager, ghost view': View, ok: bool)
    requires Inv(s, view) || (Calm(s, view) && !s.active && !Stalls(s, vp))
    requires vp.pid in s.procs && vp.pid !in Pids(s.requests) && (Hungry(s, vp) ==> |s.disk.slots| > 0)
    ensures ok == !Stalls(s, vp) && Extends(view, view') && Continues(s, s') && Settles(s, s')
    ensures ok ==> s'.requests == s.requests && s'.replies == s.replies && s'.active == s.active && s'.disk == s.disk
    ensures ok ==> vp in s'.mapped && Resident(Lookup(s'.pt, vp)) && vp in view' && view' == FirstSeen(s, view, vp)
    ensures ok ==> s'.allocLimit == s.allocLimit - (if Lookup(s.pt, vp).addr == 0 then 1 else 0)
    ensures ok ==> s'.alloced == if Lookup(s.pt, vp).addr == 0 then s.alloced + [vp] else s.alloced
    ensures ok ==> ClockOf(s') == Use(ClockOf(s), vp)
    ensures ok ==> forall v :: v != vp ==> Lookup(s'.pt, v) == Lookup(s.pt, v)
    ensures ok && Inv(s, view) ==> Inv(s', view')
    ensures ok && Calm(s, view) ==> Calm(s', view')
    ensures !ok ==> Inv(s', view') && s'.replies + Pids(s'.requests) == s.replies + Pids(s.requests) + [vp.pid]
    ensures !ok ==> Wanted(s'.requests, vp) || Here(s', vp)
    ensures !ok ==> Queues(s, [Some(vp)], s') && s'.disk.slots == Left(s.disk.slots, Hungry(s, vp))
    decreases |s.requests| + (if Stalls(s, vp) then 1 else 0), 3
  {
    hide Core, Pids, Inv, Calm, Unique, Settles, Wanted, Here, ClockOf, Use, Queues;
    var e := Lookup(s.pt, vp);
    if e.swap || (e.addr == 0 && s.allocLimit <= 0) {
      s', view' := QueueRequest(s, view, Swapin(vp, WAITING, 0));
      PidsOne(Swapin(vp, WAITING, 0));
      HungryIff(s, view, vp);
      return s', view', false;
    }
    ok := true;
    ghost var out, limbo := if Inv(s, view) then OutOf(s) else None, if Inv(s, view) then LimboOf(s) else None;
    if Inv(s, view) {
      InvCore(s, view);
    }
    if Calm(s, view) {
      CalmCore(s, view);
    }
    s', view' := PagerMap(s, vp, view, out, limbo);
    MapSettles(s, s', vp);
    if Inv(s, view) {
      InvKeeps(s, s', view, view');
    }
    if Calm(s, view) {
      CalmOut(s, view);
      CalmKeeps(s, s', view, view');
    }
  }

  /** An empty queue is at a swap-out with its first request just if that is a fault that needs one. */
  lemma {:induction false} HungryIff(s: Pager, view: View, vp: Vpage)
    requires Inv(s, view) && Stalls(s, vp)
    ensures Hungry(s, vp) <==> |s.requests| == 0 && Starves(s.pt, [Swapin(vp, WAITING, 0)], s.allocLimit)
  {
    hide Core, Pids, AllWaiting;
    InvCore(s, view);
    BudgetFrame(s, view, OutOf(s), LimboOf(s));
    assert [Swapin(vp, WAITING, 0)][1..] == [];
  }

  /** What a request put at the end of the queue does to the clock: nothing while the queue is worked on;
      an empty queue is started. */
  ghost predicate Queues(s: Pager, goals: seq<Goal>, s': Pager) {
    if |s.requests| > 0 then ClockOf(s') == ClockOf(s) && Goals(s'.requests) == Goals(s.requests) + goals
    else Serves(ClockOf(s), |s.replies|, goals, s')
  }

  lemma {:induction false} MapSettles(s: Pager, s': Pager, vp: Vpage)
    requires s'.requests == s.requests && Resident(Lookup(s'.pt, vp))
    requires forall v :: v != vp ==> Lookup(s'.pt, v) == Lookup(s.pt, v)
    ensures Settles(s, s')
  {
  }

  /** A queue that is being worked on stays so with one more request at its end. */
  lemma {:induction false} Queued(s: Pager, view: View, r: Request)
    requires Inv(s, view) && Waiting(s, r) && PidOf(r) !in Pids(s.requests)
    ensures var s' := s.(requests := s.requests + [r]);
      && Pids(s'.requests) == Pids(s.requests) + Pids([r])
      && if |s.requests| > 0 then Inv(s', view) else Calm(s', view) && !s'.active
  {
    hide Core, Pids, AllWaiting, Unique, SwapinAt, SwapoutAt;
    var s' := s.(requests := s.requests + [r]);
    PidsAppend(s.requests, r);
    PidsOne(r);
    InvCore(s, view);
    UniquePush(Pids(s.requests), PidOf(r));
    CoreSame(s, s', view, OutOf(s), LimboOf(s));
    WaitingPush(s, s', r);
    if |s.requests| > 0 {
      QueuedStage(s, s');
    }
  }

  lemma {:induction false} QueuedStage(s: Pager, s': Pager)
    requires |s.requests| > 0 && s' == s.(requests := s'.requests)
    ensures s.requests[0].Swapin? ==>
      var r := s.requests[0]; SwapinAt(s', r.vp, r.stage, r.offset) == SwapinAt(s, r.vp, r.stage, r.offset)
    ensures s.requests[0].Swapout? ==>
      var r := s.requests[0];
      SwapoutAt(s', r.frame, r.disk, r.stage, r.offset) == SwapoutAt(s, r.frame, r.disk, r.stage, r.offset)
  {
  }

  /** Put a request at the end of the queue; an empty queue is started at once. */
  method QueueRequest(s: Pager, ghost view: View, r: Request) returns (s': Pager, ghost view': View)
    requires Inv(s, view) && Waiting(s, r) && PidOf(r) !in Pids(s.requests)
    requires |s.requests| == 0 && Starves(s.pt, [r], s.allocLimit) ==> |s.disk.slots| > 0
    ensures Inv(s', view') && Extends(view, view') && Continues(s, s') && Settles(s, s')
    ensures s'.replies + Pids(s'.requests) == s.replies + Pids(s.requests) + Pids([r])
    ensures r.Swapin? ==> Wanted(s'.requests, r.vp) || Here(s', r.vp)
    ensures Queues(s, GoalOf(r), s')
    ensures s'.disk.slots == Left(s.disk.slots, |s.requests| == 0 && Starves(s.pt, [r], s.allocLimit))
    ensures |s.requests| > 0 ==> s' == s.(requests := s.requests + [r])
    ensures r.Elfload? ==> s'.requests == s.requests + [r] && s'.replies == s.replies && ClockOf(s') == ClockOf(s)
    decreases |s.requests| + 1, 2
  {
    hide Inv, Calm, Pids, Settles, Wanted, Here, ClockOf, Clocked, Starves, Goals, Queues, Extends;
    s' := s.(requests := s.requests + [r]);
    view' := view;
    Queued(s, view, r);
    ClockIs(s, s');
    WantedTail(s.requests, r);
    WantedLast(s.requests, r);
    SettlesSame(s, s');
    ghost var s1 := s';
    if |s.requests| == 0 {
      assert s1.requests == [r];
      s', view' := StartRequest(s', view);
      SettlesTrans(s, s1, s');
      if r.Swapin? {
        StaysWanted(s1, s', r.vp);
      } else {
        ClockIs(s1, s');
      }
    } else {
      ExtendsSame(view);
    }
    QueuedClock(s, r, s1, s');
  }

  lemma {:induction false} ExtendsSame(view: View)
    ensures Extends(view, view)
  {
  }

  lemma {:induction false} QueuedClock(s: Pager, r: Request, s1: Pager, s': Pager)
    requires s1 == s.(requests := s.requests + [r])
    requires if |s.requests| > 0 then s' == s1 else Clocked(s1, s')
    ensures Queues(s, GoalOf(r), s')
  {
    hide Serves, Goals;
    GoalsAppend(s.requests, r);
    if |s.requests| == 0 {
      GoalsNone(s.requests, GoalOf(r));
    }
  }

  method StartRequest(s: Pager, ghost view: View) returns (s': Pager, ghost view': View)
    requires Calm(s, view) && !s.active && |s.requests| > 0
    requires Starves(s.pt, s.requests, s.allocLimit) ==> |s.disk.slots| > 0
    ensures Step(s, view, s', view')
    ensures Continues(s, s') && Settles(s, s') && s'.replies + Pids(s'.requests) == s.replies + Pids(s.requests)
    ensures Clocked(s, s') && s'.disk.slots == Left(s.disk.slots, Starves(s.pt, s.requests, s.allocLimit))
    ensures s.requests[0].Elfload? ==>
      s' == s.(active := true, disk := s.disk.(io := ElfIo(s.requests[0].stage)))
    decreases |s.requests|, 1
  {
    hide Core, Pids, AllWaiting, Unique, Settles, Wanted, Here, Clocked;
    view' := view;
    if s.requests[0].Elfload? {
      s' := s.(active := true, disk := s.disk.(io := ElfIo(s.requests[0].stage)));
      CoreSame(s, s', view, None, None);
      WaitingShrinks(s, s', s.requests);
      SameSettles(s, s');
      SameClocked(s, s');
    } else {
      HeadIsSwapin(s, view);
      s' := s.(active := true);
      CoreSame(s, s', view, None, None);
      WaitingShrinks(s, s', s.requests);
      ghost var s1 := s';
      SameSettles(s, s1);
      s', view' := StartPagerRequest(s', view);
      SettlesTrans(s, s1, s');
      ClockedSame(s, s1, s');
    }
  }

  lemma {:induction false} ClockedFrom(s: Pager, s': Pager)
    requires Clocked(s, s')
    ensures Serves(ClockOf(s), |s.replies|, Goals(s.requests), s')
  {
  }

  /** The clock, the requests and the answers are the same. */
  ghost predicate SameClock(s: Pager, s1: Pager) {
    && ClockOf(s1) == ClockOf(s) && Goals(s1.requests) == Goals(s.requests) && |s1.replies| == |s.replies|
  }

  lemma {:induction false} ClockedSame(s: Pager, s1: Pager, s': Pager)
    requires SameClock(s, s1) && Clocked(s1, s')
    ensures Clocked(s, s')
  {
  }

  lemma {:induction false} SameClocked(s: Pager, s': Pager)
    requires SameClock(s, s') && !Opening(s')
    ensures Clocked(s, s')
  {
    ServesNone(ClockOf(s), |s.replies|, Goals(s.requests), s');
  }

  /** The head has been served, and then the others. */
  lemma {:induction false} HeadClocked(s: Pager, goal: Goal, c: Clock, s': Pager)
    requires |s.requests| > 0 && GoalOf(s.requests[0]) == [goal]
    requires c == (if goal.Some? then Use(ClockOf(s), goal.value) else ClockOf(s))
    requires Serves(c, |s.replies| + 1, Goals(s.requests[1..]), s')
    ensures Clocked(s, s')
  {
    hide Serves;
    GoalsHead(s.requests);
    ServesFirst(ClockOf(s), |s.replies|, goal, Goals(s.requests[1..]), s');
  }

  method StartPagerRequest(s: Pager, ghost view: View) returns (s': Pager, ghost view': View)
    requires Calm(s, view) && s.active && |s.requests| > 0 && s.requests[0].Swapin?
    requires Starves(s.pt, s.requests, s.allocLimit) ==> |s.disk.slots| > 0
    ensures Step(s, view, s', view')
    ensures Continues(s, s') && Settles(s, s') && s'.replies + Pids(s'.requests) == s.replies + Pids(s.requests)
    ensures Clocked(s, s') && s'.disk.slots == Left(s.disk.slots, Starves(s.pt, s.requests, s.allocLimit))
    decreases |s.requests|, 0
  {
    hide Core, Pids, AllWaiting, Unique, Settles, Wanted, Here, Clocked, Serves, ClockOf, Sweep, Use;
    var vp := s.requests[0].vp;
    view' := view;
    if Lookup(s.pt, vp).swap {
      s' := StartSwapin(s, view);
    } else {
      HeadWaits(s, view);
      if s.allocLimit > 0 {
        s' := s.(active := false, requests := s.requests[1..]);
        CoreSame(s, s', view, None, None);
        PidsServe(s.requests);
        WaitingRest(s, s');
        ghost var s1 := s';
        s', view' := PagerServe(s', view, vp);
        ServedSettles(s, s1, s');
        ClockIs(s, s1);
        HeadClocked(s, Some(vp), Use(ClockOf(s), vp), s');
      } else {
        ghost var j;
        s', j := StartSwapout(s, view);
      }
    }
  }

  /** pager: answer the process once its page is mapped, then go on with the queue. */
  method PagerServe(s: Pager, ghost view: View, vp: Vpage) returns (s': Pager, ghost view': View)
    requires Inv(s, view) || (Calm(s, view) && !s.active && !Stalls(s, vp))
    requires vp.pid in s.procs && vp.pid !in Pids(s.requests) && (Hungry(s, vp) ==> |s.disk.slots| > 0)
    requires var budget := s.allocLimit - (if Lookup(s.pt, vp).addr == 0 then 1 else 0);
      !s.active && !Stalls(s, vp) && Starves(s.pt, s.requests, budget) ==> |s.disk.slots| > 0
    ensures Inv(s', view') && Extends(view, view') && Continues(s, s') && Settles(s, s')
    ensures Here(s', vp) || (Stalls(s, vp) && Wanted(s'.requests, vp))
    ensures if Stalls(s, vp) then s'.replies + Pids(s'.requests) == s.replies + Pids(s.requests) + [vp.pid]
            else s'.replies + Pids(s'.requests) == s.replies + [vp.pid] + Pids(s.requests)
    ensures Inv(s, view) && !Stalls(s, vp) ==> s'.replies == s.replies + [vp.pid] && s'.requests == s.requests
    ensures Inv(s, view) && !Stalls(s, vp) ==> vp in s'.mapped && view' == FirstSeen(s, view, vp)
    ensures Inv(s, view) && !Stalls(s, vp) ==>
      && s'.alloced == (if Lookup(s.pt, vp).addr == 0 then s.alloced + [vp] else s.alloced)
      && ClockOf(s') == Use(ClockOf(s), vp) && s'.disk == s.disk
    ensures Stalls(s, vp) ==> Queues(s, [Some(vp)], s') && s'.disk.slots == Left(s.disk.slots, Hungry(s, vp))
    ensures !s.active && !Stalls(s, vp) ==> Serves(Use(ClockOf(s), vp), |s.replies| + 1, Goals(s.requests), s')
    ensures var budget := s.allocLimit - (if Lookup(s.pt, vp).addr == 0 then 1 else 0);
      !s.active && !Stalls(s, vp) ==> s'.disk.slots == Left(s.disk.slots, Starves(s.pt, s.requests, budget))
    decreases |s.requests| + (if Stalls(s, vp) then 1 else 0), 4
  {
    hide Core, Pids, Inv, Calm, Unique, Settles, Wanted, Here, Clocked, Serves, ClockOf, Use, Queues, Stalls,
         Starves, FirstSeen, Lookup, Resident, Leaked;
    if Inv(s, view) {
      InvCore(s, view);
    }
    var ok;
    s', view', ok := PagerAction(s, view, vp);
    if ok {
      ghost var s1 := s';
      s' := s'.(replies := s'.replies + [vp.pid]);
      ReplyKeeps(s1, s', view');
      ghost var s2, view2 := s', view';
      ReplySettles(s, s1, s2, vp);
      ClockIs(s1, s2);
      StarvesSame(s.pt, s2.pt, s2.requests, s2.allocLimit);
      s', view' := GoOn(s', view');
      ExtendsTrans(view, view2, view');
      SettlesOn(s, s2, s', vp);
      LeakedSame(s1, s2);
    }
  }

  /** A queue that is not being worked on is started. */
  method GoOn(s: Pager, ghost view: View) returns (s': Pager, ghost view': View)
    requires Inv(s, view) || (Calm(s, view) && !s.active)
    requires !s.active && Starves(s.pt, s.requests, s.allocLimit) ==> |s.disk.slots| > 0
    ensures Inv(s', view') && Extends(view, view') && Continues(s, s') && Settles(s, s')
    ensures s'.replies + Pids(s'.requests) == s.replies + Pids(s.requests)
    ensures Inv(s, view) ==> s' == s && view' == view
    ensures Calm(s, view) && !s.active && |s.requests| > 0 ==> !s.requests[0].Swapout?
    ensures !s.active ==>
      && Serves(ClockOf(s), |s.replies|, Goals(s.requests), s')
      && s'.disk.slots == Left(s.disk.slots, Starves(s.pt, s.requests, s.allocLimit))
    decreases |s.requests|, 2
  {
    hide Core, Pids, AllWaiting, Unique, Settles, Clocked, Serves, ClockOf, Leaked;
    s', view' := s, view;
    SameSettles(s, s);
    if Inv(s, view) {
      InvCore(s, view);
    }
    if |s.requests| > 0 && !s.active {
      HeadIsSwapin(s, view);
      s', view' := StartRequest(s, view);
      ClockedFrom(s, s');
    } else if !s.active {
      ServesDone(s);
    }
  }

  lemma {:induction false} ExtendsTrans(a: View, b: View, c: View)
    requires Extends(a, b) && Extends(b, c)
    ensures Extends(a, c)
  {
  }

  lemma {:induction false} SettlesOn(s: Pager, s2: Pager, s': Pager, vp: Vpage)
    requires Settles(s, s2) && Settles(s2, s') && Resident(Lookup(s2.pt, vp))
    requires s' == s2 || (|s2.requests| > 0 ==> !s2.requests[0].Swapout?)
    ensures Settles(s, s') && Here(s', vp)
  {
    hide Wanted;
    if s' != s2 {
      SettlesTrans(s, s2, s');
    }
  }

  lemma {:induction false} ClockIs(s: Pager, s1: Pager)
    requires s1.pt == s.pt && s1.alloced == s.alloced && s1.mapped == s.mapped
    ensures ClockOf(s1) == ClockOf(s)
  {
  }

  lemma {:induction false} ServesDone(s: Pager)
    requires |s.requests| == 0
    ensures Serves(ClockOf(s), |s.replies|, Goals(s.requests), s)
  {
    ServesNone(ClockOf(s), |s.replies|, Goals(s.requests), s);
  }

  lemma {:induction false} SameSettles(s: Pager, s': Pager)
    requires s'.pt == s.pt && s'.requests == s.requests
    ensures Settles(s, s')
  {
  }

  lemma {:induction false} ReplySettles(s: Pager, s1: Pager, s2: Pager, vp: Vpage)
    requires Settles(s, s1) && s2 == s1.(replies := s2.replies) && Resident(Lookup(s1.pt, vp))
    ensures Settles(s, s2) && Here(s2, vp)
  {
    hide Wanted;
    assert forall v :: Here(s1, v) ==> Here(s2, v);
  }

  /** The head has been taken off and its page has come. */
  lemma {:induction false} ServedSettles(s: Pager, s1: Pager, s': Pager)
    requires |s.requests| > 0 && s.requests[0].Swapin? && s1.requests == s.requests[1..] && s1.pt == s.pt
    requires Settles(s1, s') && Here(s', s.requests[0].vp)
    ensures Settles(s, s')
  {
    hide Here;
    forall vp | Wanted(s.requests, vp) ensures Wanted(s'.requests, vp) || Here(s', vp) {
      WantedRest(s.requests, vp);
    }
  }

  lemma {:induction false} CalmOut(s: Pager, view: View)
    requires Calm(s, view)
    ensures Inv(s, view) ==> OutOf(s) == None && LimboOf(s) == None
  {
    if |s.requests| > 0 {
      assert Waiting(s, s.requests[0]);
    }
  }

  lemma {:induction false} WaitingPush(s: Pager, s': Pager, r: Request)
    requires s' == s.(requests := s.requests + [r]) && Waiting(s, r)
    ensures AllWaiting(s, s.requests) ==> AllWaiting(s', s'.requests)
    ensures |s.requests| > 0 && AllWaiting(s, s.requests[1..]) ==> AllWaiting(s', s'.requests[1..])
  {
    if |s.requests| > 0 && AllWaiting(s, s.requests[1..]) {
      forall i | 0 <= i < |s'.requests[1..]| ensures Waiting(s', s'.requests[1..][i]) {
        assert i < |s.requests[1..]| ==> Waiting(s, s.requests[1..][i]);
      }
    }
    if AllWaiting(s, s.requests) {
      forall i | 0 <= i < |s'.requests| ensures Waiting(s', s'.requests[i]) {
        assert i < |s.requests| ==> Waiting(s, s.requests[i]);
      }
    }
  }

  lemma {:induction false} WaitingRest(s: Pager, s': Pager)
    requires |s.requests| > 0 && s'.requests == s.requests[1..] && s'.pt == s.pt && s'.procs == s.procs
    requires AllWaiting(s, s.requests)
    ensures AllWaiting(s', s'.requests)
  {
    forall i | 0 <= i < |s'.requests| ensures Waiting(s', s'.requests[i]) {
      assert Waiting(s, s.requests[i + 1]);
    }
  }

  lemma {:induction false} HeadIsSwapin(s: Pager, view: View)
    requires Calm(s, view) && |s.requests| > 0
    ensures !s.requests[0].Swapout?
  {
    assert Waiting(s, s.requests[0]);
  }

  /** An unstarted request at the head whose page is not on disk wants a frame. */
  lemma {:induction false} HeadWaits(s: Pager, view: View)
    requires Calm(s, view) && s.active && |s.requests| > 0 && s.requests[0].Swapin?
    requires !Lookup(s.pt, s.requests[0].vp).swap
    ensures s.requests[0].vp.pid in s.procs && 0 <= s.allocLimit && Wanting(s, view)
  {
    assert Waiting(s, s.requests[0]);
  }

  lemma {:induction false} ReplyKeeps(s: Pager, s': Pager, view: View)
    requires s' == s.(replies := s'.replies)
    ensures Inv(s, view) ==> Inv(s', view)
    ensures Calm(s, view) ==> Calm(s', view)
  {
    hide Core, Pids;
    if Inv(s, view) {
      InvCore(s, view);
      CoreSame(s, s', view, OutOf(s), LimboOf(s));
      InvKeeps(s, s', view, view);
    }
    if Calm(s, view) {
      CoreSame(s, s', view, None, None);
      CalmKeeps(s, s', view, view);
    }
  }
}
