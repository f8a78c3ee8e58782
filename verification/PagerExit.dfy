/** The end of a process: its frames come back, its swap slots do not. */
module PagerExit {
  import opened Options
  import opened SeqUtil
  import opened Words
  import opened PagerState
  import opened PagerLemmas
  import opened PagerStart
  import opened PagerFinish

  /** The pages of other processes, in order */
  ghost function Others(vps: seq<Vpage>, pid: Pid): seq<Vpage> {
    Filter(vps, (vp: Vpage) => vp.pid != pid)
  }

  /** The pages other processes see */
  ghost function ViewOthers(view: View, pid: Pid): View {
    map vp | vp in view && vp.pid != pid :: view[vp]
  }

  /** One page less: its frame goes back to the budget. */
  ghost function Dropped(s: Pager, vp: Vpage, alloced': seq<Vpage>): Pager
    requires vp in s.pt && s.pt[vp].addr in s.ram.mem && |s.ram.mem[s.pt[vp].addr]| == PAGESIZE
  {
    s.(pt := s.pt - {vp}, ram := FrameFree(s.ram, s.pt[vp].addr), alloced := alloced', allocLimit := s.allocLimit + 1,
       mapped := s.mapped - {vp})
  }

  lemma {:induction false} FramesDrop(pt: map<Vpage, Entry>, alloced: seq<Vpage>, alloced': seq<Vpage>, ram: Ram,
      held: seq<Frame>, vp: Vpage, page: Page)
    requires FramesOk(pt, alloced, ram, held) && vp in alloced && |page| == PAGESIZE
    requires Unique(alloced') && (forall x :: x in alloced <==> x == vp || x in alloced') && vp !in alloced'
    ensures vp in pt && Resident(pt[vp]) && pt[vp].addr in ram.mem && |ram.mem[pt[vp].addr]| == PAGESIZE
    ensures pt[vp].addr !in held
    ensures FramesOk(pt - {vp}, alloced', Ram(ram.mem[pt[vp].addr := page], [pt[vp].addr] + ram.free), held)
  {
    UniquePush(ram.free, pt[vp].addr);
  }

  lemma {:induction false} CoreDrop(s: Pager, view: View, out: Option<Out>, limbo: Option<Vpage>, vp: Vpage,
      alloced': seq<Vpage>)
    requires Core(s, view, out, limbo) && vp in s.alloced && |alloced'| == |s.alloced| - 1
    requires Unique(alloced') && (forall x :: x in s.alloced <==> x == vp || x in alloced') && vp !in alloced'
    ensures vp in s.pt && Resident(s.pt[vp]) && s.pt[vp].addr in s.ram.mem && |s.ram.mem[s.pt[vp].addr]| == PAGESIZE
    ensures Core(Dropped(s, vp, alloced'), view - {vp}, out, limbo)
    ensures s.pt[vp].addr !in Held(s.pinned, out)
  {
    hide FramesOk, SlotsOk, Transparent;
    var held := Held(s.pinned, out);
    AllocedResident(s.pt, s.alloced, s.ram, held, vp);
    FrameBehind(s.pt, s.alloced, s.ram, held, vp);
    var f := s.pt[vp].addr;
    var page := Stamped(s.ram.mem[f], if |s.ram.free| == 0 then 0 else s.ram.free[0]);
    FramesDrop(s.pt, s.alloced, alloced', s.ram, held, vp, page);
    SlotsDrop(s.pt, s.disk, {vp});
    DropTransparent(s, view, out, limbo, vp, alloced');
  }

  lemma {:induction false} FrameBehind(pt: map<Vpage, Entry>, alloced: seq<Vpage>, ram: Ram, held: seq<Frame>,
      vp: Vpage)
    requires FramesOk(pt, alloced, ram, held) && vp in alloced
    ensures vp in pt && pt[vp].addr in ram.mem && |ram.mem[pt[vp].addr]| == PAGESIZE
  {
  }

  lemma {:induction false} SlotsDrop(pt: map<Vpage, Entry>, d: Disk, vps: set<Vpage>)
    requires SlotsOk(pt, d)
    ensures SlotsOk(pt - vps, d)
  {
  }

  lemma {:induction false} DropTransparent(s: Pager, view: View, out: Option<Out>, limbo: Option<Vpage>, vp: Vpage,
      alloced': seq<Vpage>)
    requires FramesOk(s.pt, s.alloced, s.ram, Held(s.pinned, out)) && Transparent(s, view, out, limbo)
    requires vp in s.alloced && vp in s.pt && Resident(s.pt[vp]) && s.pt[vp].addr in s.ram.mem
    requires |s.ram.mem[s.pt[vp].addr]| == PAGESIZE && limbo != Some(vp)
    ensures Transparent(Dropped(s, vp, alloced'), view - {vp}, out, limbo)
  {
    hide FramesOk, Stamped;
    OwnFrame(s, out, vp);
    var s', f := Dropped(s, vp, alloced'), s.pt[vp].addr;
    assert forall g :: g != f ==> FrameAt(s'.ram, g) == FrameAt(s.ram, g);
    forall v | v in view - {vp} ensures (view - {vp})[v] == ContentOf(s', out, v) {
      assert Lookup(s'.pt, v) == Lookup(s.pt, v);
    }
  }

  /** The frame of a resident page is nobody else's. */
  lemma {:induction false} OwnFrame(s: Pager, out: Option<Out>, vp: Vpage)
    requires FramesOk(s.pt, s.alloced, s.ram, Held(s.pinned, out)) && vp in s.alloced && vp in s.pt
    ensures s.pinned != 0 ==> s.pt[vp].addr != s.pinned
    ensures out.Some? ==> s.pt[vp].addr != out.value.frame
    ensures s.pt[vp].addr != 0
    ensures forall v :: v in s.pt && v != vp && Resident(s.pt[v]) ==> s.pt[v].addr != s.pt[vp].addr
  {
    var held := Held(s.pinned, out);
    assert s.pinned != 0 ==> held[|held| - 1] == s.pinned;
    assert out.Some? ==> held[0] == out.value.frame;
  }

  /** The table of a process none of whose pages is resident */
  lemma {:induction false} CoreForget(s: Pager, view: View, out: Option<Out>, limbo: Option<Vpage>, pid: Pid,
      vps: set<Vpage>)
    requires Core(s, view, out, limbo) && (limbo.Some? ==> limbo.value.pid != pid)
    requires forall vp :: vp in vps <==> vp in s.pt && vp.pid == pid
    requires forall vp :: vp in s.alloced ==> vp.pid != pid
    ensures Core(s.(pt := s.pt - vps, procs := s.procs - {pid}), ViewOthers(view, pid), out, limbo)
  {
    hide SlotsOk, Transparent, FramesOk;
    SlotsDrop(s.pt, s.disk, vps);
    FramesForget(s.pt, s.alloced, s.ram, Held(s.pinned, out), vps, pid);
    ResidentIn(s.pt, s.alloced, s.ram, Held(s.pinned, out));
    ForgetTransparent(s, view, out, limbo, pid, vps);
  }

  lemma {:induction false} ResidentIn(pt: map<Vpage, Entry>, alloced: seq<Vpage>, ram: Ram, held: seq<Frame>)
    requires FramesOk(pt, alloced, ram, held)
    ensures forall vp :: vp in pt && Resident(pt[vp]) ==> vp in alloced
  {
  }

  lemma {:induction false} FramesForget(pt: map<Vpage, Entry>, alloced: seq<Vpage>, ram: Ram, held: seq<Frame>,
      vps: set<Vpage>, pid: Pid)
    requires FramesOk(pt, alloced, ram, held)
    requires (forall vp :: vp in vps ==> vp.pid == pid) && forall vp :: vp in alloced ==> vp.pid != pid
    ensures FramesOk(pt - vps, alloced, ram, held)
  {
  }

  lemma {:induction false} ForgetTransparent(s: Pager, view: View, out: Option<Out>, limbo: Option<Vpage>,
      pid: Pid, vps: set<Vpage>)
    requires Transparent(s, view, out, limbo) && (limbo.Some? ==> limbo.value.pid != pid)
    requires forall vp :: vp in vps <==> vp in s.pt && vp.pid == pid
    ensures Transparent(s.(pt := s.pt - vps, procs := s.procs - {pid}), ViewOthers(view, pid), out, limbo)
  {
  }

  /** Removing the page at `i` of what is left of the queue */
  lemma {:induction false} OthersStep(alloced: seq<Vpage>, kept: seq<Vpage>, pid: Pid, i: nat)
    requires Unique(alloced) && i < |alloced| && kept == Others(alloced[..i], pid)
    ensures Unique(kept + alloced[i..]) && Unique(kept + alloced[i + 1..])
    ensures alloced[i] !in kept + alloced[i + 1..]
    ensures forall x :: x in kept + alloced[i..] <==> x == alloced[i] || x in kept + alloced[i + 1..]
    ensures Others(alloced[..i + 1], pid) == if alloced[i].pid != pid then kept + [alloced[i]] else kept
  {
    var keep := (vp: Vpage) => vp.pid != pid;
    FilterIn(alloced[..i], keep);
    FilterUnique(alloced[..i], keep);
    assert alloced[..i + 1] == alloced[..i] + [alloced[i]];
    FilterAppend(alloced[..i], alloced[i], keep);
    assert alloced[i..] == [alloced[i]] + alloced[i + 1..];
    UniqueSplit(alloced, i);
    UniqueTail(alloced[i..]);
    assert alloced[i..][1..] == alloced[i + 1..];
    UniqueJoin(kept, alloced[i..]);
    UniqueJoin(kept, alloced[i + 1..]);
  }

  lemma {:induction false} UniqueSplit<T>(s: seq<T>, i: nat)
    requires Unique(s) && i <= |s|
    ensures Unique(s[i..]) && forall x :: x in s[..i] ==> x !in s[i..]
  {
    forall x | x in s[..i] ensures x !in s[i..] {
      var j :| 0 <= j < i && s[..i][j] == x;
      forall k | 0 <= k < |s[i..]| ensures s[i..][k] != x {
        assert s[i..][k] == s[i + k] && s[j] == x;
      }
    }
  }

  lemma {:induction false} UniqueJoin<T>(s: seq<T>, t: seq<T>)
    requires Unique(s) && Unique(t) && forall x :: x in s ==> x !in t
    ensures Unique(s + t)
  {
    forall i, j | 0 <= i < j < |s + t| ensures (s + t)[i] != (s + t)[j] {
      if i < |s| <= j {
        assert s[i] in s && t[j - |s|] in t;
      }
    }
  }

  /** Between the two states only pages of the process changed, and frames joined the budget. */
  ghost predicate Apart(s: Pager, view: View, s': Pager, view': View, out: Option<Out>, pid: Pid) {
    && s' == s.(pt := s'.pt, ram := s'.ram, alloced := s'.alloced, allocLimit := s'.allocLimit, mapped := s'.mapped)
    && ViewOthers(view', pid) == ViewOthers(view, pid)
    && s'.allocLimit + |s'.alloced| == s.allocLimit + |s.alloced| && OnDisk(s'.pt) == OnDisk(s.pt)
    && (forall vp: Vpage :: vp.pid != pid ==> Lookup(s'.pt, vp) == Lookup(s.pt, vp))
    && (forall vp: Vpage :: vp.pid != pid ==> (vp in s'.mapped <==> vp in s.mapped))
    && (forall f :: f in Held(s.pinned, out) ==> FrameAt(s'.ram, f) == FrameAt(s.ram, f))
  }

  lemma {:induction false} ApartDrop(s: Pager, view: View, s1: Pager, view1: View, out: Option<Out>, pid: Pid,
      vp: Vpage, rest: seq<Vpage>)
    requires Apart(s, view, s1, view1, out, pid) && |rest| == |s1.alloced| - 1
    requires vp.pid == pid && vp in s1.pt && s1.pt[vp].addr in s1.ram.mem && |s1.ram.mem[s1.pt[vp].addr]| == PAGESIZE
    requires s1.pt[vp].addr !in Held(s1.pinned, out) && !s1.pt[vp].swap
    ensures Apart(s, view, Dropped(s1, vp, rest), view1 - {vp}, out, pid)
  {
    assert ViewOthers(view1 - {vp}, pid) == ViewOthers(view1, pid);
  }

  /** The loop invariant of FreeFrames */
  ghost predicate Freeing(s: Pager, view: View, s1: Pager, view1: View, out: Option<Out>, limbo: Option<Vpage>,
      pid: Pid, kept: seq<Vpage>, i: nat) {
    && i <= |s.alloced| && Unique(s.alloced)
    && kept == Others(s.alloced[..i], pid) && s1.alloced == kept + s.alloced[i..]
    && Core(s1, view1, out, limbo) && Apart(s, view, s1, view1, out, pid)
  }

  lemma {:induction false} FreeingDrop(s: Pager, view: View, s1: Pager, view1: View, out: Option<Out>,
      limbo: Option<Vpage>, pid: Pid, kept: seq<Vpage>, i: nat)
    requires Freeing(s, view, s1, view1, out, limbo, pid, kept, i) && i < |s.alloced| && s.alloced[i].pid == pid
    ensures var vp := s.alloced[i];
      && vp in s1.pt && s1.pt[vp].addr in s1.ram.mem && |s1.ram.mem[s1.pt[vp].addr]| == PAGESIZE
      && Freeing(s, view, Dropped(s1, vp, kept + s.alloced[i + 1..]), view1 - {vp}, out, limbo, pid, kept, i + 1)
  {
    hide Core, Others, FrameFree, Apart, Unique;
    var vp, rest := s.alloced[i], kept + s.alloced[i + 1..];
    OthersStep(s.alloced, kept, pid, i);
    CoreDrop(s1, view1, out, limbo, vp, rest);
    ApartDrop(s, view, s1, view1, out, pid, vp, rest);
  }

  lemma {:induction false} FreeingKeep(s: Pager, view: View, s1: Pager, view1: View, out: Option<Out>,
      limbo: Option<Vpage>, pid: Pid, kept: seq<Vpage>, i: nat)
    requires Freeing(s, view, s1, view1, out, limbo, pid, kept, i) && i < |s.alloced| && s.alloced[i].pid != pid
    ensures Freeing(s, view, s1, view1, out, limbo, pid, kept + [s.alloced[i]], i + 1)
  {
    hide Core, Others, FrameFree, Apart, Unique;
    OthersStep(s.alloced, kept, pid, i);
    assert kept + s.alloced[i..] == kept + [s.alloced[i]] + s.alloced[i + 1..];
  }

  lemma {:induction false} FreeingEnds(s: Pager, view: View, s1: Pager, view1: View, out: Option<Out>,
      limbo: Option<Vpage>, pid: Pid, kept: seq<Vpage>)
    ensures Core(s, view, out, limbo) ==> Freeing(s, view, s, view, out, limbo, pid, [], 0)
    ensures Freeing(s, view, s1, view1, out, limbo, pid, kept, |s.alloced|) ==>
      Core(s1, view1, out, limbo) && Apart(s, view, s1, view1, out, pid) && s1.alloced == Others(s.alloced, pid)
    ensures forall vp :: vp in Others(s.alloced, pid) ==> vp.pid != pid
  {
    hide Core, Others, FrameFree, Apart, Unique;
    if Core(s, view, out, limbo) {
      CoreUniqueAny(s, view, out, limbo);
    }
    OthersNone(pid);
    OthersOnly(s.alloced, pid);
    ApartNone(s, view, out, pid);
    assert s.alloced[..0] == [] && [] + s.alloced == s.alloced && s.alloced[..|s.alloced|] == s.alloced;
    assert kept + s.alloced[|s.alloced|..] == kept;
  }

  /** The loop of list_delete over the resident pages: every page of the process gives its frame
      back, the others stay in order. */
  method FreeFrames(s: Pager, ghost view: View, pid: Pid, ghost out: Option<Out>, ghost limbo: Option<Vpage>)
    returns (s': Pager, ghost view': View)
    requires Core(s, view, out, limbo) && (limbo.Some? ==> limbo.value.pid != pid)
    ensures Core(s', view', out, limbo) && Apart(s, view, s', view', out, pid)
    ensures s'.alloced == Others(s.alloced, pid) && (forall vp :: vp in s'.alloced ==> vp.pid != pid)
  {
    hide Core, Others, FrameFree, Apart, Freeing;
    s', view' := s, view;
    var kept, i := [], 0;
    FreeingEnds(s, view, s, view, out, limbo, pid, []);
    while i < |s.alloced|
      invariant 0 <= i <= |s.alloced| && Freeing(s, view, s', view', out, limbo, pid, kept, i)
    {
      var vp := s.alloced[i];
      if vp.pid == pid {
        FreeingDrop(s, view, s', view', out, limbo, pid, kept, i);
        view' := view' - {vp};
        s' := s'.(pt := s'.pt - {vp}, ram := FrameFree(s'.ram, s'.pt[vp].addr), alloced := kept + s.alloced[i + 1..],
                  allocLimit := s'.allocLimit + 1, mapped := s'.mapped - {vp});
      } else {
        FreeingKeep(s, view, s', view', out, limbo, pid, kept, i);
        kept := kept + [vp];
      }
      i := i + 1;
    }
    FreeingEnds(s, view, s', view', out, limbo, pid, kept);
  }

  lemma {:induction false} ApartNone(s: Pager, view: View, out: Option<Out>, pid: Pid)
    ensures Apart(s, view, s, view, out, pid)
  {
  }

  lemma {:induction false} OthersNone(pid: Pid)
    ensures Others([], pid) == []
  {
  }

  lemma {:induction false} OthersOnly(vps: seq<Vpage>, pid: Pid)
    ensures forall vp :: vp in Others(vps, pid) <==> vp in vps && vp.pid != pid
  {
    FilterIn(vps, (vp: Vpage) => vp.pid != pid);
  }

  lemma {:induction false} CoreUniqueAny(s: Pager, view: View, out: Option<Out>, limbo: Option<Vpage>)
    requires Core(s, view, out, limbo)
    ensures Unique(s.alloced) && SlotsOk(s.pt, s.disk)
  {
  }

  /** The pages a process has on disk */
  ghost function DiskPages(s: Pager, pid: Pid): set<Vpage> {
    set vp | vp in OnDisk(s.pt) && vp.pid == pid
  }

  /** Forgetting the table of a process loses its slots, one for each page it has on disk. */
  lemma {:induction false} LeakedForget(s: Pager, s1: Pager, s': Pager, pid: Pid)
    requires OnDisk(s1.pt) == OnDisk(s.pt) && |s'.disk.swapped| == |s.disk.swapped|
    requires s'.pt == s1.pt - (set vp | vp in s1.pt && vp.pid == pid)
    ensures Leaked(s') == Leaked(s) + |DiskPages(s, pid)|
  {
    assert OnDisk(s'.pt) == OnDisk(s.pt) - DiskPages(s, pid);
    assert DiskPages(s, pid) <= OnDisk(s.pt);
  }

  /** The process is gone: its frames are back in the budget, its swap slots are lost, and nothing
      has changed for anybody else. */
  ghost predicate Deleted(s: Pager, view: View, pid: Pid, s': Pager, view': View) {
    && view' == ViewOthers(view, pid) && s'.procs == s.procs - {pid} && s'.alloced == Others(s.alloced, pid)
    && s'.allocLimit + |s'.alloced| == s.allocLimit + |s.alloced|
    && s'.disk == s.disk && s'.requests == s.requests && s'.replies == s.replies
    && s'.total == s.total && s'.pool == s.pool
    && Leaked(s') == Leaked(s) + |DiskPages(s, pid)|
    && (forall vp :: Lookup(s'.pt, vp) == if vp.pid == pid then ZERO else Lookup(s.pt, vp))
    && (forall vp :: vp in s'.mapped <==> vp in s.mapped && vp.pid != pid)
  }

  /** processDelete, for a process with no request in the queue.  Every frame of the process
      joins the budget again; what other processes see is unchanged; and the list of swap slots
      handed out is unchanged too: one slot is lost for each page the process had on disk. */
  method ProcessDelete(s: Pager, ghost view: View, pid: Pid) returns (s': Pager, ghost view': View, rval: int)
    requires Inv(s, view) && pid !in Pids(s.requests)
    ensures Inv(s', view') && Deleted(s, view, pid, s', view')
    ensures rval == if pid in s.procs then 0 else 1
  {
    hide Core, Pids, Inv, Others, SlotsOk, Transparent, FramesOk, Lookup, Leaked, OnDisk, DiskPages;
    InvCore(s, view);
    ghost var out, limbo := OutOf(s), LimboOf(s);
    if pid !in s.procs {
      Stranger(s, view, out, limbo, pid);
      NoDiskPages(s, view, out, limbo, pid);
      StrangerTables(s, view, out, limbo, pid);
      return s, view, 1;
    }
    s', view' := FreeFrames(s, view, pid, out, limbo);
    CoreUniqueAny(s', view', out, limbo);
    var d := SwapslotsFree(s'.disk, pid, ADDRESS_ALL, s'.pt);
    NotAll(s'.pt, s'.disk, pid);
    var vps := set vp | vp in s'.pt && vp.pid == pid;
    CoreForget(s', view', out, limbo, pid, vps);
    ghost var s1 := s';
    s' := s'.(disk := d, pt := s'.pt - vps, procs := s'.procs - {pid});
    LeakedForget(s, s1, s', pid);
    ForgetTables(s, view, s1, view', out, limbo, pid, s');
    view' := ViewOthers(view', pid);
    FlightHeld(s);
    InvKeeps(s, s', view, view');
    rval := 0;
  }

  /** What is left of the tables: nothing of the process, and everything of the others */
  lemma {:induction false} ForgetTables(s: Pager, view: View, s1: Pager, view1: View, out: Option<Out>,
      limbo: Option<Vpage>, pid: Pid, s': Pager)
    requires Core(s1, view1, out, limbo) && Apart(s, view, s1, view1, out, pid)
    requires forall vp :: vp in s1.alloced ==> vp.pid != pid
    requires s'.pt == s1.pt - (set vp | vp in s1.pt && vp.pid == pid) && s'.mapped == s1.mapped
    ensures forall vp :: Lookup(s'.pt, vp) == if vp.pid == pid then ZERO else Lookup(s.pt, vp)
    ensures forall vp :: vp in s'.mapped <==> vp in s.mapped && vp.pid != pid
  {
    hide SlotsOk, Transparent;
    forall vp | vp in s1.mapped ensures vp.pid != pid {
      assert vp in s1.alloced;
    }
  }

  lemma {:induction false} StrangerTables(s: Pager, view: View, out: Option<Out>, limbo: Option<Vpage>, pid: Pid)
    requires Core(s, view, out, limbo) && pid !in s.procs
    ensures forall vp :: Lookup(s.pt, vp) == if vp.pid == pid then ZERO else Lookup(s.pt, vp)
    ensures forall vp :: vp in s.mapped ==> vp.pid != pid
  {
    hide FramesOk, SlotsOk, Transparent;
  }

  lemma {:induction false} NoDiskPages(s: Pager, view: View, out: Option<Out>, limbo: Option<Vpage>, pid: Pid)
    requires Core(s, view, out, limbo) && pid !in s.procs
    ensures DiskPages(s, pid) == {}
  {
    hide FramesOk, SlotsOk, Transparent;
  }

  lemma {:induction false} NotAll(pt: map<Vpage, Entry>, d: Disk, pid: Pid)
    requires SlotsOk(pt, d)
    ensures (pid, ADDRESS_ALL) !in d.swapped
  {
    forall i | 0 <= i < |d.swapped| ensures d.swapped[i] != (pid, ADDRESS_ALL) {
      assert IsSlot(d.swapped[i].1);
    }
  }

  /** The frames in flight are frames the pager holds. */
  lemma {:induction false} FlightHeld(s: Pager)
    ensures s.pinned != 0 ==> s.pinned in Held(s.pinned, OutOf(s))
    ensures OutOf(s).Some? ==> OutOf(s).value.frame in Held(s.pinned, OutOf(s))
  {
    var held := Held(s.pinned, OutOf(s));
    assert OutOf(s).Some? ==> held[0] == OutOf(s).value.frame;
    assert s.pinned != 0 ==> held[|held| - 1] == s.pinned;
  }

  /** A process that does not exist has no pages. */
  lemma {:induction false} Stranger(s: Pager, view: View, out: Option<Out>, limbo: Option<Vpage>, pid: Pid)
    requires Core(s, view, out, limbo) && pid !in s.procs
    ensures view == ViewOthers(view, pid) && s.alloced == Others(s.alloced, pid) && s.procs == s.procs - {pid}
  {
    hide FramesOk, SlotsOk, Transparent, Others, ViewOthers;
    StrangerView(s, view, out, limbo, pid);
    StrangerPages(s.pt, s.alloced, s.ram, Held(s.pinned, out), s.procs, pid);
  }

  lemma {:induction false} StrangerView(s: Pager, view: View, out: Option<Out>, limbo: Option<Vpage>, pid: Pid)
    requires TablesOk(s, limbo) && Transparent(s, view, out, limbo) && pid !in s.procs
    ensures view == ViewOthers(view, pid)
  {
    forall vp | vp in view ensures vp.pid != pid {
      assert Touched(s.pt, limbo, vp);
    }
  }

  lemma {:induction false} StrangerPages(pt: map<Vpage, Entry>, alloced: seq<Vpage>, ram: Ram, held: seq<Frame>,
      procs: set<Pid>, pid: Pid)
    requires FramesOk(pt, alloced, ram, held) && pid !in procs
    requires forall vp :: vp in pt && pt[vp] != ZERO ==> vp.pid in procs
    ensures alloced == Others(alloced, pid)
  {
    forall vp | vp in alloced ensures vp.pid != pid {
      assert vp in pt && pt[vp] != ZERO;
    }
    FilterAll(alloced, (vp: Vpage) => vp.pid != pid);
  }
}
