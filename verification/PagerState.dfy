/** The demand pager: its state, and the invariant that makes paging invisible. */
module PagerState {
  import opened Options
  import opened SeqUtil
  import opened Words

  const PAGESIZE: nat := 4096
  const IO_MAX_BUFFER: nat := 1100
  const SWAPSIZE: nat := 1013
  const NIL_FILE: int := -1

  /** The mark for "every page of the process" among the addresses of swap slots */
  const ADDRESS_ALL: nat := 0xFFFF_FFFF

  type Page = seq<Byte>
  type Pid = nat
  type Frame = nat

  /** A page of a process, by its aligned address */
  datatype Vpage = Vpage(pid: Pid, page: nat)

  /** A page-table word: a frame or a swap slot, with the SWAP and REF bits */
  datatype Entry = Entry(addr: nat, swap: bool, refd: bool)

  const ZERO: Entry := Entry(0, false, false)

  datatype Stage =
    | WAITING
    | SWAPIN_OPEN | SWAPIN_LSEEK | SWAPIN_READ | SWAPIN_CLOSE
    | SWAPOUT_OPEN | SWAPOUT_WRITE | SWAPOUT_CLOSE
    | ELFLOAD_OPEN | ELFLOAD_CHECK_EXEC | ELFLOAD_READ_HEADER | ELFLOAD_CLOSE

  datatype Request =
    | Swapin(vp: Vpage, stage: Stage, offset: nat)
    | Swapout(owner: Pid, frame: Frame, disk: nat, stage: Stage, offset: nat)
    | Elfload(parent: Pid, stage: Stage)

  /** The file operation whose reply the pager is waiting for, with the descriptor it is for */
  datatype Io =
    | NoIo
    | OpenIo
    | SeekIo(fd: int, pos: nat)
    | ReadIo(fd: int, n: nat)
    | WriteIo(fd: int, data: seq<Byte>)
    | CloseIo(fd: int)
    | ElfIo(stage: Stage)

  /** The frames and the free ones among them, first to be handed out first */
  datatype Ram = Ram(mem: map<Frame, Page>, free: seq<Frame>)

  /** The swap file, and who holds which slot of it */
  datatype Disk = Disk(
    file: seq<Byte>,
    fp: nat,
    fd: int,                     // the descriptor the pager has noted
    handle: int,                 // the descriptor the file system has given out
    io: Io,
    slots: seq<nat>,
    swapped: seq<(Pid, nat)>)

  /** The swap file is not open, and nothing is asked of it. */
  ghost predicate Shut(d: Disk) {
    d.fd == NIL_FILE && d.handle == NIL_FILE && d.io == NoIo
  }

  /** It is open, and the pager has noted the descriptor. */
  ghost predicate Open(d: Disk) {
    d.fd == d.handle && d.handle != NIL_FILE
  }

  datatype Pager = Pager(
    pt: map<Vpage, Entry>,       // the page tables of all processes
    ram: Ram,
    disk: Disk,
    total: nat,                  // totalPages
    pool: nat,                   // the number of frames the pager was given
    allocLimit: int,
    alloced: seq<Vpage>,         // the resident pages, in second-chance order
    requests: seq<Request>,
    active: bool,                // requestActive
    pinned: Frame,               // pinnedFrame, 0 for none
    mapped: set<Vpage>,          // the pages the processor can reach
    procs: set<Pid>,
    replies: seq<Pid>)           // the processes woken, in order

  /** What each page holds, as its process sees it */
  type View = map<Vpage, Page>

  /** A page on its way out: its frame, and the slot it goes to */
  datatype Out = Out(frame: Frame, disk: nat)

  function Lookup(pt: map<Vpage, Entry>, vp: Vpage): Entry {
    if vp in pt then pt[vp] else ZERO
  }

  predicate Resident(e: Entry) {
    !e.swap && e.addr != 0
  }

  // ---------------------------------------------------------------- frames

  /** Every frame is free, or holds one resident page, or is held by the pager itself. */
  ghost predicate FramesOk(pt: map<Vpage, Entry>, alloced: seq<Vpage>, ram: Ram, held: seq<Frame>) {
    && Unique(alloced) && Unique(ram.free) && Unique(held)
    && (forall vp :: vp in alloced <==> vp in pt && Resident(pt[vp]))
    && (forall v, w :: v in alloced && w in alloced && pt[v].addr == pt[w].addr ==> v == w)
    && (forall vp :: vp in alloced ==> pt[vp].addr !in ram.free && pt[vp].addr !in held && pt[vp].addr in ram.mem)
    && (forall f :: f in ram.free ==> f !in held && f in ram.mem)
    && (forall f :: f in held ==> f in ram.mem)
    && (forall f :: f in ram.mem ==> f != 0 && |ram.mem[f]| == PAGESIZE)
  }

  ghost function Held(pinned: Frame, out: Option<Out>): seq<Frame> {
    (if out.Some? then [out.value.frame] else []) + (if pinned != 0 then [pinned] else [])
  }

  /** The frame budget: what is left of it, the resident pages and the page on its way out
      are together the whole budget.  The pool is large enough for the budget and one pin. */
  ghost predicate Counts(s: Pager, out: Option<Out>) {
    && s.allocLimit >= 0 && s.total >= 1 && s.pool >= s.total + 1
    && s.allocLimit + |s.alloced| + (if out.Some? then 1 else 0) == s.total
    && |s.ram.free| + |s.alloced| + |Held(s.pinned, out)| == s.pool
  }

  // ---------------------------------------------------------------- swap slots

  ghost predicate IsSlot(a: nat) {
    a % PAGESIZE == 0 && a / PAGESIZE < SWAPSIZE
  }

  /** Every slot is free or listed once as handed out; a page on disk has one of its own. */
  ghost predicate SlotsOk(pt: map<Vpage, Entry>, d: Disk) {
    && |d.file| == SWAPSIZE * PAGESIZE
    && Unique(d.slots) && (forall k :: k in d.slots ==> k < SWAPSIZE)
    && (forall i :: 0 <= i < |d.swapped| ==> IsSlot(d.swapped[i].1) && d.swapped[i].1 / PAGESIZE !in d.slots)
    && (forall i, j :: 0 <= i < j < |d.swapped| ==> d.swapped[i].1 != d.swapped[j].1)
    && |d.slots| + |d.swapped| == SWAPSIZE
    && (forall vp :: vp in pt && pt[vp].swap ==> (vp.pid, pt[vp].addr) in d.swapped)
    && (forall v, w :: v in pt && w in pt && pt[v].swap && pt[w].swap && pt[v].addr == pt[w].addr ==> v == w)
  }

  ghost predicate OutOk(d: Disk, out: Option<Out>) {
    out.Some? ==> exists i :: 0 <= i < |d.swapped| && d.swapped[i].1 == out.value.disk
  }

  // ---------------------------------------------------------------- frame_alloc and frame_free

  /** Take the first free frame; 0 when there is none. */
  function FrameAlloc(ram: Ram): (r: (Ram, Frame)) {
    if |ram.free| == 0 then (ram, 0) else (ram.(free := ram.free[1..]), ram.free[0])
  }

  /** Put a frame at the front of the free list, whose old front is noted in its first word. */
  function FrameFree(ram: Ram, f: Frame): (r: Ram)
    requires f in ram.mem && |ram.mem[f]| == PAGESIZE
  {
    Ram(ram.mem[f := Stamped(ram.mem[f], if |ram.free| == 0 then 0 else ram.free[0])], [f] + ram.free)
  }

  // ---------------------------------------------------------------- contents

  ghost function SlotAt(file: seq<Byte>, a: nat): Page {
    if a + PAGESIZE <= |file| then file[a..a + PAGESIZE] else []
  }

  function FrameAt(ram: Ram, f: Frame): Page {
    if f in ram.mem then ram.mem[f] else []
  }

  /** The page is somewhere: in a frame, on disk, or read in and waiting for a frame. */
  ghost predicate Touched(pt: map<Vpage, Entry>, limbo: Option<Vpage>, vp: Vpage) {
    limbo == Some(vp) || (vp in pt && (pt[vp].swap || pt[vp].addr != 0))
  }

  /** Where the bytes of a page are */
  ghost function ContentOf(s: Pager, out: Option<Out>, vp: Vpage): Page {
    var e := Lookup(s.pt, vp);
    if e.swap then
      if out.Some? && out.value.disk == e.addr then FrameAt(s.ram, out.value.frame) else SlotAt(s.disk.file, e.addr)
    else if e.addr != 0 then FrameAt(s.ram, e.addr)
    else FrameAt(s.ram, s.pinned)
  }

  /** Paging is invisible: every page holds what its process last saw in it. */
  ghost predicate Transparent(s: Pager, view: View, out: Option<Out>, limbo: Option<Vpage>) {
    && (forall vp :: vp in view <==> Touched(s.pt, limbo, vp))
    && (forall vp :: vp in view ==> view[vp] == ContentOf(s, out, vp))
  }

  ghost predicate TablesOk(s: Pager, limbo: Option<Vpage>) {
    && (forall vp :: vp in s.mapped ==> vp in s.pt && Resident(s.pt[vp]) && s.pt[vp].refd)
    && (forall vp :: vp in s.pt && s.pt[vp] != ZERO ==> vp.pid in s.procs)
    && (forall vp :: vp in s.pt && !Resident(s.pt[vp]) ==> !s.pt[vp].refd)
    && (limbo.Some? ==> Lookup(s.pt, limbo.value) == ZERO && s.pinned != 0 && limbo.value.pid in s.procs)
  }

  ghost predicate Core(s: Pager, view: View, out: Option<Out>, limbo: Option<Vpage>) {
    && FramesOk(s.pt, s.alloced, s.ram, Held(s.pinned, out))
    && Counts(s, out)
    && SlotsOk(s.pt, s.disk) && OutOk(s.disk, out)
    && TablesOk(s, limbo)
    && Transparent(s, view, out, limbo)
  }

  // ---------------------------------------------------------------- the request queue

  /** The processes waiting in the queue; a swap-out waits for nobody of its own. */
  ghost function Pids(rs: seq<Request>): seq<Pid> {
    if |rs| == 0 then [] else
      Pids(rs[..|rs| - 1]) +
      match rs[|rs| - 1]
      case Swapin(vp, _, _) => [vp.pid]
      case Elfload(parent, _) => [parent]
      case Swapout(_, _, _, _, _) => []
  }

  ghost predicate IsElfStage(stage: Stage) {
    stage == ELFLOAD_OPEN || stage == ELFLOAD_CHECK_EXEC || stage == ELFLOAD_READ_HEADER || stage == ELFLOAD_CLOSE
  }

  /** A request that has not been started: its page is not resident. */
  ghost predicate Waiting(s: Pager, r: Request) {
    match r
    case Swapin(vp, _, _) => vp.pid in s.procs && !Resident(Lookup(s.pt, vp))
    case Elfload(parent, stage) => parent in s.procs && IsElfStage(stage)
    case Swapout(_, _, _, _, _) => false
  }

  ghost predicate AllWaiting(s: Pager, rs: seq<Request>) {
    forall i :: 0 <= i < |rs| ==> Waiting(s, rs[i])
  }

  /** Between requests: nothing in flight, and only unstarted requests in the queue. */
  ghost predicate Calm(s: Pager, view: View) {
    && Core(s, view, None, None) && s.pinned == 0 && Shut(s.disk)
    && AllWaiting(s, s.requests) && Unique(Pids(s.requests))
  }

  /** How far the swap-in at the head has got: the pin holds the part of the slot read so far. */
  ghost predicate SwapinAt(s: Pager, vp: Vpage, stage: Stage, offset: nat) {
    var a, d := Lookup(s.pt, vp).addr, s.disk;
    match stage
    case SWAPIN_OPEN => d.io == OpenIo && d.fd == NIL_FILE && d.handle == NIL_FILE
    case SWAPIN_LSEEK => d.io == SeekIo(d.handle, a) && Open(d) && offset == 0
    case SWAPIN_READ =>
      && offset < PAGESIZE && d.io == ReadIo(d.handle, Min(IO_MAX_BUFFER, PAGESIZE - offset)) && Open(d)
      && d.fp == a + offset
      && |FrameAt(s.ram, s.pinned)| == PAGESIZE && |SlotAt(d.file, a)| == PAGESIZE
      && FrameAt(s.ram, s.pinned)[..offset] == SlotAt(d.file, a)[..offset]
    case SWAPIN_CLOSE =>
      && d.io == CloseIo(d.handle) && d.handle != NIL_FILE && d.fd == NIL_FILE
      && FrameAt(s.ram, s.pinned) == SlotAt(d.file, a)
    case _ => false
  }

  /** How far the swap-out at the head has got: the slot holds what has been written so far. */
  ghost predicate SwapoutAt(s: Pager, frame: Frame, disk: nat, stage: Stage, offset: nat) {
    var d, page := s.disk, FrameAt(s.ram, frame);
    match stage
    case SWAPOUT_OPEN => d.io == OpenIo && d.fd == NIL_FILE && d.handle == NIL_FILE
    case SWAPOUT_WRITE =>
      && Open(d) && offset <= PAGESIZE && |page| == PAGESIZE && |SlotAt(d.file, disk)| == PAGESIZE
      && (|| (d.io == SeekIo(d.handle, disk) && offset == 0)
          || (d.io.WriteIo? && d.io.fd == d.handle && |d.io.data| <= offset && d.fp == disk + offset - |d.io.data|
              && d.io.data == page[offset - |d.io.data|..offset]
              && SlotAt(d.file, disk)[..offset - |d.io.data|] == page[..offset - |d.io.data|]))
    case SWAPOUT_CLOSE =>
      && d.io == CloseIo(d.handle) && d.handle != NIL_FILE && d.fd == NIL_FILE && SlotAt(d.file, disk) == page
    case _ => false
  }

  /** The invariant between messages.  An active queue is a swap-out followed by the swap-in it
      is for, or a swap-in, or an ELF load; behind that only unstarted requests. */
  ghost predicate Inv(s: Pager, view: View) {
    if |s.requests| == 0 then Calm(s, view) && !s.active
    else
      && s.active && Unique(Pids(s.requests))
      && match s.requests[0]
         case Elfload(_, _) =>
           && Core(s, view, None, None) && s.pinned == 0 && Shut(s.disk.(io := NoIo))
           && s.disk.io == ElfIo(s.requests[0].stage) && AllWaiting(s, s.requests)
         case Swapin(vp, stage, offset) =>
           && Core(s, view, None, None) && s.pinned != 0 && Lookup(s.pt, vp).swap
           && AllWaiting(s, s.requests) && SwapinAt(s, vp, stage, offset)
         case Swapout(_, frame, disk, stage, offset) =>
           && |s.requests| > 1 && s.requests[1].Swapin? && Lookup(s.pt, s.requests[1].vp) == ZERO
           && Core(s, view, Some(Out(frame, disk)), if s.pinned != 0 then Some(s.requests[1].vp) else None)
           && AllWaiting(s, s.requests[1..]) && SwapoutAt(s, frame, disk, stage, offset)
  }
}
