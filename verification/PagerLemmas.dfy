/** What each kind of step does to the parts of the pager's invariant. */
module PagerLemmas {
  import opened Options
  import opened SeqUtil
  import opened Words
  import opened PagerState

  // ---------------------------------------------------------------- frames

  /** Take the first free frame for the pager itself. */
  lemma {:induction false} FramesPin(pt: map<Vpage, Entry>, alloced: seq<Vpage>, ram: Ram, held: seq<Frame>)
    requires FramesOk(pt, alloced, ram, held) && |ram.free| > 0
    ensures FramesOk(pt, alloced, ram.(free := ram.free[1..]), held + [ram.free[0]])
    ensures ram.free[0] != 0 && ram.free[0] in ram.mem && ram.free[0] !in held
  {
    UniqueTail(ram.free);
    UniquePush(held, ram.free[0]);
  }

  /** Give the first free frame to a page that has none. */
  lemma {:induction false} FramesGive(pt: map<Vpage, Entry>, alloced: seq<Vpage>, ram: Ram, held: seq<Frame>,
      vp: Vpage, e: Entry)
    requires FramesOk(pt, alloced, ram, held) && |ram.free| > 0
    requires vp !in alloced && e == Entry(ram.free[0], false, true)
    ensures FramesOk(pt[vp := e], alloced + [vp], ram.(free := ram.free[1..]), held)
    ensures ram.free[0] != 0 && ram.free[0] in ram.mem
  {
    UniqueTail(ram.free);
    UniquePush(alloced, vp);
  }

  /** Put a held frame back on the free list; its first word is overwritten. */
  lemma {:induction false} FramesFree(pt: map<Vpage, Entry>, alloced: seq<Vpage>, ram: Ram, held: seq<Frame>,
      f: Frame, rest: seq<Frame>, page: Page)
    requires FramesOk(pt, alloced, ram, held) && f in held && |page| == PAGESIZE
    requires Unique(rest) && (forall x :: x in held <==> x == f || x in rest) && f !in rest
    ensures FramesOk(pt, alloced, Ram(ram.mem[f := page], [f] + ram.free), rest)
  {
    UniquePush(ram.free, f);
  }

  /** Take a resident page off its frame, which the pager then holds. */
  lemma {:induction false} FramesTake(pt: map<Vpage, Entry>, alloced: seq<Vpage>, alloced': seq<Vpage>, ram: Ram,
      held: seq<Frame>, vp: Vpage, e: Entry)
    requires FramesOk(pt, alloced, ram, held) && vp in alloced && !Resident(e)
    requires Unique(alloced') && (forall x :: x in alloced <==> x == vp || x in alloced') && vp !in alloced'
    ensures FramesOk(pt[vp := e], alloced', ram, [pt[vp].addr] + held)
    ensures pt[vp].addr != 0 && pt[vp].addr in ram.mem && pt[vp].addr !in held
  {
    UniquePush(held, pt[vp].addr);
  }

  /** Changing the entry of a page that stays where it is. */
  lemma {:induction false} FramesEntry(pt: map<Vpage, Entry>, alloced: seq<Vpage>, ram: Ram, held: seq<Frame>,
      vp: Vpage, e: Entry)
    requires FramesOk(pt, alloced, ram, held)
    requires if Resident(Lookup(pt, vp)) then Resident(e) && e.addr == pt[vp].addr else !Resident(e)
    ensures FramesOk(pt[vp := e], alloced, ram, held)
  {
  }

  lemma {:induction false} FramesReorder(pt: map<Vpage, Entry>, alloced: seq<Vpage>, alloced': seq<Vpage>,
      ram: Ram, held: seq<Frame>)
    requires FramesOk(pt, alloced, ram, held) && Unique(alloced') && forall x :: x in alloced <==> x in alloced'
    ensures FramesOk(pt, alloced', ram, held)
  {
  }

  lemma {:induction false} FramesWrite(pt: map<Vpage, Entry>, alloced: seq<Vpage>, ram: Ram, held: seq<Frame>,
      f: Frame, page: Page)
    requires FramesOk(pt, alloced, ram, held) && f in ram.mem && |page| == PAGESIZE
    ensures FramesOk(pt, alloced, ram.(mem := ram.mem[f := page]), held)
  {
  }

  // ---------------------------------------------------------------- slots

  /** Hand out the first free slot to a page that had none. */
  lemma {:induction false} SlotsAlloc(pt: map<Vpage, Entry>, d: Disk, vp: Vpage)
    requires SlotsOk(pt, d) && |d.slots| > 0 && !Lookup(pt, vp).swap
    ensures var a := d.slots[0] * PAGESIZE;
      && IsSlot(a) && (forall v :: v in pt && pt[v].swap ==> pt[v].addr != a)
      && SlotsOk(pt[vp := Entry(a, true, false)], d.(slots := d.slots[1..], swapped := d.swapped + [(vp.pid, a)]))
  {
    var a := d.slots[0] * PAGESIZE;
    UniqueTail(d.slots);
    assert a / PAGESIZE == d.slots[0] && a % PAGESIZE == 0;
    assert forall i :: 0 <= i < |d.swapped| ==> d.swapped[i].1 != a;
    var sw := d.swapped + [(vp.pid, a)];
    assert forall x :: x in d.swapped ==> x in sw;
    assert sw[|d.swapped|] == (vp.pid, a);
  }

  lemma {:induction false} SlotsEntry(pt: map<Vpage, Entry>, d: Disk, vp: Vpage, e: Entry)
    requires SlotsOk(pt, d) && !e.swap
    ensures SlotsOk(pt[vp := e], d)
  {
  }

  /** Take slot `k` of the list `swapped` back. */
  lemma {:induction false} SlotsFree(pt: map<Vpage, Entry>, d: Disk, k: nat)
    requires SlotsOk(pt, d) && k < |d.swapped|
    requires forall v :: v in pt && pt[v].swap ==> pt[v].addr != d.swapped[k].1
    ensures SlotsOk(pt, d.(slots := [d.swapped[k].1 / PAGESIZE] + d.slots,
                           swapped := d.swapped[..k] + d.swapped[k + 1..]))
  {
    var a := d.swapped[k].1;
    var sw := d.swapped[..k] + d.swapped[k + 1..];
    UniquePush(d.slots, a / PAGESIZE);
    forall i | 0 <= i < |sw| ensures IsSlot(sw[i].1) && sw[i].1 / PAGESIZE !in [a / PAGESIZE] + d.slots {
      var j := if i < k then i else i + 1;
      assert sw[i] == d.swapped[j];
      assert sw[i].1 == sw[i].1 / PAGESIZE * PAGESIZE && a == a / PAGESIZE * PAGESIZE;
    }
    forall vp | vp in pt && pt[vp].swap ensures (vp.pid, pt[vp].addr) in sw {
      var j :| 0 <= j < |d.swapped| && d.swapped[j] == (vp.pid, pt[vp].addr);
      assert j != k;
      assert sw[if j < k then j else j - 1] == d.swapped[j];
    }
  }

  lemma {:induction false} SlotsFile(pt: map<Vpage, Entry>, d: Disk, file: seq<Byte>)
    requires SlotsOk(pt, d) && |file| == |d.file|
    ensures SlotsOk(pt, d.(file := file))
  {
  }

  // ---------------------------------------------------------------- the whole invariant

  /** Pin a frame to read a page into. */
  lemma {:induction false} CorePin(s: Pager, view: View)
    requires Core(s, view, None, None) && s.pinned == 0
    ensures |s.ram.free| > 0 && s.ram.free[0] != 0 && |FrameAt(s.ram, s.ram.free[0])| == PAGESIZE
    ensures Core(s.(ram := FrameAlloc(s.ram).0, pinned := s.ram.free[0]), view, None, None)
  {
    hide FramesOk, SlotsOk;
    assert Held(0, None) == [];
    FramesPin(s.pt, s.alloced, s.ram, []);
    assert Held(s.ram.free[0], None) == [] + [s.ram.free[0]];
    FramesSize(s.pt, s.alloced, s.ram, [], s.ram.free[0]);
  }

  lemma {:induction false} FramesSize(pt: map<Vpage, Entry>, alloced: seq<Vpage>, ram: Ram, held: seq<Frame>, f: Frame)
    requires FramesOk(pt, alloced, ram, held) && f in ram.mem
    ensures f != 0 && |ram.mem[f]| == PAGESIZE
  {
  }

  /** The state once a page without a frame has been given one holding `page`. */
  ghost function Given(s: Pager, vp: Vpage, page: Page): Pager
    requires |s.ram.free| > 0
  {
    var f := s.ram.free[0];
    s.(pt := s.pt[vp := Entry(f, false, true)], ram := Ram(s.ram.mem[f := page], s.ram.free[1..]),
       alloced := s.alloced + [vp], allocLimit := s.allocLimit - 1, mapped := s.mapped + {vp})
  }

  /** Once `vp` has a frame its bytes no longer wait in the pin. */
  ghost function Settled(limbo: Option<Vpage>, vp: Vpage): Option<Vpage> {
    if limbo == Some(vp) then None else limbo
  }

  /** Give a page its frame: one that is touched for the first time, or one that has been read
      in and whose bytes are now copied from the pin. */
  lemma {:induction false} CoreGive(s: Pager, view: View, out: Option<Out>, limbo: Option<Vpage>, vp: Vpage, page: Page)
    requires Core(s, view, out, limbo) && s.allocLimit > 0 && vp.pid in s.procs
    requires Lookup(s.pt, vp) == ZERO && |page| == PAGESIZE
    requires vp in view ==> view[vp] == page
    ensures |s.ram.free| > 0
    ensures Core(Given(s, vp, page), view[vp := page], out, Settled(limbo, vp))
  {
    hide FramesOk, SlotsOk, Transparent;
    var held := Held(s.pinned, out);
    NotResident(s.pt, s.alloced, s.ram, held, vp);
    var f := s.ram.free[0];
    FramesGive(s.pt, s.alloced, s.ram, held, vp, Entry(f, false, true));
    var ram' := s.ram.(free := s.ram.free[1..]);
    FramesWrite(s.pt[vp := Entry(f, false, true)], s.alloced + [vp], ram', held, f, page);
    SlotsEntry(s.pt, s.disk, vp, Entry(f, false, true));
    GiveTransparent(s, view, out, limbo, vp, page);
  }

  lemma {:induction false} GiveTransparent(s: Pager, view: View, out: Option<Out>, limbo: Option<Vpage>, vp: Vpage,
      page: Page)
    requires Core(s, view, out, limbo) && |s.ram.free| > 0
    requires Lookup(s.pt, vp) == ZERO && s.ram.free[0] != 0
    ensures Transparent(Given(s, vp, page), view[vp := page], out, Settled(limbo, vp))
  {
    hide FramesOk, SlotsOk, Counts;
    FreshFrame(s, view, out, limbo);
  }

  lemma {:induction false} NotResident(pt: map<Vpage, Entry>, alloced: seq<Vpage>, ram: Ram, held: seq<Frame>,
      vp: Vpage)
    requires FramesOk(pt, alloced, ram, held) && !Resident(Lookup(pt, vp))
    ensures vp !in alloced
  {
  }

  /** The first free frame holds no page of any process. */
  lemma {:induction false} FreshFrame(s: Pager, view: View, out: Option<Out>, limbo: Option<Vpage>)
    requires Core(s, view, out, limbo) && |s.ram.free| > 0
    ensures var f := s.ram.free[0];
      && (forall vp :: vp in s.pt && Resident(s.pt[vp]) ==> s.pt[vp].addr != f && s.pt[vp].addr in s.ram.mem)
      && f != s.pinned && (out.Some? ==> out.value.frame != f)
  {
    var f, held := s.ram.free[0], Held(s.pinned, out);
    assert f in s.ram.free;
    assert s.pinned != 0 ==> s.pinned in held;
    assert out.Some? ==> out.value.frame == held[0];
  }

  /** Give the pin back. */
  lemma {:induction false} CoreUnpin(s: Pager, view: View, out: Option<Out>)
    requires Core(s, view, out, None) && s.pinned != 0
    ensures s.pinned in s.ram.mem && |s.ram.mem[s.pinned]| == PAGESIZE
    ensures Core(s.(ram := FrameFree(s.ram, s.pinned), pinned := 0), view, out, None)
  {
    hide SlotsOk, Transparent, FramesOk;
    var held, rest := Held(s.pinned, out), Held(0, out);
    FramesHeld(s.pt, s.alloced, s.ram, held);
    HeldPin(s.pinned, out);
    assert s.pinned in held;
    FramesSize(s.pt, s.alloced, s.ram, held, s.pinned);
    FramesFree(s.pt, s.alloced, s.ram, held, s.pinned, rest,
               Stamped(s.ram.mem[s.pinned], if |s.ram.free| == 0 then 0 else s.ram.free[0]));
    FreeTransparent(s, view, out, s.pinned, None);
    UnpinTransparent(s.(ram := FrameFree(s.ram, s.pinned)), view, out);
  }

  lemma {:induction false} FramesHeld(pt: map<Vpage, Entry>, alloced: seq<Vpage>, ram: Ram, held: seq<Frame>)
    requires FramesOk(pt, alloced, ram, held)
    ensures Unique(held) && forall f :: f in held ==> f in ram.mem
  {
  }

  /** Writing to a frame that holds no page of any process changes no page. */
  lemma {:induction false} FreeTransparent(s: Pager, view: View, out: Option<Out>, f: Frame, limbo: Option<Vpage>)
    requires FramesOk(s.pt, s.alloced, s.ram, Held(s.pinned, out)) && Transparent(s, view, out, limbo)
    requires f in Held(s.pinned, out) && |s.ram.mem[f]| == PAGESIZE
    requires limbo.Some? ==> f != s.pinned
    requires out.Some? && out.value.frame == f ==> SlotAt(s.disk.file, out.value.disk) == s.ram.mem[f]
    ensures Transparent(s.(ram := FrameFree(s.ram, f)), view,
                        if out.Some? && out.value.frame == f then None else out, limbo)
  {
  }

  lemma {:induction false} UnpinTransparent(s: Pager, view: View, out: Option<Out>)
    requires Transparent(s, view, out, None)
    ensures Transparent(s.(pinned := 0), view, out, None)
  {
  }

  lemma {:induction false} HeldPin(pinned: Frame, out: Option<Out>)
    requires pinned != 0 && Unique(Held(pinned, out))
    ensures var held, rest := Held(pinned, out), Held(0, out);
      && Unique(rest) && pinned !in rest && held == rest + [pinned]
  {
    var held, rest := Held(pinned, out), Held(0, out);
    assert held == rest + [pinned];
    assert held[|rest|] == pinned && forall i :: 0 <= i < |rest| ==> rest[i] == held[i];
  }

  /** The page read in is no longer on disk; until it has a frame its bytes are in the pin. */
  lemma {:induction false} CoreRead(s: Pager, view: View, vp: Vpage, k: nat)
    requires Core(s, view, None, None) && s.pinned != 0 && vp in s.pt && s.pt[vp].swap
    requires FrameAt(s.ram, s.pinned) == SlotAt(s.disk.file, s.pt[vp].addr)
    requires k < |s.disk.swapped| && s.disk.swapped[k] == (vp.pid, s.pt[vp].addr)
    ensures var d := s.disk.(slots := [s.pt[vp].addr / PAGESIZE] + s.disk.slots,
                             swapped := s.disk.swapped[..k] + s.disk.swapped[k + 1..]);
      Core(s.(pt := s.pt[vp := ZERO], disk := d), view, None, Some(vp))
  {
    hide FramesOk, Transparent;
    FramesEntry(s.pt, s.alloced, s.ram, Held(s.pinned, None), vp, ZERO);
    SlotsEntry(s.pt, s.disk, vp, ZERO);
    SlotsFree(s.pt[vp := ZERO], s.disk, k);
    ReadTransparent(s, view, vp, s.disk.(slots := [s.pt[vp].addr / PAGESIZE] + s.disk.slots,
                                         swapped := s.disk.swapped[..k] + s.disk.swapped[k + 1..]));
  }

  /** The page read is seen in the pinned frame from now on. */
  lemma {:induction false} ReadTransparent(s: Pager, view: View, vp: Vpage, d: Disk)
    requires Transparent(s, view, None, None) && s.pinned != 0 && vp in s.pt && s.pt[vp].swap
    requires FrameAt(s.ram, s.pinned) == SlotAt(s.disk.file, s.pt[vp].addr) && d.file == s.disk.file
    ensures Transparent(s.(pt := s.pt[vp := ZERO], disk := d), view, None, Some(vp))
  {
  }

  /** Choose a victim: its frame is now on its way out to a fresh slot. */
  lemma {:induction false} CoreVictim(s: Pager, view: View, limbo: Option<Vpage>, vp: Vpage, alloced': seq<Vpage>)
    requires Core(s, view, None, limbo) && vp in s.alloced && |s.disk.slots| > 0
    requires Unique(alloced') && (forall x :: x in s.alloced <==> x == vp || x in alloced') && vp !in alloced'
    requires |alloced'| == |s.alloced| - 1
    ensures vp in s.pt && Resident(s.pt[vp])
    ensures var a := s.disk.slots[0] * PAGESIZE;
      var d := s.disk.(slots := s.disk.slots[1..], swapped := s.disk.swapped + [(vp.pid, a)]);
      Core(s.(pt := s.pt[vp := Entry(a, true, false)], alloced := alloced', disk := d, mapped := s.mapped - {vp}),
           view, Some(Out(s.pt[vp].addr, a)), limbo)
  {
    hide SlotsOk, FramesOk, Transparent;
    AllocedResident(s.pt, s.alloced, s.ram, Held(s.pinned, None), vp);
    var a, f := s.disk.slots[0] * PAGESIZE, s.pt[vp].addr;
    SlotsAlloc(s.pt, s.disk, vp);
    FramesTake(s.pt, s.alloced, alloced', s.ram, Held(s.pinned, None), vp, Entry(a, true, false));
    assert Held(s.pinned, Some(Out(f, a))) == [f] + Held(s.pinned, None);
    var sw := s.disk.swapped + [(vp.pid, a)];
    assert sw[|s.disk.swapped|].1 == a;
    VictimTransparent(s, view, limbo, vp, alloced');
  }

  lemma {:induction false} AllocedResident(pt: map<Vpage, Entry>, alloced: seq<Vpage>, ram: Ram, held: seq<Frame>,
      vp: Vpage)
    requires FramesOk(pt, alloced, ram, held) && vp in alloced
    ensures vp in pt && Resident(pt[vp])
  {
  }

  lemma {:induction false} VictimTransparent(s: Pager, view: View, limbo: Option<Vpage>, vp: Vpage,
      alloced': seq<Vpage>)
    requires SlotsOk(s.pt, s.disk) && TablesOk(s, limbo) && Transparent(s, view, None, limbo)
    requires |s.disk.slots| > 0 && vp in s.pt && Resident(s.pt[vp])
    ensures var a := s.disk.slots[0] * PAGESIZE;
      var d := s.disk.(slots := s.disk.slots[1..], swapped := s.disk.swapped + [(vp.pid, a)]);
      Transparent(s.(pt := s.pt[vp := Entry(a, true, false)], alloced := alloced', disk := d,
                      mapped := s.mapped - {vp}),
                  view, Some(Out(s.pt[vp].addr, a)), limbo)
  {
    hide SlotsOk;
    SlotsAlloc(s.pt, s.disk, vp);
  }

  /** The contents of the pages depend on the page table, the frames, the file and the pin. */
  lemma {:induction false} TransparentSame(s: Pager, s': Pager, view: View, out: Option<Out>, limbo: Option<Vpage>)
    requires Transparent(s, view, out, limbo)
    requires s'.pt == s.pt && s'.ram == s.ram && s'.disk.file == s.disk.file && s'.pinned == s.pinned
    ensures Transparent(s', view, out, limbo)
  {
  }

  /** The frame of the page on its way out, put back on the free list */
  lemma {:induction false} OutFrames(s: Pager, view: View, f: Frame, a: nat, limbo: Option<Vpage>)
    requires Core(s, view, Some(Out(f, a)), limbo)
    ensures f in s.ram.mem && |s.ram.mem[f]| == PAGESIZE && f in Held(s.pinned, Some(Out(f, a)))
    ensures s.pinned != 0 ==> s.pinned != f
    ensures FramesOk(s.pt, s.alloced, FrameFree(s.ram, f), Held(s.pinned, None))
    ensures |FrameFree(s.ram, f).free| == |s.ram.free| + 1
    ensures |Held(s.pinned, Some(Out(f, a)))| == |Held(s.pinned, None)| + 1
  {
    hide SlotsOk, FramesOk, Transparent;
    var held, rest := Held(s.pinned, Some(Out(f, a))), Held(s.pinned, None);
    assert held == [f] + rest;
    FramesHeld(s.pt, s.alloced, s.ram, held);
    UniqueTail(held);
    assert rest == held[1..];
    FramesSize(s.pt, s.alloced, s.ram, held, f);
    assert s.pinned != 0 ==> s.pinned in rest;
    FramesFree(s.pt, s.alloced, s.ram, held, f, rest,
               Stamped(s.ram.mem[f], if |s.ram.free| == 0 then 0 else s.ram.free[0]));
  }

  /** The victim is on disk: its frame goes back to the budget. */
  lemma {:induction false} CoreOut(s: Pager, view: View, f: Frame, a: nat, limbo: Option<Vpage>)
    requires Core(s, view, Some(Out(f, a)), limbo) && SlotAt(s.disk.file, a) == FrameAt(s.ram, f)
    ensures f in s.ram.mem && |s.ram.mem[f]| == PAGESIZE
    ensures Core(s.(ram := FrameFree(s.ram, f), allocLimit := s.allocLimit + 1), view, None, limbo)
  {
    hide SlotsOk, FramesOk, Transparent, FrameFree, Held;
    OutFrames(s, view, f, a, limbo);
    FreeTransparent(s, view, Some(Out(f, a)), f, limbo);
    var s1 := s.(ram := FrameFree(s.ram, f));
    TransparentSame(s1, s1.(allocLimit := s.allocLimit + 1), view, None, limbo);
  }

  /** What the invariant depends on. */
  lemma {:induction false} CoreSame(s: Pager, s': Pager, view: View, out: Option<Out>, limbo: Option<Vpage>)
    requires Core(s, view, out, limbo)
    requires s' == s.(requests := s'.requests, active := s'.active, replies := s'.replies,
                      disk := s.disk.(fp := s'.disk.fp, fd := s'.disk.fd, handle := s'.disk.handle, io := s'.disk.io))
    ensures Core(s', view, out, limbo)
  {
    hide FramesOk, Transparent;
    TransparentSame(s, s', view, out, limbo);
  }

  // ---------------------------------------------------------------- the swap file

  /** Writing inside one slot leaves every other slot alone, ... */
  lemma {:induction false} WriteApart(file: seq<Byte>, p: nat, data: seq<Byte>, a: nat, b: nat)
    requires IsSlot(a) && IsSlot(b) && a != b && |file| == SWAPSIZE * PAGESIZE
    requires a <= p && p + |data| <= a + PAGESIZE
    ensures p + |data| <= |file| && SlotAt(Written(file, p, data), b) == SlotAt(file, b)
  {
    assert a + PAGESIZE <= |file| && b + PAGESIZE <= |file|;
    assert b + PAGESIZE <= a || a + PAGESIZE <= b;
    var f' := Written(file, p, data);
    assert forall i :: b <= i < b + PAGESIZE ==> f'[i] == file[i];
  }

  /** ... and extends what the slot written to holds. */
  lemma {:induction false} WriteInside(file: seq<Byte>, a: nat, k: nat, data: seq<Byte>)
    requires IsSlot(a) && |file| == SWAPSIZE * PAGESIZE && k + |data| <= PAGESIZE
    ensures a + k + |data| <= |file| && |SlotAt(file, a)| == PAGESIZE
    ensures var f' := Written(file, a + k, data);
      |SlotAt(f', a)| == PAGESIZE && SlotAt(f', a)[..k + |data|] == SlotAt(file, a)[..k] + data
  {
    assert a + PAGESIZE <= |file|;
    var f' := Written(file, a + k, data);
    assert SlotAt(f', a)[..k + |data|] == f'[a..a + k + |data|];
    assert SlotAt(file, a)[..k] == file[a..a + k];
  }

  /** Writing to the slot of the page on its way out changes no page. */
  lemma {:induction false} CoreFile(s: Pager, view: View, f: Frame, a: nat, limbo: Option<Vpage>, p: nat,
      data: seq<Byte>)
    requires Core(s, view, Some(Out(f, a)), limbo) && a <= p && p + |data| <= a + PAGESIZE
    ensures IsSlot(a) && p + |data| <= |s.disk.file|
    ensures Core(s.(disk := s.disk.(file := Written(s.disk.file, p, data))), view, Some(Out(f, a)), limbo)
  {
    hide FramesOk;
    var file := s.disk.file;
    assert a + PAGESIZE <= |file|;
    SlotsFile(s.pt, s.disk, Written(file, p, data));
    forall vp | vp in s.pt && s.pt[vp].swap && s.pt[vp].addr != a
      ensures SlotAt(Written(file, p, data), s.pt[vp].addr) == SlotAt(file, s.pt[vp].addr)
    {
      assert (vp.pid, s.pt[vp].addr) in s.disk.swapped;
      WriteApart(file, p, data, a, s.pt[vp].addr);
    }
  }

  // ---------------------------------------------------------------- memory and reference bits

  /** While nothing waits in the pin, filling it changes no page. */
  lemma {:induction false} CoreFill(s: Pager, view: View, page: Page)
    requires Core(s, view, None, None) && s.pinned != 0 && |page| == PAGESIZE
    ensures s.pinned in s.ram.mem
    ensures Core(s.(ram := s.ram.(mem := s.ram.mem[s.pinned := page])), view, None, None)
  {
    hide SlotsOk;
    assert s.pinned == Held(s.pinned, None)[0];
    FramesWrite(s.pt, s.alloced, s.ram, Held(s.pinned, None), s.pinned, page);
  }

  /** Clearing a reference bit, taking the page out of reach and moving it back in the queue. */
  lemma {:induction false} CoreClear(s: Pager, view: View, limbo: Option<Vpage>, vp: Vpage, alloced': seq<Vpage>)
    requires Core(s, view, None, limbo) && vp in s.pt && Resident(s.pt[vp])
    requires Unique(alloced') && |alloced'| == |s.alloced| && forall x :: x in s.alloced <==> x in alloced'
    ensures Core(s.(pt := s.pt[vp := s.pt[vp].(refd := false)], alloced := alloced', mapped := s.mapped - {vp}), view,
                 None, limbo)
  {
    hide FramesOk, SlotsOk, Transparent;
    var held, e := Held(s.pinned, None), s.pt[vp].(refd := false);
    FramesReorder(s.pt, s.alloced, alloced', s.ram, held);
    FramesEntry(s.pt, alloced', s.ram, held, vp, e);
    SlotsEntry(s.pt, s.disk, vp, e);
    var s1 := s.(pt := s.pt[vp := e]);
    BitTransparent(s, view, None, limbo, vp, false);
    TransparentSame(s1, s1.(alloced := alloced', mapped := s.mapped - {vp}), view, None, limbo);
  }

  lemma {:induction false} BitTransparent(s: Pager, view: View, out: Option<Out>, limbo: Option<Vpage>, vp: Vpage,
      bit: bool)
    requires Transparent(s, view, out, limbo) && vp in s.pt && Resident(s.pt[vp])
    ensures Transparent(s.(pt := s.pt[vp := s.pt[vp].(refd := bit)]), view, out, limbo)
  {
  }

  /** Mapping a resident page again. */
  lemma {:induction false} CoreRemap(s: Pager, view: View, out: Option<Out>, limbo: Option<Vpage>, vp: Vpage)
    requires Core(s, view, out, limbo) && vp in s.pt && Resident(s.pt[vp])
    ensures Core(s.(pt := s.pt[vp := s.pt[vp].(refd := true)], mapped := s.mapped + {vp}), view, out, limbo)
  {
    hide FramesOk, SlotsOk, Transparent;
    var e := s.pt[vp].(refd := true);
    FramesEntry(s.pt, s.alloced, s.ram, Held(s.pinned, out), vp, e);
    SlotsEntry(s.pt, s.disk, vp, e);
    var s1 := s.(pt := s.pt[vp := e]);
    BitTransparent(s, view, out, limbo, vp, true);
    TransparentSame(s1, s1.(mapped := s.mapped + {vp}), view, out, limbo);
  }

  /** A process writing to a page it can reach writes to that page only. */
  lemma {:induction false} CoreUser(s: Pager, view: View, out: Option<Out>, limbo: Option<Vpage>, vp: Vpage, page: Page)
    requires Core(s, view, out, limbo) && vp in s.mapped && |page| == PAGESIZE
    ensures vp in s.pt && vp in view && s.pt[vp].addr in s.ram.mem && view[vp] == s.ram.mem[s.pt[vp].addr]
    ensures |view[vp]| == PAGESIZE
    ensures Core(s.(ram := s.ram.(mem := s.ram.mem[s.pt[vp].addr := page])), view[vp := page], out, limbo)
  {
    hide SlotsOk, FramesOk, Transparent;
    var f, held := s.pt[vp].addr, Held(s.pinned, out);
    UserTransparent(s, view, out, limbo, vp, page);
    FramesSize(s.pt, s.alloced, s.ram, held, f);
    FramesWrite(s.pt, s.alloced, s.ram, held, f, page);
  }

  lemma {:induction false} UserTransparent(s: Pager, view: View, out: Option<Out>, limbo: Option<Vpage>, vp: Vpage,
      page: Page)
    requires FramesOk(s.pt, s.alloced, s.ram, Held(s.pinned, out)) && Transparent(s, view, out, limbo)
    requires vp in s.pt && Resident(s.pt[vp]) && (limbo.Some? ==> Lookup(s.pt, limbo.value) == ZERO)
    ensures vp in view && s.pt[vp].addr in s.ram.mem && view[vp] == s.ram.mem[s.pt[vp].addr]
    ensures Transparent(s.(ram := s.ram.(mem := s.ram.mem[s.pt[vp].addr := page])), view[vp := page], out, limbo)
  {
    var held := Held(s.pinned, out);
    assert vp in s.alloced;
    assert s.pinned != 0 ==> s.pinned in held;
    assert out.Some? ==> out.value.frame == held[0];
  }
}
