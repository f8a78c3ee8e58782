/** The request queue and the second-chance queue. */
module PagerQueue {
  import opened Options
  import opened SeqUtil
  import opened PagerState
  import opened PagerLemmas

  // ---------------------------------------------------------------- the request queue

  lemma {:induction false} PidsAppend(rs: seq<Request>, r: Request)
    ensures Pids(rs + [r]) == Pids(rs) + Pids([r])
  {
    assert (rs + [r])[..|rs|] == rs && [r][..0] == [];
  }

  lemma {:induction false} PidsHead(r: Request, rs: seq<Request>)
    ensures Pids([r] + rs) == Pids([r]) + Pids(rs)
  {
    if |rs| == 0 {
      assert [r] + rs == [r];
    } else {
      var t, x := rs[..|rs| - 1], rs[|rs| - 1];
      assert [r] + rs == ([r] + t) + [x] && rs == t + [x];
      PidsHead(r, t);
      PidsAppend([r] + t, x);
      PidsAppend(t, x);
    }
  }

  /** The process a request other than a swap-out is for */
  ghost function PidOf(r: Request): Pid
    requires !r.Swapout?
  {
    if r.Swapin? then r.vp.pid else r.parent
  }

  lemma {:induction false} PidsOne(r: Request)
    ensures Pids([r]) == if r.Swapout? then [] else [PidOf(r)]
  {
    assert [r][..0] == [];
  }

  lemma {:induction false} PidsIn(rs: seq<Request>, i: nat)
    requires i < |rs| && !rs[i].Swapout?
    ensures PidOf(rs[i]) in Pids(rs)
  {
    if i < |rs| - 1 {
      assert rs[..|rs| - 1][i] == rs[i];
      PidsIn(rs[..|rs| - 1], i);
    }
  }

  /** Serving the head: its process leaves the queue, the others stay in order. */
  lemma {:induction false} PidsServe(rs: seq<Request>)
    requires |rs| > 0 && !rs[0].Swapout? && Unique(Pids(rs))
    ensures Pids(rs) == [PidOf(rs[0])] + Pids(rs[1..])
    ensures Unique(Pids(rs[1..])) && PidOf(rs[0]) !in Pids(rs[1..])
  {
    assert rs == [rs[0]] + rs[1..];
    PidsHead(rs[0], rs[1..]);
    PidsOne(rs[0]);
    UniqueTail(Pids(rs));
    assert Pids(rs)[1..] == Pids(rs[1..]);
  }

  /** Changing how far the head has got changes nobody's place. */
  lemma {:induction false} PidsSame(rs: seq<Request>, r: Request)
    requires |rs| > 0 && Pids([r]) == Pids([rs[0]])
    ensures Pids(rs[0 := r]) == Pids(rs)
  {
    assert rs == [rs[0]] + rs[1..] && rs[0 := r] == [r] + rs[1..];
    PidsHead(rs[0], rs[1..]);
    PidsHead(r, rs[1..]);
  }

  /** Requests keep waiting while no page but those of the process `pid` becomes resident. */
  lemma {:induction false} WaitingKeeps(s: Pager, s': Pager, rs: seq<Request>, pid: Pid)
    requires AllWaiting(s, rs) && pid !in Pids(rs) && s'.procs == s.procs
    requires forall vp: Vpage :: vp.pid != pid && Resident(Lookup(s'.pt, vp)) ==> Resident(Lookup(s.pt, vp))
    ensures AllWaiting(s', rs)
  {
    forall i | 0 <= i < |rs| ensures Waiting(s', rs[i]) {
      assert Waiting(s, rs[i]);
      PidsIn(rs, i);
    }
  }

  lemma {:induction false} WaitingShrinks(s: Pager, s': Pager, rs: seq<Request>)
    requires AllWaiting(s, rs) && s'.procs == s.procs
    requires forall vp :: Resident(Lookup(s'.pt, vp)) ==> Resident(Lookup(s.pt, vp))
    ensures AllWaiting(s', rs)
  {
    forall i | 0 <= i < |rs| ensures Waiting(s', rs[i]) {
      assert Waiting(s, rs[i]);
    }
  }

  // ---------------------------------------------------------------- second chance

  /** The page tables with the reference bits of some pages cleared */
  ghost function Unreferenced(pt: map<Vpage, Entry>, vps: seq<Vpage>): map<Vpage, Entry> {
    map v | v in pt :: if v in vps then pt[v].(refd := false) else pt[v]
  }

  /** Skipping over `j` referenced pages turns the queue and clears their reference bits. */
  ghost function Turned(s: Pager, j: nat): Pager
    requires j <= |s.alloced|
  {
    s.(pt := Unreferenced(s.pt, s.alloced[..j]), alloced := s.alloced[j..] + s.alloced[..j],
       mapped := s.mapped - (set v | v in s.alloced[..j]))
  }

  /** The victim is the first unreferenced page in queue order, or the page at the head when
      all are referenced; `j` pages were skipped. */
  ghost predicate Victim(s: Pager, j: nat) {
    && j <= |s.alloced|
    && (forall i :: 0 <= i < |s.alloced| ==> s.alloced[i] in s.pt)
    && (forall i :: 0 <= i < j ==> s.pt[s.alloced[i]].refd)
    && (j < |s.alloced| ==> !s.pt[s.alloced[j]].refd)
  }

  lemma {:induction false} TurnedNone(s: Pager)
    ensures Turned(s, 0) == s
  {
    assert Unreferenced(s.pt, []) == s.pt;
    assert s.alloced[0..] + s.alloced[..0] == s.alloced && s.alloced[..0] == [];
    assert s.mapped - (set v | v in s.alloced[..0]) == s.mapped;
  }

  lemma {:induction false} TurnedMore(s: Pager, j: nat)
    requires j < |s.alloced| && Unique(s.alloced) && forall i :: 0 <= i < |s.alloced| ==> s.alloced[i] in s.pt
    ensures var t, vp := Turned(s, j), s.alloced[j];
      && |t.alloced| > 0 && t.alloced[0] == vp && vp in t.pt && t.pt[vp] == s.pt[vp]
      && Turned(s, j + 1) == t.(pt := t.pt[vp := t.pt[vp].(refd := false)], alloced := t.alloced[1..] + [vp],
                                mapped := t.mapped - {vp})
  {
    hide Unreferenced;
    var t, u, vp := Turned(s, j), Turned(s, j + 1), s.alloced[j];
    var skipped := s.alloced[..j];
    assert s.alloced[..j + 1] == skipped + [vp];
    UnreferencedMore(s.pt, skipped, vp);
    assert u.alloced == t.alloced[1..] + [vp];
    assert u.mapped == t.mapped - {vp};
  }

  lemma {:induction false} UnreferencedMore(pt: map<Vpage, Entry>, vps: seq<Vpage>, vp: Vpage)
    requires vp in pt && vp !in vps
    ensures var t := Unreferenced(pt, vps);
      vp in t && t[vp] == pt[vp] && Unreferenced(pt, vps + [vp]) == t[vp := t[vp].(refd := false)]
  {
  }

  lemma {:induction false} TurnUnique(alloced: seq<Vpage>)
    requires Unique(alloced) && |alloced| > 0
    ensures var a' := alloced[1..] + [alloced[0]];
      Unique(a') && |a'| == |alloced| && forall x :: x in alloced <==> x in a'
  {
    UniqueTail(alloced);
    UniquePush(alloced[1..], alloced[0]);
  }

  /** When all pages have been skipped the queue is back where it was, and all are unreferenced. */
  lemma {:induction false} TurnedAll(s: Pager)
    requires |s.alloced| > 0 && forall i :: 0 <= i < |s.alloced| ==> s.alloced[i] in s.pt
    ensures var t := Turned(s, |s.alloced|);
      t.alloced == s.alloced && s.alloced[0] in t.pt && !t.pt[s.alloced[0]].refd
  {
    var n := |s.alloced|;
    assert s.alloced[n..] + s.alloced[..n] == s.alloced && s.alloced[..n] == s.alloced;
  }

  /** Choose the page to swap out and take it off the queue. */
  method DeleteAllocList(s: Pager, ghost view: View, ghost limbo: Option<Vpage>)
    returns (s': Pager, vp: Vpage, ghost j: nat)
    requires Core(s, view, None, limbo) && |s.alloced| > 0
    ensures Victim(s, j) && vp == (if j < |s.alloced| then s.alloced[j] else s.alloced[0])
    ensures var t := Turned(s, j); t.alloced == [vp] + s'.alloced && s' == t.(alloced := s'.alloced)
    ensures Core(Turned(s, j), view, None, limbo)
    ensures vp in s'.pt && Resident(s'.pt[vp]) && !s'.pt[vp].refd
  {
    hide Core, Turned;
    j := 0;
    var t := s;
    TurnedNone(s);
    AllocedIn(s, view, limbo);
    while true
      invariant 0 <= j <= |s.alloced| && t == Turned(s, j) && Core(t, view, None, limbo)
      invariant forall i :: 0 <= i < j ==> s.pt[s.alloced[i]].refd
      decreases |s.alloced| - j
    {
      AllocedIn(t, view, limbo);
      TurnedLength(s, j);
      vp := t.alloced[0];
      s' := t.(alloced := t.alloced[1..]);
      if !t.pt[vp].refd {
        VictimFound(s, j);
        return;
      }
      if j == |s.alloced| {
        TurnedAll(s);
        assert false;
      }
      TurnedMore(s, j);
      CoreUnique(t, view, limbo);
      TurnUnique(t.alloced);
      CoreClear(t, view, limbo, vp, t.alloced[1..] + [vp]);
      t := s'.(pt := s'.pt[vp := s'.pt[vp].(refd := false)], mapped := s'.mapped - {vp}, alloced := s'.alloced + [vp]);
      j := j + 1;
    }
  }

  lemma {:induction false} TurnedLength(s: Pager, j: nat)
    requires j <= |s.alloced|
    ensures |Turned(s, j).alloced| == |s.alloced|
  {
  }

  lemma {:induction false} VictimFound(s: Pager, j: nat)
    requires j <= |s.alloced| && |s.alloced| > 0 && Unique(s.alloced)
    requires forall i :: 0 <= i < |s.alloced| ==> s.alloced[i] in s.pt
    requires forall i :: 0 <= i < j ==> s.pt[s.alloced[i]].refd
    requires var t := Turned(s, j); t.alloced[0] in t.pt && !t.pt[t.alloced[0]].refd
    ensures Victim(s, j)
    ensures Turned(s, j).alloced[0] == if j < |s.alloced| then s.alloced[j] else s.alloced[0]
  {
    if j < |s.alloced| {
      TurnedMore(s, j);
    } else {
      TurnedAll(s);
    }
  }

  lemma {:induction false} AllocedIn(s: Pager, view: View, limbo: Option<Vpage>)
    requires Core(s, view, None, limbo)
    ensures Unique(s.alloced) && forall i :: 0 <= i < |s.alloced| ==>
      s.alloced[i] in s.pt && Resident(s.pt[s.alloced[i]])
  {
  }

  lemma {:induction false} CoreUnique(s: Pager, view: View, limbo: Option<Vpage>)
    requires Core(s, view, None, limbo)
    ensures Unique(s.alloced)
  {
  }
}
