/** The second-chance queue as a clock: what using a page and choosing a victim do to it. */
module PagerClock {
  import opened Options
  import opened PagerState

  /** The resident pages in queue order, those with the REF bit, and those the processor can reach */
  datatype Clock = Clock(alloced: seq<Vpage>, refd: set<Vpage>, mapped: set<Vpage>)

  ghost function Refd(pt: map<Vpage, Entry>): set<Vpage> {
    set vp | vp in pt && pt[vp].refd
  }

  ghost function ClockOf(s: Pager): Clock {
    Clock(s.alloced, Refd(s.pt), s.mapped)
  }

  /** A page is mapped: it is marked as used, and a page that was not resident comes last. */
  ghost function Use(c: Clock, vp: Vpage): Clock {
    Clock(if vp in c.alloced then c.alloced else c.alloced + [vp], c.refd + {vp}, c.mapped + {vp})
  }

  /** What a request waits for: a page, or a program to be loaded */
  type Goal = Option<Vpage>

  ghost function GoalOf(r: Request): seq<Goal> {
    match r
    case Swapin(vp, _, _) => [Some(vp)]
    case Elfload(_, _) => [None]
    case Swapout(_, _, _, _, _) => []
  }

  ghost function Goals(rs: seq<Request>): seq<Goal> {
    if |rs| == 0 then [] else GoalOf(rs[0]) + Goals(rs[1..])
  }

  /** One page after the other is mapped; a load maps nothing. */
  ghost function UseAll(c: Clock, goals: seq<Goal>): Clock
    decreases |goals|
  {
    if |goals| == 0 then c
    else UseAll(if goals[0].Some? then Use(c, goals[0].value) else c, goals[1..])
  }

  /** The place of the first page from `i` on that has not been used */
  ghost function Unused(c: Clock, i: nat): (j: nat)
    requires i <= |c.alloced|
    ensures i <= j <= |c.alloced|
    decreases |c.alloced| - i
  {
    if i == |c.alloced| || c.alloced[i] !in c.refd then i else Unused(c, i + 1)
  }

  /** The hand goes past `j` pages, which lose their marks and go to the end, and takes the next. */
  ghost function Swept(c: Clock, j: nat): Clock
    requires j <= |c.alloced| && |c.alloced| > 0
  {
    var passed, turned := Elements(c.alloced[..j]), c.alloced[j..] + c.alloced[..j];
    Clock(turned[1..], c.refd - passed, c.mapped - passed - {turned[0]})
  }

  ghost function Elements(vps: seq<Vpage>): set<Vpage> {
    set vp | vp in vps
  }

  /** Choosing a victim: the first page not used since the hand last passed it, or the first of all. */
  ghost function Sweep(c: Clock): Clock {
    if |c.alloced| == 0 then c else Swept(c, Unused(c, 0))
  }

  lemma {:induction false} UnusedIs(c: Clock, i: nat, j: nat)
    requires i <= j <= |c.alloced| && (forall k :: i <= k < j ==> c.alloced[k] in c.refd)
    requires j < |c.alloced| ==> c.alloced[j] !in c.refd
    ensures Unused(c, i) == j
    decreases j - i
  {
    if i < j {
      UnusedIs(c, i + 1, j);
    }
  }

  // ---------------------------------------------------------------- requests

  lemma {:induction false} GoalsHead(rs: seq<Request>)
    requires |rs| > 0
    ensures Goals(rs) == GoalOf(rs[0]) + Goals(rs[1..])
  {
  }

  lemma {:induction false} GoalsNone(rs: seq<Request>, goals: seq<Goal>)
    requires |rs| == 0
    ensures Goals(rs) + goals == goals
  {
  }

  lemma {:induction false} GoalsAppend(rs: seq<Request>, r: Request)
    ensures Goals(rs + [r]) == Goals(rs) + GoalOf(r)
  {
    if |rs| == 0 {
      assert rs + [r] == [r] && [r][1..] == [];
    } else {
      assert (rs + [r])[1..] == rs[1..] + [r];
      GoalsAppend(rs[1..], r);
    }
  }

  /** Changing how far the head has got changes nothing of what is waited for. */
  lemma {:induction false} GoalsStage(rs: seq<Request>, r: Request)
    requires |rs| > 0 && GoalOf(r) == GoalOf(rs[0])
    ensures Goals(rs[0 := r]) == Goals(rs)
  {
    assert rs[0 := r][1..] == rs[1..];
  }

  /** A swap-out has just been started. */
  ghost predicate Opening(s: Pager) {
    |s.requests| > 0 && s.requests[0].Swapout? && s.requests[0].stage == SWAPOUT_OPEN
  }

  /** From the clock `c`, with `goals` waited for and `n` answers given, the pager has come to `s'`: the
      processes answered since have had their pages mapped, in order, and if a swap-out has been
      started its victim was chosen then. */
  ghost predicate Serves(c: Clock, n: nat, goals: seq<Goal>, s': Pager) {
    var k := |s'.replies| - n;
    && 0 <= k <= |goals| && Goals(s'.requests) == goals[k..]
    && ClockOf(s') == var used := UseAll(c, goals[..k]); if Opening(s') then Sweep(used) else used
  }

  /** Nothing has been answered yet. */
  lemma {:induction false} ServesNone(c: Clock, n: nat, goals: seq<Goal>, s': Pager)
    requires |s'.replies| == n && Goals(s'.requests) == goals
    requires ClockOf(s') == if Opening(s') then Sweep(c) else c
    ensures Serves(c, n, goals, s')
  {
    assert goals[..0] == [] && goals[0..] == goals;
  }

  /** The first has been answered, and then the others were served. */
  lemma {:induction false} ServesFirst(c: Clock, n: nat, goal: Goal, goals: seq<Goal>, s': Pager)
    requires Serves(if goal.Some? then Use(c, goal.value) else c, n + 1, goals, s')
    ensures Serves(c, n, [goal] + goals, s')
  {
    hide Sweep, Use, Goals, ClockOf;
    var k := |s'.replies| - n;
    var all := [goal] + goals;
    assert all[..k][0] == goal && all[..k][1..] == goals[..k - 1];
    assert all[k..] == goals[k - 1..];
  }
}
