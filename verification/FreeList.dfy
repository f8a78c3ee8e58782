/** A free list threaded through the items themselves: `link` leads from each free item to the
    next one, and from the last one to `end`. */
module FreeList {
  import opened SeqUtil

  ghost predicate Threaded(link: map<nat, nat>, head: nat, end: nat, free: seq<nat>)
    decreases |free|
  {
    if |free| == 0 then head == end
    else head == free[0] && head != end && head in link && Threaded(link, link[head], end, free[1..])
  }

  /** What is on the list is determined by the links: two readings of it are the same. */
  lemma {:induction false} ThreadedSame(link: map<nat, nat>, head: nat, end: nat, free: seq<nat>, other: seq<nat>)
    requires Threaded(link, head, end, free) && Threaded(link, head, end, other)
    ensures free == other
    decreases |free|
  {
    if |free| > 0 {
      ThreadedSame(link, link[head], end, free[1..], other[1..]);
      assert free == [head] + free[1..] && other == [head] + other[1..];
    }
  }

  /** The part of the list after item `k` is itself a list. */
  lemma {:induction false} ThreadedFrom(link: map<nat, nat>, head: nat, end: nat, free: seq<nat>, k: nat)
    requires Threaded(link, head, end, free) && k < |free|
    ensures Threaded(link, free[k], end, free[k..])
    decreases k
  {
    if k > 0 {
      ThreadedFrom(link, link[head], end, free[1..], k - 1);
      assert free[1..][k - 1..] == free[k..];
    } else {
      assert free[0..] == free;
    }
  }

  /** The list has no cycle: no item is on it twice. */
  lemma {:induction false} Acyclic(link: map<nat, nat>, head: nat, end: nat, free: seq<nat>)
    requires Threaded(link, head, end, free)
    ensures Unique(free)
  {
    forall i, j | 0 <= i < j < |free| ensures free[i] != free[j] {
      ThreadedFrom(link, head, end, free, i);
      ThreadedFrom(link, head, end, free, j);
      assert |free[i..]| != |free[j..]|;
      if free[i] == free[j] {
        ThreadedSame(link, free[i], end, free[i..], free[j..]);
        assert false;
      }
    }
  }

  /** Links of items that are not on the list do not matter. */
  lemma {:induction false} ThreadedApart(link: map<nat, nat>, link': map<nat, nat>, head: nat, end: nat, free: seq<nat>)
    requires Threaded(link, head, end, free)
    requires forall x :: x in free ==> x in link && x in link' && link'[x] == link[x]
    ensures Threaded(link', head, end, free)
    decreases |free|
  {
    if |free| > 0 {
      assert free[0] in free;
      forall x | x in free[1..] ensures x in link && x in link' && link'[x] == link[x] {
        assert x in free;
      }
      ThreadedApart(link, link', link[head], end, free[1..]);
    }
  }

  /** Putting an item back in front of the list. */
  lemma {:induction false} ThreadedPush(link: map<nat, nat>, head: nat, end: nat, free: seq<nat>, x: nat)
    requires Threaded(link, head, end, free) && x !in free && x != end
    ensures Threaded(link[x := head], x, end, [x] + free)
  {
    ThreadedKeys(link, head, end, free);
    ThreadedApart(link, link[x := head], head, end, free);
    assert ([x] + free)[1..] == free;
  }

  lemma {:induction false} ThreadedKeys(link: map<nat, nat>, head: nat, end: nat, free: seq<nat>)
    requires Threaded(link, head, end, free)
    ensures forall x :: x in free ==> x in link && x != end
    decreases |free|
  {
    if |free| > 0 {
      ThreadedKeys(link, link[head], end, free[1..]);
      assert free == [free[0]] + free[1..];
    }
  }

  /** The items `first`, `first + step`, ... up to `last` */
  ghost function Steps(first: nat, step: nat, last: nat): seq<nat>
    requires step > 0
    decreases 1 + last - first
  {
    if first > last then [] else [first] + Steps(first + step, step, last)
  }

  /** Each item linked to the next one, and the last to `end`, make one list of all of them. */
  lemma {:induction false} StepsThreaded(link: map<nat, nat>, first: nat, step: nat, last: nat, end: nat)
    requires step > 0 && first <= last
    requires forall x :: x in Steps(first, step, last) ==> x in link && x != end
    requires forall x :: x in Steps(first, step, last) ==> link[x] == if x + step > last then end else x + step
    ensures Threaded(link, first, end, Steps(first, step, last))
    decreases last - first
  {
    var rest := Steps(first + step, step, last);
    assert Steps(first, step, last)[1..] == rest;
    assert forall x :: x in rest ==> x in Steps(first, step, last);
    assert first in Steps(first, step, last);
    if first + step <= last {
      StepsThreaded(link, first + step, step, last, end);
    }
  }

  lemma {:induction false} StepsIn(first: nat, step: nat, last: nat)
    requires step > 0
    ensures forall x :: x in Steps(first, step, last) ==> first <= x <= last
    decreases 1 + last - first
  {
    if first <= last {
      StepsIn(first + step, step, last);
    }
  }

  /** With step 1 these are all the items of the range, in order. */
  lemma {:induction false} StepsOne(first: nat, last: nat)
    requires first <= last
    ensures Steps(first, 1, last) == seq(last - first + 1, i requires 0 <= i < last - first + 1 => first + i)
    decreases last - first
  {
    if first < last {
      StepsOne(first + 1, last);
    } else {
      assert Steps(first + 1, 1, last) == [];
    }
  }
}
