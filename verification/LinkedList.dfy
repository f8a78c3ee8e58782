/** The singly linked list with a pointer to its last node. */
module LinkedList {
  import opened Options
  import opened SeqUtil

  /** What is left after deleting matching elements from the front on, until `n` are deleted; a
      negative `n` never runs out. */
  ghost function Kept<T>(s: seq<T>, f: T -> bool, n: int): seq<T> {
    if |s| == 0 then []
    else if n != 0 && f(s[0]) then Kept(s[1..], f, n - 1)
    else [s[0]] + Kept(s[1..], f, n)
  }

  /** The elements the predicate is called on */
  ghost function Called<T>(s: seq<T>, f: T -> bool, n: int): seq<T> {
    if |s| == 0 || n == 0 then [] else [s[0]] + Called(s[1..], f, if f(s[0]) then n - 1 else n)
  }

  ghost function Matches<T>(s: seq<T>, f: T -> bool): nat {
    if |s| == 0 then 0 else (if f(s[0]) then 1 else 0) + Matches(s[1..], f)
  }

  /** The elements that do not match, in order */
  ghost function Without<T>(s: seq<T>, f: T -> bool): seq<T> {
    Filter(s, x => !f(x))
  }

  lemma {:induction false} WithoutFirst<T>(x: T, s: seq<T>, f: T -> bool)
    ensures Without([x] + s, f) == (if f(x) then [] else [x]) + Without(s, f)
  {
    if |s| == 0 {
      assert [x][..0] == [];
    } else {
      assert ([x] + s)[..|s|] == [x] + s[..|s| - 1];
      WithoutFirst(x, s[..|s| - 1], f);
    }
  }

  /** Exactly the first `n` matches are deleted (all of them if there are no more than that, or
      if `n` is negative): up to some place all matches are gone, from there on nothing is
      changed, and the predicate is called just on the elements before that place. */
  lemma {:induction false} DeletesFirst<T>(s: seq<T>, f: T -> bool, n: int) returns (k: nat)
    ensures k <= |s| && Kept(s, f, n) == Without(s[..k], f) + s[k..] && Called(s, f, n) == s[..k]
    ensures n < 0 || Matches(s, f) < n ==> k == |s|
    ensures 0 <= n <= Matches(s, f) ==> Matches(s[..k], f) == n && (k > 0 ==> f(s[k - 1]))
    decreases |s|
  {
    hide Kept, Called, Matches, Without;
    if |s| == 0 || n == 0 {
      k := 0;
      KeepsRest(s, f, n);
      Nothing(s[..k], f);
      assert s[k..] == s;
    } else {
      var x, rest := s[0], s[1..];
      var j := DeletesFirst(rest, f, if f(x) then n - 1 else n);
      k := j + 1;
      assert s[..k] == [x] + rest[..j] && s[k..] == rest[j..] && s == [x] + rest;
      DeleteStep(x, rest, f, n);
      Step(x, rest, f);
      Step(x, rest[..j], f);
      assert j > 0 ==> rest[j - 1] == s[k - 1];
      if j == 0 {
        Nothing(rest[..j], f);
      }
    }
  }

  lemma {:induction false} DeleteStep<T>(x: T, s: seq<T>, f: T -> bool, n: int)
    requires n != 0
    ensures var m := if f(x) then n - 1 else n;
      && Kept([x] + s, f, n) == (if f(x) then [] else [x]) + Kept(s, f, m)
      && Called([x] + s, f, n) == [x] + Called(s, f, m)
  {
    assert ([x] + s)[1..] == s;
  }

  lemma {:induction false} Step<T>(x: T, s: seq<T>, f: T -> bool)
    ensures Matches([x] + s, f) == (if f(x) then 1 else 0) + Matches(s, f)
    ensures Without([x] + s, f) == (if f(x) then [] else [x]) + Without(s, f)
  {
    assert ([x] + s)[1..] == s;
    WithoutFirst(x, s, f);
  }

  lemma {:induction false} Nothing<T>(s: seq<T>, f: T -> bool)
    requires |s| == 0
    ensures Without(s, f) == [] && Matches(s, f) == 0
  {
  }

  lemma {:induction false} KeepsRest<T>(s: seq<T>, f: T -> bool, n: int)
    requires |s| == 0 || n == 0
    ensures Kept(s, f, n) == s && Called(s, f, n) == [] && (|s| == 0 ==> Matches(s, f) == 0)
  {
    if |s| > 0 {
      KeepsRest(s[1..], f, n);
    }
  }

  /** Deleting everything that matches, as list_delete does, leaves exactly what does not. */
  lemma {:induction false} DeletesAll<T>(s: seq<T>, f: T -> bool, n: int)
    requires n < 0
    ensures Kept(s, f, n) == Without(s, f)
  {
    var k := DeletesFirst(s, f, n);
    assert s[..k] == s && s[k..] == [];
  }

  class Node<T> {
    var contents: T
    var next: Node?<T>

    constructor (contents: T, next: Node?<T>)
      ensures this.contents == contents && this.next == next
    {
      this.contents, this.next := contents, next;
    }
  }

  class List<T> {
    var head: Node?<T>
    var last: Node?<T>
    ghost var spine: seq<Node<T>>

    /** The nodes from `head` on are those of `spine`, and `last` is the last of them. */
    ghost predicate Valid()
      reads this, spine
    {
      && Unique(spine)
      && head == At(spine, 0) && last == (if |spine| == 0 then null else spine[|spine| - 1])
      && (forall i :: 0 <= i < |spine| ==> spine[i].next == At(spine, i + 1))
    }

    static ghost function At(s: seq<Node<T>>, i: nat): Node?<T> {
      if i < |s| then s[i] else null
    }

    ghost function Contents(): seq<T>
      reads this, spine
    {
      seq(|spine|, i requires 0 <= i < |spine| reads this, spine => spine[i].contents)
    }

    constructor ()
      ensures Valid() && Contents() == [] && spine == []
    {
      head, last := null, null;
      spine := [];
    }

    method Null() returns (b: bool)
      requires Valid()
      ensures b <==> Contents() == []
    {
      b := head == null;
    }

    method Peek() returns (x: T)
      requires Valid() && Contents() != []
      ensures x == Contents()[0]
    {
      x := head.contents;
    }

    /** list_shift: add in front */
    method Shift(x: T)
      requires Valid()
      modifies this
      ensures Valid() && Contents() == [x] + old(Contents()) && fresh(spine[0]) && spine[1..] == old(spine)
    {
      var node := new Node(x, head);
      head := node;
      if last == null {
        last := head;
      }
      spine := [node] + spine;
    }

    /** list_unshift: take the first */
    method Unshift() returns (x: T)
      requires Valid() && Contents() != []
      modifies this
      ensures Valid() && [x] + Contents() == old(Contents()) && spine == old(spine)[1..]
    {
      x := head.contents;
      head := head.next;
      if head == null {
        last := null;
      }
      spine := spine[1..];
    }

    /** list_push: add at the end */
    method Push(x: T)
      requires Valid()
      modifies this, last
      ensures Valid() && Contents() == old(Contents()) + [x] && |spine| > 0
      ensures spine[..|spine| - 1] == old(spine) && fresh(spine[|spine| - 1])
    {
      var node := new Node(x, null);
      if head == null {
        last, head := node, node;
      } else {
        last.next := node;
        last := node;
      }
      spine := spine + [node];
    }

    /** list_pop: take the last, which is found by walking from the head */
    method Pop() returns (x: T)
      requires Valid() && Contents() != []
      modifies this, spine
      ensures Valid() && Contents() + [x] == old(Contents()) && spine == old(spine)[..|old(spine)| - 1]
    {
      x := last.contents;
      var prev: Node?<T> := null;
      var tmp := head;
      ghost var i := 0;
      while tmp != last
        invariant 0 <= i < |spine| && tmp == spine[i] && prev == (if i == 0 then null else spine[i - 1])
        decreases |spine| - i
      {
        prev := tmp;
        tmp := tmp.next;
        i := i + 1;
      }
      assert i == |spine| - 1;
      if prev == null {
        head, last := null, null;
      } else {
        prev.next := null;
        last := prev;
      }
      spine := spine[..|spine| - 1];
    }

    /** list_find: the first element that matches */
    method Find(f: T -> bool) returns (r: Option<T>)
      requires Valid()
      ensures r == None ==> forall x :: x in Contents() ==> !f(x)
      ensures r.Some? ==> f(r.value)
      ensures r.Some? ==>
        exists k :: 0 <= k < |Contents()| && Contents()[k] == r.value && Matches(Contents()[..k], f) == 0
    {
      var curr := head;
      ghost var i := 0;
      while curr != null
        invariant 0 <= i <= |spine| && curr == At(spine, i)
        invariant forall j :: 0 <= j < i ==> !f(Contents()[j])
        decreases |spine| - i
      {
        if f(curr.contents) {
          NoMatches(Contents()[..i], f);
          return Some(curr.contents);
        }
        curr := curr.next;
        i := i + 1;
      }
      r := None;
    }

    /** Take the node at `i` out of the chain. */
    method Unlink(prev: Node?<T>, curr: Node<T>, ghost at: seq<nat>, ghost i: nat) returns (next: Node?<T>)
      requires Linked(at, i, prev) && i < |spine| && curr == spine[i]
      modifies this`head, spine`next
      ensures Linked(at, i + 1, prev) && next == At(spine, i + 1)
    {
      next := curr.next;
      if prev == null {
        head := next;
      } else {
        prev.next := next;
      }
    }

    /** Walk the list, unlinking matching nodes until `n` are gone. */
    method Walk(f: T -> bool, n: int, ghost all: seq<T>) returns (prev: Node?<T>, calls: seq<T>, ghost at: seq<nat>)
      requires Linked([], 0, null) && all == Contents()
      modifies this`head, spine`next
      ensures Linked(at, |spine|, prev) && Rising(at, |spine|) && Kept(all, f, n) == Picked(all, at)
      ensures calls == Called(all, f, n)
    {
      hide Kept, Called, Deleted, Linked;
      var curr, left := head, n;
      prev, calls, at := null, [], [];
      ghost var i := 0;
      DeletingNone(all, f, n);
      LinkedHead([], 0, null);
      while curr != null
        invariant 0 <= i <= |spine| && curr == At(spine, i)
        invariant Deleted(all, f, n, i, left, at, calls) && Linked(at, i, prev)
        decreases |spine| - i
      {
        DeletedNext(all, f, n, i, left, at, calls);
        assert curr.contents == all[i];
        if left != 0 {
          calls := calls + [curr.contents];
        }
        if left != 0 && f(curr.contents) {
          curr := Unlink(prev, curr, at, i);
          left := left - 1;
        } else {
          LinkedNext(at, i, prev);
          prev := curr;
          at := at + [i];
          curr := curr.next;
        }
        i := i + 1;
      }
      DeletedAll(all, f, n, left, at, calls);
    }

    /** list_delete_n: unlink matching nodes from the head on until `n` are gone.  `calls` are the
        elements the predicate was called on.  Head and last are right again at the end. */
    method DeleteN(f: T -> bool, n: int) returns (calls: seq<T>)
      requires Valid()
      modifies this, spine
      ensures Valid() && Contents() == Kept(old(Contents()), f, n) && calls == Called(old(Contents()), f, n)
      ensures forall x :: x in spine ==> x in old(spine)
    {
      hide Kept, Called, Linked, Picked, Unique, Rising;
      ghost var all := Contents();
      LinkedNone();
      var prev;
      ghost var at;
      prev, calls, at := Walk(f, n, all);
      LinkedLast(at, prev, all);
      if head == null {
        last := null;
      } else if prev.next == null {
        last := prev;
      }
      spine := Picked(spine, at);
    }

    /** At the end of the walk the nodes kept are the list. */
    lemma {:induction false} LinkedLast(at: seq<nat>, prev: Node?<T>, all: seq<T>)
      requires Linked(at, |spine|, prev) && Rising(at, |all|) && all == Contents()
      ensures (forall j :: 0 <= j < |at| ==> at[j] < |spine|) && |Picked(spine, at)| == |Picked(all, at)|
      ensures forall i :: 0 <= i < |Picked(spine, at)| ==> Picked(spine, at)[i].contents == Picked(all, at)[i]
      ensures var s := Picked(spine, at);
        && Unique(s) && head == At(s, 0) && prev == (if |s| == 0 then null else s[|s| - 1])
        && (prev != null ==> prev.next == null)
        && (forall i :: 0 <= i < |s| ==> s[i].next == At(s, i + 1)) && (forall x :: x in s ==> x in spine)
    {
      var s := Picked(spine, at);
      forall i | 0 <= i < |s| ensures s[i].next == At(s, i + 1) && s[i] in spine {
        assert spine[at[i]].next == After(at, |spine|, i);
      }
    }

    lemma {:induction false} LinkedHead(at: seq<nat>, i: nat, prev: Node?<T>)
      requires Linked(at, i, prev)
      ensures |at| == 0 ==> head == At(spine, i)
    {
    }

    lemma {:induction false} LinkedNone()
      requires Valid()
      ensures Linked([], 0, null)
    {
    }

    lemma {:induction false} LinkedNext(at: seq<nat>, i: nat, prev: Node?<T>)
      requires Linked(at, i, prev) && i < |spine|
      ensures Linked(at + [i], i + 1, spine[i]) && spine[i].next == At(spine, i + 1)
    {
      hide Unique;
      var at' := at + [i];
      forall j | 0 <= j < |at'|
        ensures spine[at'[j]].next == After(at', i + 1, j)
      {
        if j < |at| {
          assert spine[at[j]].next == After(at, i, j);
        }
      }
    }

    /** The node after the one kept as number `j`, when the node at `i` is next to be looked at */
    ghost function After(at: seq<nat>, i: nat, j: nat): Node?<T>
      requires forall j :: 0 <= j < |at| ==> at[j] < |spine|
      reads this
    {
      if j + 1 < |at| then spine[at[j + 1]] else At(spine, i)
    }

    /** The nodes kept so far, given by their places, are linked up to the next node. */
    ghost predicate Linked(at: seq<nat>, i: nat, prev: Node?<T>)
      reads this, spine
    {
      && i <= |spine| && Unique(spine) && Rising(at, i)
      && prev == (if |at| == 0 then null else spine[at[|at| - 1]])
      && head == (if |at| == 0 then At(spine, i) else spine[at[0]])
      && (forall j :: 0 <= j < |at| ==> spine[at[j]].next == After(at, i, j))
      && (forall j :: i <= j < |spine| ==> spine[j].next == At(spine, j + 1))
    }
  }

  /** Increasing places below `i` */
  ghost predicate Rising(at: seq<nat>, i: nat) {
    (forall j :: 0 <= j < |at| ==> at[j] < i) && forall j, k :: 0 <= j < k < |at| ==> at[j] < at[k]
  }

  ghost function Picked<T>(s: seq<T>, at: seq<nat>): seq<T>
    requires forall j :: 0 <= j < |at| ==> at[j] < |s|
  {
    seq(|at|, j requires 0 <= j < |at| => s[at[j]])
  }

  /** After `i` elements, those at the places `at` are kept. */
  ghost predicate Deleted<T>(all: seq<T>, f: T -> bool, n: int, i: nat, left: int, at: seq<nat>, calls: seq<T>) {
    && i <= |all| && Rising(at, i)
    && Kept(all, f, n) == Picked(all, at) + Kept(all[i..], f, left)
    && Called(all, f, n) == calls + Called(all[i..], f, left)
  }

  lemma {:induction false} DeletingNone<T>(all: seq<T>, f: T -> bool, n: int)
    ensures Deleted(all, f, n, 0, n, [], [])
  {
    assert all[0..] == all && Picked(all, []) == [];
    assert [] + Kept(all, f, n) == Kept(all, f, n) && [] + Called(all, f, n) == Called(all, f, n);
  }

  lemma {:induction false} DeletedNext<T>(all: seq<T>, f: T -> bool, n: int, i: nat, left: int, at: seq<nat>,
      calls: seq<T>)
    requires Deleted(all, f, n, i, left, at, calls) && i < |all|
    ensures left != 0 && f(all[i]) ==> Deleted(all, f, n, i + 1, left - 1, at, calls + [all[i]])
    ensures left != 0 && !f(all[i]) ==> Deleted(all, f, n, i + 1, left, at + [i], calls + [all[i]])
    ensures left == 0 ==> Deleted(all, f, n, i + 1, left, at + [i], calls)
  {
    var rest := all[i..];
    assert rest[0] == all[i] && rest[1..] == all[i + 1..];
    assert Picked(all, at + [i]) == Picked(all, at) + [all[i]];
    assert calls + ([all[i]] + Called(rest[1..], f, if f(rest[0]) then left - 1 else left)) ==
      (calls + [all[i]]) + Called(rest[1..], f, if f(rest[0]) then left - 1 else left);
    assert Picked(all, at) + ([all[i]] + Kept(rest[1..], f, left)) == Picked(all, at + [i]) + Kept(rest[1..], f, left);
  }

  lemma {:induction false} DeletedAll<T>(all: seq<T>, f: T -> bool, n: int, left: int, at: seq<nat>, calls: seq<T>)
    requires Deleted(all, f, n, |all|, left, at, calls)
    ensures Rising(at, |all|) && Kept(all, f, n) == Picked(all, at) && Called(all, f, n) == calls
  {
    assert all[|all|..] == [];
  }

  lemma {:induction false} NoMatches<T>(s: seq<T>, f: T -> bool)
    requires forall j :: 0 <= j < |s| ==> !f(s[j])
    ensures Matches(s, f) == 0
  {
    if |s| > 0 {
      NoMatches(s[1..], f);
    }
  }
}
