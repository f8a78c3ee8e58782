/** The global list of open vnodes, doubly linked and ended by null at both ends. */
module VnodeList {
  import opened SeqUtil

  class Vnode {
    var previous: Vnode?
    var next: Vnode?

    constructor ()
      ensures previous == null && next == null
    {
      previous, next := null, null;
    }
  }

  class GlobalVnodes {
    var first: Vnode?
    ghost var spine: seq<Vnode>

    static ghost function At(s: seq<Vnode>, i: int): Vnode? {
      if 0 <= i < |s| then s[i] else null
    }

    /** Read forwards or backwards, the links give the vnodes of `spine` in order. */
    ghost predicate Valid()
      reads this, spine
    {
      Unique(spine) && first == At(spine, 0) && forall i :: 0 <= i < |spine| ==> LinkedAt(spine, i)
    }

    static ghost predicate LinkedAt(s: seq<Vnode>, i: nat)
      requires i < |s|
      reads s[i]
    {
      s[i].next == At(s, i + 1) && s[i].previous == At(s, i - 1)
    }

    constructor ()
      ensures Valid() && spine == []
    {
      first, spine := null, [];
    }

    /** add_vnode: in front of the others */
    method Add(v: Vnode)
      requires Valid() && v !in spine
      modifies this, v, spine
      ensures Valid() && spine == [v] + old(spine)
    {
      hide Unique;
      ghost var was := spine;
      UniquePush(spine, v);
      HeadApart(spine);
      v.next, v.previous := null, null;
      if first != null {
        v.next := first;
        first.previous := v;
      }
      first := v;
      spine := [v] + spine;
      forall i | 0 <= i < |spine| ensures LinkedAt(spine, i) {
        if i > 0 {
          assert spine[i] == was[i - 1] && old(LinkedAt(was, i - 1));
        }
      }
    }

    /** remove_vnode.  A vnode on the list is taken out wherever it is, and the others stay in
        order.  One that is not on it has no neighbours; the code then takes it for the only one
        there is, and the whole list is dropped.  `k` is the place of the vnode, or -1. */
    method Remove(v: Vnode, ghost k: int)
      requires Valid() && -1 <= k < |spine|
      requires if k >= 0 then spine[k] == v else v !in spine && v.previous == null && v.next == null
      modifies this, v, spine
      ensures Valid() && v.previous == null && v.next == null && v !in spine
      ensures spine == if k >= 0 then old(spine)[..k] + old(spine)[k + 1..] else []
    {
      hide Unique;
      ghost var was, rest := spine, Rest(spine, k);
      RestUnique(spine, k);
      assert k >= 0 ==> LinkedAt(spine, k);
      var vp, vn := v.previous, v.next;
      if vp == null && vn == null {
        first := null;
      } else if vn == null {
        vp.next := null;
      } else if vp == null {
        first := vn;
        vn.previous := null;
      } else {
        vp.next := vn;
        vn.previous := vp;
      }
      v.next, v.previous := null, null;
      spine := rest;
      forall i | 0 <= i < |rest| ensures LinkedAt(rest, i) {
        ghost var j := if i < k then i else i + 1;
        assert rest[i] == was[j] && old(LinkedAt(was, j));
      }
    }
  }

  lemma {:induction false} HeadApart(s: seq<Vnode>)
    requires Unique(s)
    ensures forall i :: 0 < i < |s| ==> s[i] != s[0]
  {
  }

  ghost function Rest(s: seq<Vnode>, k: int): seq<Vnode>
    requires -1 <= k < |s|
  {
    if k < 0 then [] else s[..k] + s[k + 1..]
  }

  lemma {:induction false} RestUnique(s: seq<Vnode>, k: int)
    requires -1 <= k < |s| && Unique(s)
    ensures Unique(Rest(s, k)) && (k >= 0 ==> s[k] !in Rest(s, k))
    ensures forall i, j :: 0 <= i < |s| && 0 <= j < |s| && s[i] == s[j] ==> i == j
  {
  }
}
