/** The link memory of ed's line buffer, and what undoing an edit does to it.

    A line node is any value of type `N`; `Mem` records the two pointers of every
    allocated node.  The editor's list is whatever is reached from the head node by
    following those pointers.  The undo stack is modelled by items: an item keeps
    no copy of the buffer, only the nodes whose retained links make undoing possible.
 */
module EdLinks {
  import opened SeqUtil

  /** The `q_forw` and `q_back` fields of every allocated node. */
  datatype Mem<N> = Mem(forw: map<N, N>, back: map<N, N>)

  /** The node has both its pointers. */
  ghost predicate Has<N>(m: Mem<N>, n: N) {
    n in m.forw && n in m.back
  }

  /** The effect of `link_nodes` */
  ghost function Link<N>(m: Mem<N>, prev: N, next: N): Mem<N> {
    Mem(m.forw[prev := next], m.back[next := prev])
  }

  /** Links between different nodes commute. */
  lemma {:induction false} LinkSwap<N>(m: Mem<N>, p1: N, n1: N, p2: N, n2: N)
    requires p1 != p2 && n1 != n2
    ensures Link(Link(m, p1, n1), p2, n2) == Link(Link(m, p2, n2), p1, n1)
  {
    assert m.forw[p1 := n1][p2 := n2] == m.forw[p2 := n2][p1 := n1];
    assert m.back[n1 := p1][n2 := p2] == m.back[n2 := p2][n1 := p1];
  }

  /** Every node of `m1` has the same links in `m2`. */
  ghost predicate Sub<N>(m1: Mem<N>, m2: Mem<N>) {
    && (forall n :: n in m1.forw ==> n in m2.forw && m2.forw[n] == m1.forw[n])
    && (forall n :: n in m1.back ==> n in m2.back && m2.back[n] == m1.back[n])
  }

  /** No node occurs twice. */
  ghost predicate Distinct<N>(s: seq<N>) {
    DistinctTo(s, |s|)
  }

  ghost predicate DistinctTo<N>(s: seq<N>, k: nat)
    requires k <= |s|
  {
    k > 0 ==> (forall i :: 0 <= i < k - 1 ==> s[i] != s[k - 1]) && DistinctTo(s, k - 1)
  }

  ghost function Elems<N>(s: seq<N>): set<N> {
    set n | n in s
  }

  /** Consecutive nodes of `s` point at each other. */
  ghost predicate Path<N>(m: Mem<N>, s: seq<N>) {
    PathTo(m, s, |s|)
  }

  ghost predicate PathTo<N>(m: Mem<N>, s: seq<N>, k: nat)
    requires k <= |s|
  {
    k > 0 ==>
      && Has(m, s[k - 1])
      && (k > 1 ==> s[k - 2] in m.forw && m.forw[s[k - 2]] == s[k - 1] && m.back[s[k - 1]] == s[k - 2])
      && PathTo(m, s, k - 1)
  }

  ghost function Ring<N>(l: seq<N>): seq<N>
    requires |l| > 0
  {
    l + [l[0]]
  }

  /** `l` is the circular doubly linked list that starts at `l[0]`. */
  ghost predicate IsList<N>(m: Mem<N>, l: seq<N>) {
    |l| > 0 && Distinct(l) && Path(m, Ring(l))
  }

  // ---------------------------------------------------------------- the same, index by index
  //
  // Distinct, Path and IsList are recursive so that proofs which only pass them on meet no
  // quantifiers.  Unique, PathQ and IsListQ say the same index by index, for proofs that look inside.


  ghost predicate PathQ<N>(m: Mem<N>, s: seq<N>) {
    && (forall i :: 0 <= i < |s| ==> Has(m, s[i]))
    && (forall i :: 0 <= i < |s| - 1 ==> m.forw[s[i]] == s[i + 1])
    && (forall i :: 1 <= i < |s| ==> m.back[s[i]] == s[i - 1])
  }

  ghost predicate IsListQ<N>(m: Mem<N>, l: seq<N>) {
    && |l| > 0 && Unique(l) && PathQ(m, Ring(l))
    && (forall i :: 0 <= i < |l| ==> Has(m, l[i]))
  }

  lemma {:induction false} DistinctIff<N>(s: seq<N>)
    ensures Distinct(s) <==> Unique(s)
  {
    DistinctToIff(s, |s|);
  }

  lemma {:induction false} DistinctToIff<N>(s: seq<N>, k: nat)
    requires k <= |s|
    ensures DistinctTo(s, k) <==> forall i, j :: 0 <= i < j < k ==> s[i] != s[j]
  {
    if k > 0 {
      DistinctToIff(s, k - 1);
    }
  }

  lemma {:induction false} PathIff<N>(m: Mem<N>, s: seq<N>)
    ensures Path(m, s) <==> PathQ(m, s)
  {
    PathToIff(m, s, |s|);
  }

  lemma {:induction false} PathToIff<N>(m: Mem<N>, s: seq<N>, k: nat)
    requires k <= |s|
    ensures PathTo(m, s, k) <==>
      && (forall i :: 0 <= i < k ==> Has(m, s[i]))
      && (forall i :: 0 <= i < k - 1 ==> m.forw[s[i]] == s[i + 1])
      && (forall i :: 1 <= i < k ==> m.back[s[i]] == s[i - 1])
  {
    if k > 0 {
      PathToIff(m, s, k - 1);
    }
  }

  lemma {:induction false} ListIff<N>(m: Mem<N>, l: seq<N>)
    ensures IsList(m, l) <==> IsListQ(m, l)
  {
    if |l| > 0 {
      DistinctIff(l);
      PathIff(m, Ring(l));
      if PathQ(m, Ring(l)) {
        forall i | 0 <= i < |l| ensures Has(m, l[i]) {
          assert Ring(l)[i] == l[i];
        }
      }
    }
  }

  // ---------------------------------------------------------------- paths

  lemma {:induction false} PathSlice<N>(m: Mem<N>, s: seq<N>, i: nat, j: nat)
    requires PathQ(m, s) && i <= j <= |s|
    ensures PathQ(m, s[i..j])
  {
  }

  /** Linking two nodes joins two paths that do not use the overwritten pointers. */
  lemma {:induction false} PathJoin<N>(m: Mem<N>, a: seq<N>, b: seq<N>)
    requires PathQ(m, a) && PathQ(m, b) && |a| > 0 && |b| > 0
    requires m.forw[a[|a| - 1]] == b[0] && m.back[b[0]] == a[|a| - 1]
    ensures PathQ(m, a + b)
  {
  }

  lemma {:induction false} PathFrame<N>(m: Mem<N>, p: N, n: N, s: seq<N>)
    requires PathQ(m, s) && Has(m, p) && Has(m, n)
    requires |s| > 0 ==> p !in s[..|s| - 1] && n !in s[1..]
    ensures PathQ(Link(m, p, n), s)
  {
    var m' := Link(m, p, n);
    forall i | 0 <= i < |s| - 1 ensures m'.forw[s[i]] == s[i + 1] {
      assert s[i] == s[..|s| - 1][i];
    }
    forall i | 1 <= i < |s| ensures m'.back[s[i]] == s[i - 1] {
      assert s[i] == s[1..][i - 1];
    }
  }

  lemma {:induction false} NotBefore<N>(l: seq<N>, a: nat, lo: nat, hi: nat)
    requires Unique(l) && a < |l| && lo < hi <= |l| + 1 && (a < lo || a >= hi - 1)
    ensures l[a] !in Ring(l)[lo..hi][..hi - lo - 1]
  {
    var s := Ring(l)[lo..hi][..hi - lo - 1];
    assert forall i :: 0 <= i < |s| ==> s[i] == l[lo + i];
  }

  lemma {:induction false} NotAfter<N>(l: seq<N>, c: nat, lo: nat, hi: nat)
    requires Unique(l) && 1 <= c <= |l| && lo < hi <= |l| + 1 && (c <= lo || c >= hi)
    ensures Ring(l)[c] !in Ring(l)[lo..hi][1..]
  {
    var r, s := Ring(l), Ring(l)[lo..hi][1..];
    assert r[c] == if c < |l| then l[c] else l[0];
    forall i | 0 <= i < |s| ensures s[i] != r[c] {
      var x := lo + 1 + i;
      assert s[i] == r[x] == if x < |l| then l[x] else l[0];
    }
  }

  /** A list read from a memory is the same list in any memory that extends it. */
  lemma {:induction false} ListSub<N>(m1: Mem<N>, m2: Mem<N>, l: seq<N>)
    requires IsList(m1, l) && Sub(m1, m2)
    ensures IsList(m2, l)
  {
    ListIff(m1, l);
    ListIff(m2, l);
  }

  lemma {:induction false} EmptyList<N>(m: Mem<N>, h: N)
    requires Has(m, h) && m.forw[h] == h && m.back[h] == h
    ensures IsList(m, [h])
  {
    ListIff(m, [h]);
  }

  /** A memory holds one list per head node: the walk decides it. */
  lemma {:induction false} ListUnique<N>(m: Mem<N>, l1: seq<N>, l2: seq<N>)
    requires IsList(m, l1) && IsList(m, l2) && l1[0] == l2[0]
    ensures l1 == l2
  {
    ListIff(m, l1);
    ListIff(m, l2);
    if |l1| <= |l2| {
      ListPrefix(m, l1, l2, |l1|);
    } else {
      ListPrefix(m, l2, l1, |l2|);
    }
  }

  lemma {:induction false} ListPrefix<N>(m: Mem<N>, l1: seq<N>, l2: seq<N>, k: nat)
    requires IsListQ(m, l1) && IsListQ(m, l2) && l1[0] == l2[0]
    requires |l1| <= |l2| && k <= |l1|
    ensures l1[..k] == l2[..k]
    ensures k == |l1| ==> |l1| == |l2|
  {
    if k > 0 {
      ListPrefix(m, l1, l2, k - 1);
      if k > 1 {
        assert l1[k - 2] == l1[..k - 1][k - 2] == l2[..k - 1][k - 2] == l2[k - 2];
        assert Ring(l1)[k - 1] == m.forw[Ring(l1)[k - 2]];
        assert Ring(l2)[k - 1] == m.forw[Ring(l2)[k - 2]];
      }
      assert l1[k - 1] == l2[k - 1];
      assert Ring(l1)[k] == m.forw[Ring(l1)[k - 1]];
      assert Ring(l2)[k] == m.forw[Ring(l2)[k - 1]];
    }
  }

  // ---------------------------------------------------------------- edits of the list

  /** `insert_node`: the new node goes between two neighbours. */
  ghost function Inserted<N>(m: Mem<N>, x: N, p: N, n: N): Mem<N> {
    Link(Link(m, x, n), p, x)
  }

  lemma {:induction false} InsertListQ<N>(m: Mem<N>, l: seq<N>, a: nat, x: N)
    requires IsListQ(m, l) && a < |l| && x !in l && Has(m, x)
    ensures IsListQ(Inserted(m, x, l[a], Ring(l)[a + 1]), l[..a + 1] + [x] + l[a + 1..])
  {
    var r := Ring(l);
    var p, n := r[a], r[a + 1];
    assert m.forw[p] == n;
    InsertBlock(m, l, a, x, 0, a + 1);
    InsertBlock(m, l, a, x, a + 1, |r|);
    var m2 := Inserted(m, x, p, n);
    PathJoin(m2, r[..a + 1], [x]);
    PathJoin(m2, r[..a + 1] + [x], r[a + 1..]);
    InsertedRing(l, a, x);
  }

  lemma {:induction false} InsertList<N>(m: Mem<N>, l: seq<N>, a: nat, x: N)
    requires IsList(m, l) && a < |l| && x !in l && Has(m, x)
    ensures IsList(Inserted(m, x, l[a], Ring(l)[a + 1]), l[..a + 1] + [x] + l[a + 1..])
  {
    ListIff(m, l);
    InsertListQ(m, l, a, x);
    ListIff(Inserted(m, x, l[a], Ring(l)[a + 1]), l[..a + 1] + [x] + l[a + 1..]);
  }

  lemma {:induction false} InsertBlock<N>(m: Mem<N>, l: seq<N>, a: nat, x: N, lo: nat, hi: nat)
    requires IsListQ(m, l) && a < |l| && x !in l && Has(m, x)
    requires (lo, hi) in {(0, a + 1), (a + 1, |l| + 1)}
    ensures PathQ(Inserted(m, x, l[a], Ring(l)[a + 1]), Ring(l)[lo..hi])
  {
    var r, s := Ring(l), Ring(l)[lo..hi];
    assert Has(m, r[a]) && Has(m, r[a + 1]) && m.forw[r[a]] == r[a + 1];
    PathSlice(m, r, lo, hi);
    NotBefore(l, a, lo, hi);
    NotAfter(l, a + 1, lo, hi);
    PathFrame(m, x, r[a + 1], s);
    PathFrame(Link(m, x, r[a + 1]), r[a], x, s);
  }

  lemma {:induction false} InsertedRing<N>(l: seq<N>, a: nat, x: N)
    requires Unique(l) && a < |l| && x !in l
    ensures var l' := l[..a + 1] + [x] + l[a + 1..];
      Unique(l') && Ring(l') == (Ring(l)[..a + 1] + [x]) + Ring(l)[a + 1..]
  {
  }

  /** `delete_lines` relinks over the range. */
  lemma {:induction false} DeleteListQ<N>(m: Mem<N>, l: seq<N>, from: nat, to: nat)
    requires IsListQ(m, l) && 1 <= from <= to < |l|
    ensures IsListQ(Link(m, l[from - 1], Ring(l)[to + 1]), l[..from] + l[to + 1..])
  {
    var r := Ring(l);
    var p, n := r[from - 1], r[to + 1];
    var A, C := r[..from], r[to + 1..];
    PathSlice(m, r, 0, from);
    PathSlice(m, r, to + 1, |r|);
    PathFrame(m, p, n, A);
    PathFrame(m, p, n, C);
    PathJoin(Link(m, p, n), A, C);
    assert Ring(l[..from] + l[to + 1..]) == A + C;
  }

  lemma {:induction false} DeleteList<N>(m: Mem<N>, l: seq<N>, from: nat, to: nat)
    requires IsList(m, l) && 1 <= from <= to < |l|
    ensures IsList(Link(m, l[from - 1], Ring(l)[to + 1]), l[..from] + l[to + 1..])
  {
    ListIff(m, l);
    DeleteListQ(m, l, from, to);
    ListIff(Link(m, l[from - 1], Ring(l)[to + 1]), l[..from] + l[to + 1..]);
  }

  /** The three links that exchange two neighbouring blocks. */
  ghost function Exchanged<N>(m: Mem<N>, p: N, x0: N, x1: N, y0: N, y1: N, n: N): Mem<N> {
    Link(Link(Link(m, p, y0), y1, x0), x1, n)
  }

  /** Lines `i..j` and `j..k` of the list change places. */
  ghost function Swapped<N>(l: seq<N>, i: nat, j: nat, k: nat): seq<N>
    requires i <= j <= k <= |l|
  {
    l[..i] + l[j..k] + l[i..j] + l[k..]
  }

  /** Where the two blocks of an exchange are afterwards, and what is on both sides of them. */
  lemma {:induction false} SwappedPlace<N>(l: seq<N>, i: nat, j: nat, k: nat)
    requires 1 <= i < j < k <= |l|
    ensures var l', x := Swapped(l, i, j, k), i + k - j;
      && |l'| == |l| && l'[i - 1] == l[i - 1] && l'[x - 1] == l[k - 1]
      && l'[i..x] == l[j..k] && l'[x..k] == l[i..j]
      && Ring(l')[x] == Ring(l)[i] && Ring(l')[k] == Ring(l)[k]
  {
  }

  /** None of the four blocks of an exchange uses a pointer that the exchange overwrites. */
  lemma {:induction false} ExchangeBlock<N>(m: Mem<N>, l: seq<N>, i: nat, j: nat, k: nat, lo: nat, hi: nat)
    requires IsListQ(m, l) && 1 <= i < j < k <= |l|
    requires (lo, hi) in {(0, i), (i, j), (j, k), (k, |l| + 1)}
    ensures PathQ(Exchanged(m, l[i - 1], l[i], l[j - 1], l[j], l[k - 1], Ring(l)[k]), Ring(l)[lo..hi])
  {
    var r, s := Ring(l), Ring(l)[lo..hi];
    PathSlice(m, r, lo, hi);
    NotBefore(l, i - 1, lo, hi);
    NotBefore(l, j - 1, lo, hi);
    NotBefore(l, k - 1, lo, hi);
    NotAfter(l, i, lo, hi);
    NotAfter(l, j, lo, hi);
    NotAfter(l, k, lo, hi);
    assert Has(m, l[i - 1]) && Has(m, l[j - 1]) && Has(m, l[k - 1]) && Has(m, r[i]) && Has(m, r[j]) && Has(m, r[k]);
    var m1 := Link(m, l[i - 1], l[j]);
    PathFrame(m, l[i - 1], l[j], s);
    var m2 := Link(m1, l[k - 1], l[i]);
    PathFrame(m1, l[k - 1], l[i], s);
    PathFrame(m2, l[j - 1], r[k], s);
  }

  lemma {:induction false} ExchangeListQ<N>(m: Mem<N>, l: seq<N>, i: nat, j: nat, k: nat)
    requires IsListQ(m, l) && 1 <= i < j < k <= |l|
    ensures IsListQ(Exchanged(m, l[i - 1], l[i], l[j - 1], l[j], l[k - 1], Ring(l)[k]), Swapped(l, i, j, k))
  {
    var r := Ring(l);
    var P, X, Y, R := r[..i], r[i..j], r[j..k], r[k..];
    var m3 := Exchanged(m, l[i - 1], l[i], l[j - 1], l[j], l[k - 1], r[k]);
    ExchangeBlock(m, l, i, j, k, 0, i);
    ExchangeBlock(m, l, i, j, k, i, j);
    ExchangeBlock(m, l, i, j, k, j, k);
    ExchangeBlock(m, l, i, j, k, k, |l| + 1);
    ExchangeLinks(m, l, i, j, k);
    PathJoin(m3, P, Y);
    PathJoin(m3, X, R);
    PathJoin(m3, P + Y, X + R);
    SwappedRing(l, i, j, k);
    SwappedHas(m3, l, i, j, k);
  }

  lemma {:induction false} ExchangeList<N>(m: Mem<N>, l: seq<N>, i: nat, j: nat, k: nat)
    requires IsList(m, l) && 1 <= i < j < k <= |l|
    ensures IsList(Exchanged(m, l[i - 1], l[i], l[j - 1], l[j], l[k - 1], Ring(l)[k]), Swapped(l, i, j, k))
  {
    ListIff(m, l);
    ExchangeListQ(m, l, i, j, k);
    ListIff(Exchanged(m, l[i - 1], l[i], l[j - 1], l[j], l[k - 1], Ring(l)[k]), Swapped(l, i, j, k));
  }

  lemma {:induction false} SwappedRing<N>(l: seq<N>, i: nat, j: nat, k: nat)
    requires |l| > 0 && 1 <= i <= j <= k <= |l|
    ensures var r := Ring(l); Ring(Swapped(l, i, j, k)) == (r[..i] + r[j..k]) + (r[i..j] + r[k..])
  {
    var r, s := Ring(l), Swapped(l, i, j, k);
    assert r[..i] == l[..i] && r[j..k] == l[j..k] && r[i..j] == l[i..j];
    assert r[k..] == l[k..] + [l[0]];
    assert s[0] == l[0];
  }

  lemma {:induction false} SwappedHas<N>(m: Mem<N>, l: seq<N>, i: nat, j: nat, k: nat)
    requires 1 <= i <= j <= k <= |l| && Unique(l)
    requires forall x :: 0 <= x < |l| ==> Has(m, l[x])
    ensures Unique(Swapped(l, i, j, k))
    ensures var s := Swapped(l, i, j, k); forall x :: 0 <= x < |s| ==> Has(m, s[x])
  {
    var s := Swapped(l, i, j, k);
    assert forall x :: 0 <= x < |s| ==> s[x] == l[SwapIndex(i, j, k, x)];
  }

  /** Exchanging two blocks is cutting out the second and pasting it in front of the first ... */
  lemma {:induction false} SwappedDown<N>(l: seq<N>, i: nat, j: nat, k: nat)
    requires i <= j <= k <= |l|
    ensures var rest := l[..j] + l[k..]; Swapped(l, i, j, k) == rest[..i] + l[j..k] + rest[i..]
  {
    var rest := l[..j] + l[k..];
    assert rest[..i] == l[..i];
    assert rest[i..] == l[i..j] + l[k..];
  }

  /** ... and cutting out the first and pasting it behind the second. */
  lemma {:induction false} SwappedUp<N>(l: seq<N>, i: nat, j: nat, k: nat)
    requires i <= j <= k <= |l|
    ensures var rest := l[..i] + l[j..]; Swapped(l, i, j, k) == rest[..i + k - j] + l[i..j] + rest[i + k - j..]
  {
    var rest := l[..i] + l[j..];
    assert rest[..i + k - j] == l[..i] + l[j..k];
    assert rest[i + k - j..] == l[k..];
  }

  /** Where the line at index `x` of the exchanged list came from. */
  ghost function SwapIndex(i: nat, j: nat, k: nat, x: nat): nat
    requires i <= j <= k
  {
    if x < i || x >= k then x
    else if x < i + (k - j) then x + (j - i)
    else x - (k - j)
  }

  /** The three new neighbourhoods. */
  lemma {:induction false} ExchangeLinks<N>(m: Mem<N>, l: seq<N>, i: nat, j: nat, k: nat)
    requires IsListQ(m, l) && 1 <= i < j < k <= |l|
    ensures var m' := Exchanged(m, l[i - 1], l[i], l[j - 1], l[j], l[k - 1], Ring(l)[k]);
      && m'.forw[l[i - 1]] == l[j] && m'.back[l[j]] == l[i - 1]
      && m'.forw[l[k - 1]] == l[i] && m'.back[l[i]] == l[k - 1]
      && m'.forw[l[j - 1]] == Ring(l)[k] && m'.back[Ring(l)[k]] == l[j - 1]
  {
    assert Ring(l)[k] == if k < |l| then l[k] else l[0];
  }

  // ---------------------------------------------------------------- undo items

  /** What one recorded edit leaves on the undo stack.  `Add` and `Del` name the
      whole run of nodes, of which the stack entry holds the two ends; a move leaves
      two entries, the old and the new neighbours of the moved run. */
  datatype Item<N> =
    | Add(seg: seq<N>)
    | Del(seg: seq<N>)
    | Mov(b1: N, a1: N, b2: N, a2: N)

  /** The flip of the entry types and of the order of a move's two entries. */
  ghost function Flip<N>(e: Item<N>): Item<N> {
    match e
    case Add(seg) => Del(seg)
    case Del(seg) => Add(seg)
    case Mov(b1, a1, b2, a2) => Mov(b2, a2, b1, a1)
  }

  /** The pointers that undoing `e` relies on. */
  ghost predicate Ready<N>(m: Mem<N>, e: Item<N>) {
    match e
    case Add(seg) =>
      && |seg| > 0 && Has(m, seg[0]) && Has(m, seg[|seg| - 1])
      && var p, n := m.back[seg[0]], m.forw[seg[|seg| - 1]];
      && Has(m, p) && Has(m, n) && p != seg[|seg| - 1] && n != seg[0]
      && m.forw[p] == seg[0] && m.back[n] == seg[|seg| - 1]
    case Del(seg) =>
      && |seg| > 0 && Has(m, seg[0]) && Has(m, seg[|seg| - 1])
      && var p, n := m.back[seg[0]], m.forw[seg[|seg| - 1]];
      && Has(m, p) && Has(m, n) && p != seg[|seg| - 1] && n != seg[0]
      && m.forw[p] == n && m.back[n] == p
    case Mov(b1, a1, b2, a2) =>
      && Has(m, b1) && Has(m, a1) && Has(m, b2) && Has(m, a2)
      && m.forw[b1] == a1 && m.back[a1] == b1 && b1 != b2 && a1 != a2
      && var s, t := m.forw[b2], m.back[a2];
      && Has(m, s) && Has(m, t) && m.back[s] == b2 && m.forw[t] == a2
      && s !in {b1, b2, a1, a2} && t !in {b1, b2, a1, a2}
  }

  /** One pass of the loop of `pop_undo_stack`. */
  ghost function Undo1<N>(m: Mem<N>, e: Item<N>): Mem<N>
    requires Ready(m, e)
  {
    match e
    case Add(seg) =>
      Link(m, m.back[seg[0]], m.forw[seg[|seg| - 1]])
    case Del(seg) =>
      var t := seg[|seg| - 1];
      var m1 := Link(m, m.back[seg[0]], seg[0]);
      Link(m1, t, m1.forw[t])
    case Mov(b1, a1, b2, a2) =>
      var m1 := Link(m, b1, m.forw[b2]);
      var m2 := Link(m1, m1.back[a2], a1);
      Link(m2, b2, a2)
  }

  /** Undoing one item and then its flip gives back every pointer of the memory. */
  lemma {:induction false} Undo1Involution<N>(m: Mem<N>, e: Item<N>)
    requires Ready(m, e)
    ensures Ready(Undo1(m, e), Flip(e))
    ensures Undo1(Undo1(m, e), Flip(e)) == m
  {
    var m' := Undo1(m, e);
    var m'' := Undo1(m', Flip(e));
    assert m''.forw == m.forw;
    assert m''.back == m.back;
  }

  lemma {:induction false} Undo1Sub<N>(m1: Mem<N>, m2: Mem<N>, e: Item<N>)
    requires Sub(m1, m2) && Ready(m1, e)
    ensures Ready(m2, e) && Sub(Undo1(m1, e), Undo1(m2, e))
  {
  }

  lemma {:induction false} Undo1Keys<N>(m: Mem<N>, e: Item<N>)
    requires Ready(m, e)
    ensures Undo1(m, e).forw.Keys == m.forw.Keys && Undo1(m, e).back.Keys == m.back.Keys
  {
  }

  // ---------------------------------------------------------------- the whole stack

  /** Every item can be undone when its turn comes, from the top down. */
  ghost predicate AllReady<N>(m: Mem<N>, es: seq<Item<N>>)
    decreases |es|
  {
    |es| > 0 ==>
      && Ready(m, es[|es| - 1])
      && AllReady(Undo1(m, es[|es| - 1]), es[..|es| - 1])
  }

  /** The memory after the loop of `pop_undo_stack`. */
  ghost function UndoAll<N>(m: Mem<N>, es: seq<Item<N>>): Mem<N>
    requires AllReady(m, es)
    decreases |es|
  {
    if |es| == 0 then m else UndoAll(Undo1(m, es[|es| - 1]), es[..|es| - 1])
  }

  /** The stack left by `pop_undo_stack`: flipped and reversed. */
  ghost function Flipped<N>(es: seq<Item<N>>): seq<Item<N>> {
    if |es| == 0 then [] else [Flip(es[|es| - 1])] + Flipped(es[..|es| - 1])
  }

  lemma {:induction false} FlippedBottom<N>(e: Item<N>, es: seq<Item<N>>)
    ensures Flipped([e] + es) == Flipped(es) + [Flip(e)]
  {
    var s := [e] + es;
    if |es| == 0 {
      assert s == [e] && s[..0] == [];
    } else {
      assert s[|s| - 1] == es[|es| - 1] && s[..|s| - 1] == [e] + es[..|es| - 1];
      FlippedBottom(e, es[..|es| - 1]);
    }
  }

  lemma {:induction false} FlippedTwice<N>(es: seq<Item<N>>)
    ensures Flipped(Flipped(es)) == es
  {
    if |es| > 0 {
      var e, r := es[|es| - 1], es[..|es| - 1];
      FlippedBottom(Flip(e), Flipped(r));
      FlippedTwice(r);
      assert es == r + [e];
    }
  }

  lemma {:induction false} UndoSub<N>(m1: Mem<N>, m2: Mem<N>, es: seq<Item<N>>)
    requires Sub(m1, m2) && AllReady(m1, es)
    ensures AllReady(m2, es) && Sub(UndoAll(m1, es), UndoAll(m2, es))
    decreases |es|
  {
    if |es| > 0 {
      var e := es[|es| - 1];
      Undo1Sub(m1, m2, e);
      UndoSub(Undo1(m1, e), Undo1(m2, e), es[..|es| - 1]);
    }
  }

  lemma {:induction false} UndoKeys<N>(m: Mem<N>, es: seq<Item<N>>)
    requires AllReady(m, es)
    ensures UndoAll(m, es).forw.Keys == m.forw.Keys && UndoAll(m, es).back.Keys == m.back.Keys
    decreases |es|
  {
    if |es| > 0 {
      Undo1Keys(m, es[|es| - 1]);
      UndoKeys(Undo1(m, es[|es| - 1]), es[..|es| - 1]);
    }
  }

  /** Undoing a stack whose bottom item is `e` undoes `e` last. */
  lemma {:induction false} UndoBottom<N>(m: Mem<N>, e: Item<N>, es: seq<Item<N>>)
    requires AllReady(m, es) && Ready(UndoAll(m, es), e)
    ensures AllReady(m, [e] + es) && UndoAll(m, [e] + es) == Undo1(UndoAll(m, es), e)
    decreases |es|
  {
    var s := [e] + es;
    if |es| == 0 {
      assert s == [e] && s[..0] == [];
    } else {
      var x := es[|es| - 1];
      assert s[|s| - 1] == x && s[..|s| - 1] == [e] + es[..|es| - 1];
      UndoBottom(Undo1(m, x), e, es[..|es| - 1]);
    }
  }

  /** Undoing twice redoes: from any memory in which the stack can be undone, the
      flipped and reversed stack can be undone too, and leads back to that memory. */
  lemma {:induction false} UndoInvolution<N>(m: Mem<N>, es: seq<Item<N>>)
    requires AllReady(m, es)
    ensures AllReady(UndoAll(m, es), Flipped(es))
    ensures UndoAll(UndoAll(m, es), Flipped(es)) == m
    decreases |es|
  {
    if |es| > 0 {
      var e := es[|es| - 1];
      var m1 := Undo1(m, e);
      UndoInvolution(m1, es[..|es| - 1]);
      Undo1Involution(m, e);
      UndoBottom(UndoAll(m, es), Flip(e), Flipped(es[..|es| - 1]));
    }
  }

  /** Recording one more edit: when undoing it leads to a memory that extends the one
      the rest of the stack was recorded in, the whole stack still leads to the saved
      memory. */
  lemma {:induction false} UndoPush<N>(m0: Mem<N>, m1: Mem<N>, es: seq<Item<N>>, e: Item<N>)
    requires AllReady(m0, es) && Ready(m1, e) && Sub(m0, Undo1(m1, e))
    ensures AllReady(m1, es + [e]) && Sub(UndoAll(m0, es), UndoAll(m1, es + [e]))
  {
    var s := es + [e];
    assert s[|s| - 1] == e && s[..|s| - 1] == es;
    UndoSub(m0, Undo1(m1, e), es);
  }
}
