/** The undo stack as ed stores it: entries of a type and two node pointers, and the
    items they stand for. */
module EdStack {
  import opened EdLinks

  datatype Kind = UADD | UDEL | UMOV | VMOV

  datatype Entry<N> = Entry(kind: Kind, head: N, tail: N)

  /** The effect of `type ^= 1` on the four entry types */
  function FlipKind(k: Kind): Kind {
    match k
    case UADD => UDEL
    case UDEL => UADD
    case UMOV => VMOV
    case VMOV => UMOV
  }

  function FlipEntry<N>(e: Entry<N>): Entry<N> {
    e.(kind := FlipKind(e.kind))
  }

  predicate IsMove(k: Kind) {
    k == UMOV || k == VMOV
  }

  /** The stack `raw` holds the items `es`; a move takes two entries. */
  ghost predicate Encodes<N>(raw: seq<Entry<N>>, es: seq<Item<N>>)
    decreases |es|
  {
    if |es| == 0 then raw == [] else
      var rest := es[..|es| - 1];
      match es[|es| - 1]
      case Add(seg) =>
        && |raw| >= 1 && |seg| > 0 && raw[|raw| - 1] == Entry(UADD, seg[0], seg[|seg| - 1])
        && Encodes(raw[..|raw| - 1], rest)
      case Del(seg) =>
        && |raw| >= 1 && |seg| > 0 && raw[|raw| - 1] == Entry(UDEL, seg[0], seg[|seg| - 1])
        && Encodes(raw[..|raw| - 1], rest)
      case Mov(b1, a1, b2, a2) =>
        && |raw| >= 2 && IsMove(raw[|raw| - 1].kind) && IsMove(raw[|raw| - 2].kind)
        && raw[|raw| - 1].head == b2 && raw[|raw| - 1].tail == a2
        && raw[|raw| - 2].head == b1 && raw[|raw| - 2].tail == a1
        && Encodes(raw[..|raw| - 2], rest)
  }

  /** The types after the loop of `pop_undo_stack`: of a move only the lower entry is flipped. */
  ghost function FlipRaw<N>(raw: seq<Entry<N>>): seq<Entry<N>> {
    if |raw| == 0 then []
    else if IsMove(raw[|raw| - 1].kind) && |raw| >= 2 then
      FlipRaw(raw[..|raw| - 2]) + [FlipEntry(raw[|raw| - 2]), raw[|raw| - 1]]
    else
      FlipRaw(raw[..|raw| - 1]) + [FlipEntry(raw[|raw| - 1])]
  }

  lemma {:induction false} FlipRawLength<N>(raw: seq<Entry<N>>)
    ensures |FlipRaw(raw)| == |raw|
  {
    if |raw| == 0 {
    } else if IsMove(raw[|raw| - 1].kind) && |raw| >= 2 {
      FlipRawLength(raw[..|raw| - 2]);
    } else {
      FlipRawLength(raw[..|raw| - 1]);
    }
  }

  ghost function Reversed<T>(s: seq<T>): seq<T> {
    if |s| == 0 then [] else [s[|s| - 1]] + Reversed(s[..|s| - 1])
  }

  lemma {:induction false} ReversedAt<T>(s: seq<T>)
    ensures |Reversed(s)| == |s|
    ensures forall i :: 0 <= i < |s| ==> Reversed(s)[i] == s[|s| - 1 - i]
  {
    if |s| > 0 {
      ReversedAt(s[..|s| - 1]);
    }
  }

  lemma {:induction false} EncodesBottom<N>(c: seq<Entry<N>>, e: Item<N>, raw: seq<Entry<N>>, es: seq<Item<N>>)
    requires Encodes(c, [e]) && Encodes(raw, es)
    ensures Encodes(c + raw, [e] + es)
    decreases |es|
  {
    var r, s := c + raw, [e] + es;
    if |es| == 0 {
      assert r == c && s == [e];
    } else {
      var k := if es[|es| - 1].Mov? then 2 else 1;
      assert s[|s| - 1] == es[|es| - 1] && s[..|s| - 1] == [e] + es[..|es| - 1];
      assert r[..|r| - k] == c + raw[..|raw| - k];
      EncodesBottom(c, e, raw[..|raw| - k], es[..|es| - 1]);
    }
  }

  lemma {:induction false} ReversedAppend<T>(s: seq<T>, x: T)
    ensures Reversed(s + [x]) == [x] + Reversed(s)
  {
    assert (s + [x])[..|s|] == s;
  }

  lemma {:induction false} FlipTopMove<N>(raw: seq<Entry<N>>)
    requires |raw| >= 2 && IsMove(raw[|raw| - 1].kind)
    ensures Reversed(FlipRaw(raw)) == [raw[|raw| - 1], FlipEntry(raw[|raw| - 2])] + Reversed(FlipRaw(raw[..|raw| - 2]))
  {
    var g := FlipRaw(raw[..|raw| - 2]);
    var x, y := FlipEntry(raw[|raw| - 2]), raw[|raw| - 1];
    assert FlipRaw(raw) == (g + [x]) + [y];
    ReversedAppend(g + [x], y);
    ReversedAppend(g, x);
  }

  lemma {:induction false} FlipTopOne<N>(raw: seq<Entry<N>>)
    requires |raw| >= 1 && !IsMove(raw[|raw| - 1].kind)
    ensures Reversed(FlipRaw(raw)) == [FlipEntry(raw[|raw| - 1])] + Reversed(FlipRaw(raw[..|raw| - 1]))
  {
    ReversedAppend(FlipRaw(raw[..|raw| - 1]), FlipEntry(raw[|raw| - 1]));
  }

  /** The number of entries an item takes */
  ghost function Width<N>(e: Item<N>): nat {
    if e.Mov? then 2 else 1
  }

  /** The flipped and reversed entries of the top item */
  ghost function TopFlipped<N>(raw: seq<Entry<N>>, e: Item<N>): seq<Entry<N>>
    requires |raw| >= Width(e)
  {
    if e.Mov? then [raw[|raw| - 1], FlipEntry(raw[|raw| - 2])] else [FlipEntry(raw[|raw| - 1])]
  }

  lemma {:induction false} EncodesOne<N>(c: seq<Entry<N>>, e: Item<N>)
    requires |c| == Width(e)
    requires e.Mov? ==>
      && IsMove(c[0].kind) && IsMove(c[1].kind)
      && c[0].head == e.b1 && c[0].tail == e.a1 && c[1].head == e.b2 && c[1].tail == e.a2
    requires !e.Mov? ==>
      |e.seg| > 0 && c[0] == Entry(if e.Add? then UADD else UDEL, e.seg[0], e.seg[|e.seg| - 1])
    ensures Encodes(c, [e])
  {
    assert [e][..0] == [];
    assert c[..0] == [];
  }

  lemma {:induction false} FlipTop<N>(raw: seq<Entry<N>>, es: seq<Item<N>>)
    requires Encodes(raw, es) && |es| > 0
    ensures var e := es[|es| - 1];
      && |raw| >= Width(e)
      && Encodes(raw[..|raw| - Width(e)], es[..|es| - 1])
      && Encodes(TopFlipped(raw, e), [Flip(e)])
      && Reversed(FlipRaw(raw)) == TopFlipped(raw, e) + Reversed(FlipRaw(raw[..|raw| - Width(e)]))
  {
    var e := es[|es| - 1];
    EncodesOne(TopFlipped(raw, e), Flip(e));
    if e.Mov? {
      FlipTopMove(raw);
    } else {
      FlipTopOne(raw);
    }
  }

  /** Flipping the types and reversing the order of the entries flips the items. */
  lemma {:induction false} FlipEncodes<N>(raw: seq<Entry<N>>, es: seq<Item<N>>)
    requires Encodes(raw, es)
    ensures Encodes(Reversed(FlipRaw(raw)), Flipped(es))
    decreases |es|
  {
    if |es| > 0 {
      var e := es[|es| - 1];
      FlipTop(raw, es);
      var low, rest := raw[..|raw| - Width(e)], es[..|es| - 1];
      FlipEncodes(low, rest);
      EncodesBottom(TopFlipped(raw, e), Flip(e), Reversed(FlipRaw(low)), Flipped(rest));
    }
  }

  lemma {:induction false} EncodesEmpty<N>(raw: seq<Entry<N>>, es: seq<Item<N>>)
    requires Encodes(raw, es)
    ensures raw == [] <==> es == []
  {
  }

  lemma {:induction false} EncodesPush<N>(raw: seq<Entry<N>>, es: seq<Item<N>>, c: seq<Entry<N>>, e: Item<N>)
    requires Encodes(raw, es) && Encodes(c, [e])
    ensures Encodes(raw + c, es + [e])
  {
    var r, s := raw + c, es + [e];
    var k := if e.Mov? then 2 else 1;
    assert [e][..0] == [];
    assert s[|s| - 1] == e && s[..|s| - 1] == es;
    assert c[..|c| - k] == [];
    assert |c| == k;
    assert r[..|r| - k] == raw;
  }

  /** The stack while a run of lines is being added: one entry for the whole run. */
  ghost function RunEntries<N>(raw: seq<Entry<N>>, seg: seq<N>): seq<Entry<N>> {
    if |seg| == 0 then raw else raw + [Entry(UADD, seg[0], seg[|seg| - 1])]
  }

  ghost function RunItems<N>(es: seq<Item<N>>, seg: seq<N>): seq<Item<N>> {
    if |seg| == 0 then es else es + [Add(seg)]
  }

  lemma {:induction false} RunEncodes<N>(raw: seq<Entry<N>>, es: seq<Item<N>>, seg: seq<N>)
    requires Encodes(raw, es)
    ensures Encodes(RunEntries(raw, seg), RunItems(es, seg))
  {
    if |seg| > 0 {
      EncodesOne([Entry(UADD, seg[0], seg[|seg| - 1])], Add(seg));
      EncodesPush(raw, es, [Entry(UADD, seg[0], seg[|seg| - 1])], Add(seg));
    }
  }
}
