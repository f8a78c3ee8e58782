/** The frame table: free frames linked through their own first words. */
module FrameTable {
  import opened SeqUtil
  import opened Words
  import opened FreeList
  import opened PagerState

  const NULLFRAME: nat := 0

  /** The link word in each frame */
  ghost function Links(mem: map<Frame, Page>): map<nat, nat>
    requires forall f :: f in mem ==> |mem[f]| == PAGESIZE
  {
    map f | f in mem :: BytesWord(mem[f])
  }

  ghost predicate Sized(mem: map<Frame, Page>) {
    forall f :: f in mem ==> |mem[f]| == PAGESIZE && 0 < f < WORD_LIMIT
  }

  /** The range is a whole number of frames. */
  predicate Whole(low: nat, high: nat) {
    (high - low) % PAGESIZE == 0
  }

  /** The frames from `low` to below `high` */
  ghost function Frames(low: nat, high: nat): seq<Frame>
    requires low + PAGESIZE <= high
  {
    Steps(low, PAGESIZE, high - PAGESIZE)
  }

  lemma {:induction false} StampLinks(mem: map<Frame, Page>, f: Frame, w: nat)
    requires Sized(mem) && f in mem && w < WORD_LIMIT
    ensures Sized(mem[f := Stamped(mem[f], w)])
    ensures Links(mem[f := Stamped(mem[f], w)]) == Links(mem)[f := w] && Links(mem).Keys == mem.Keys
  {
    WordRoundTrip(w, mem[f][4..]);
  }

  /** The frames linked so far, each to the one after it */
  ghost predicate Linked(mem: map<Frame, Page>, low: nat, page: nat, high: nat, done: seq<Frame>, keys: set<Frame>) {
    && low <= page && page + PAGESIZE <= high && Whole(page, high)
    && mem.Keys == keys && Sized(mem) && (forall f :: f in Frames(low, high) ==> f in mem)
    && Frames(low, high) == done + Frames(page, high)
    && forall f :: f in done ==> f < page && f in mem && f + 2 * PAGESIZE <= high && Links(mem)[f] == f + PAGESIZE
  }

  lemma {:induction false} LinkedNext(mem: map<Frame, Page>, low: nat, page: nat, high: nat, done: seq<Frame>,
      keys: set<Frame>)
    requires Linked(mem, low, page, high, done, keys) && page + PAGESIZE < high <= WORD_LIMIT
    ensures page in mem && |mem[page]| == PAGESIZE && page + 2 * PAGESIZE <= high
    ensures Linked(mem[page := Stamped(mem[page], page + PAGESIZE)], low, page + PAGESIZE, high, done + [page], keys)
  {
    hide BytesWord, Stamped, Links;
    assert Frames(page, high) == [page] + Frames(page + PAGESIZE, high);
    assert page in Frames(low, high);
    StampLinks(mem, page, page + PAGESIZE);
  }

  lemma {:induction false} LinkedLast(mem: map<Frame, Page>, low: nat, page: nat, high: nat, done: seq<Frame>,
      keys: set<Frame>)
    requires Linked(mem, low, page, high, done, keys) && page + PAGESIZE == high <= WORD_LIMIT
    ensures page in mem && |mem[page]| == PAGESIZE && Frames(low, high) == done + [page]
    ensures var m := mem[page := Stamped(mem[page], NULLFRAME)];
      Sized(m) && Threaded(Links(m), low, NULLFRAME, Frames(low, high)) && m.Keys == keys
  {
    hide BytesWord, Stamped, Links;
    assert Frames(page, high) == [page] + Steps(high, PAGESIZE, page) == [page];
    assert page in Frames(low, high);
    StampLinks(mem, page, NULLFRAME);
    StepsThreaded(Links(mem[page := Stamped(mem[page], NULLFRAME)]), low, PAGESIZE, page, NULLFRAME);
  }

  /** Link all frames from `low` to below `high`.  The loop counts one frame less than it links. */
  method LinkFrames(low: nat, high: nat, mem: map<Frame, Page>) returns (m: map<Frame, Page>, total: int)
    requires 0 < low && low + PAGESIZE <= high <= WORD_LIMIT && Whole(low, high)
    requires Sized(mem) && forall f :: f in mem <==> f in Frames(low, high)
    ensures Sized(m) && Threaded(Links(m), low, NULLFRAME, Frames(low, high)) && m.Keys == mem.Keys
    ensures total == |Frames(low, high)| - 1
  {
    hide Linked, Stamped, Threaded, Links, Sized, Frames, Whole;
    var page := low;
    m, total := mem, 0;
    ghost var done: seq<Frame>, keys := [], mem.Keys;
    LinkedNone(mem, low, high);
    while page < high - PAGESIZE
      invariant low <= page <= high - PAGESIZE
      invariant Linked(m, low, page, high, done, keys) && total == |done|
    {
      LinkedNext(m, low, page, high, done, keys);
      m := m[page := Stamped(m[page], page + PAGESIZE)];
      done := done + [page];
      page := page + PAGESIZE;
      total := total + 1;
    }
    assert page == high - PAGESIZE;
    LinkedLast(m, low, page, high, done, keys);
    m := m[high - PAGESIZE := Stamped(m[high - PAGESIZE], NULLFRAME)];
  }

  lemma {:induction false} LinkedNone(mem: map<Frame, Page>, low: nat, high: nat)
    requires low + PAGESIZE <= high && Whole(low, high)
    requires Sized(mem) && forall f :: f in mem <==> f in Frames(low, high)
    ensures Linked(mem, low, low, high, [], mem.Keys)
  {
    assert [] + Frames(low, high) == Frames(low, high);
  }

  class Table {
    var mem: map<Frame, Page>
    var totalFrames: int
    var firstFree: nat
    var totalInUse: int
    ghost var free: seq<Frame>
    ghost var out: set<Frame>

    ghost predicate Valid()
      reads this
    {
      && Sized(mem) && Threaded(Links(mem), firstFree, NULLFRAME, free)
      && (forall f :: f in mem <==> f in free || f in out) && (forall f :: f in free ==> f !in out)
      && totalInUse == |out| && totalInUse + |free| == totalFrames + 1
    }

    /** frame_init: every frame is free. */
    constructor (low: nat, high: nat, mem: map<Frame, Page>)
      requires 0 < low && low + PAGESIZE <= high <= WORD_LIMIT && Whole(low, high)
      requires Sized(mem) && forall f :: f in mem <==> f in Frames(low, high)
      ensures Valid() && free == Frames(low, high) && out == {} && totalFrames == |free| - 1
      ensures this.mem.Keys == mem.Keys
    {
      var m, total := LinkFrames(low, high, mem);
      this.mem, totalFrames, firstFree, totalInUse := m, total, low, 0;
      free, out := Frames(low, high), {};
    }

    /** Hand out the first free frame, one that nobody has; 0 when there is none. */
    method FrameAlloc() returns (frame: nat)
      requires Valid()
      modifies this
      ensures Valid() && mem == old(mem) && totalFrames == old(totalFrames)
      ensures (Ram(mem, free), frame) == PagerState.FrameAlloc(Ram(old(mem), old(free)))
      ensures frame != NULLFRAME <==> |old(free)| > 0
      ensures frame != NULLFRAME ==> frame !in old(out) && out == old(out) + {frame}
      ensures frame == NULLFRAME ==> out == old(out)
    {
      frame := firstFree;
      if frame != NULLFRAME {
        assert frame in free;
        Acyclic(Links(mem), firstFree, NULLFRAME, free);
        UniqueTail(free);
        firstFree := BytesWord(mem[frame]);
        totalInUse := totalInUse + 1;
        free, out := free[1..], out + {frame};
      }
    }

    /** Take a frame back; only its first word is overwritten. */
    method FrameFree(frame: nat)
      requires Valid() && frame in out
      modifies this
      ensures Valid() && totalFrames == old(totalFrames) && out == old(out) - {frame}
      ensures frame in old(mem) && |old(mem)[frame]| == PAGESIZE
      ensures Ram(mem, free) == PagerState.FrameFree(Ram(old(mem), old(free)), frame)
    {
      HeadWord();
      ThreadedPush(Links(mem), firstFree, NULLFRAME, free, frame);
      StampLinks(mem, frame, firstFree);
      mem := mem[frame := Stamped(mem[frame], firstFree)];
      firstFree := frame;
      totalInUse := totalInUse - 1;
      free, out := [frame] + free, out - {frame};
    }

    lemma {:induction false} HeadWord()
      requires Valid()
      ensures firstFree < WORD_LIMIT && firstFree == if |free| == 0 then 0 else free[0]
    {
      if |free| > 0 {
        assert free[0] in free;
      }
    }

    /** frames_free reports one frame less than there are: 0 while one is left, and -1 after. */
    method FramesFree() returns (n: int)
      requires Valid()
      ensures n == |free| - 1
    {
      n := totalFrames - totalInUse;
    }
  }
}
