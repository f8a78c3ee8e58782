/** The slots of the swap file: a free list threaded through an array. */
module SwapFile {
  import opened SeqUtil
  import opened FreeList
  import PagerState

  const PAGESIZE: nat := PagerState.PAGESIZE
  const SWAPSIZE: nat := PagerState.SWAPSIZE
  const ADDRESS_NONE: nat := 0xFFFF_FFFE

  ghost function Links(slots: seq<nat>): map<nat, nat> {
    map i | 0 <= i < |slots| :: slots[i]
  }

  lemma {:induction false} LinksUpdate(slots: seq<nat>, k: nat, v: nat)
    requires k < |slots|
    ensures Links(slots[k := v]) == Links(slots)[k := v]
  {
  }

  /** The slots 0, 1, 2, ... each linked to the next are all free. */
  lemma {:induction false} InitThreaded(slots: seq<nat>)
    requires |slots| == SWAPSIZE && slots[SWAPSIZE - 1] == ADDRESS_NONE
    requires forall i :: 0 <= i < SWAPSIZE - 1 ==> slots[i] == i + 1
    ensures Threaded(Links(slots), 0, ADDRESS_NONE, seq(SWAPSIZE, i => i))
  {
    StepsIn(0, 1, SWAPSIZE - 1);
    StepsThreaded(Links(slots), 0, 1, SWAPSIZE - 1, ADDRESS_NONE);
    StepsOne(0, SWAPSIZE - 1);
    assert Steps(0, 1, SWAPSIZE - 1) == seq(SWAPSIZE, i => i);
  }

  class Swapfile {
    const slots: array<nat>
    var head: nat
    var usage: int
    ghost var free: seq<nat>   // the free slots, the next to be handed out first
    ghost var out: set<nat>    // the slots handed out

    /** The free slots, read along the links, and the slots handed out are together all slots,
        none of them twice; `usage` counts the slots handed out. */
    ghost predicate Valid()
      reads this, slots
    {
      && slots.Length == SWAPSIZE && Threaded(Links(slots[..]), head, ADDRESS_NONE, free)
      && (forall k :: k in free ==> k < SWAPSIZE)
      && (forall k: nat :: k in out <==> k < SWAPSIZE && k !in free)
      && usage == |out| && usage + |free| == SWAPSIZE
    }

    constructor ()
      ensures Valid() && fresh(slots) && free == seq(SWAPSIZE, i => i) && out == {}
    {
      slots := new nat[SWAPSIZE];
      head, usage := 0, 0;
      free, out := seq(SWAPSIZE, i => i), {};
      new;
      var i := 0;
      while i < SWAPSIZE - 1
        invariant 0 <= i <= SWAPSIZE - 1 && slots.Length == SWAPSIZE && fresh(slots)
        invariant head == 0 && usage == 0 && free == seq(SWAPSIZE, i => i) && out == {}
        invariant forall j :: 0 <= j < i ==> slots[j] == j + 1
        modifies slots
      {
        slots[i] := i + 1;
        i := i + 1;
      }
      slots[SWAPSIZE - 1] := ADDRESS_NONE;
      InitThreaded(slots[..]);
      forall k: nat | k < SWAPSIZE ensures k in free {
        assert free[k] == k;
      }
    }

    /** Hand out the first free slot: one that nobody has. */
    method SwapslotAlloc() returns (address: nat)
      requires Valid() && usage < SWAPSIZE
      modifies this
      ensures Valid() && |old(free)| > 0 && free == old(free)[1..]
      ensures address == old(free)[0] * PAGESIZE && PagerState.IsSlot(address)
      ensures address / PAGESIZE !in old(out) && out == old(out) + {address / PAGESIZE}
    {
      ghost var k := free[0];
      assert k in free;
      Acyclic(Links(slots[..]), head, ADDRESS_NONE, free);
      UniqueTail(free);
      var slot := head;
      head := slots[slot];
      usage := usage + 1;
      free, out := free[1..], out + {k};
      address := slot * PAGESIZE;
    }

    /** Take back a slot that was handed out; it is the next one to be handed out. */
    method SwapslotFree(address: nat)
      requires Valid() && address % PAGESIZE == 0 && address / PAGESIZE in out
      modifies this, slots
      ensures Valid() && free == [address / PAGESIZE] + old(free) && out == old(out) - {address / PAGESIZE}
    {
      assert out != {};
      var slot := address / PAGESIZE;
      ThreadedPush(Links(slots[..]), head, ADDRESS_NONE, free, slot);
      LinksUpdate(slots[..], slot, head);
      ghost var was := slots[..];
      slots[slot] := head;
      assert slots[..] == was[slot := head];
      head := slot;
      usage := usage - 1;
      free, out := [slot] + free, out - {slot};
    }

    /** With every slot handed out the head is no slot at all: one more allocation, which
        nothing in the code forbids, would read past the array. */
    lemma {:induction false} Exhausted()
      requires Valid()
      ensures usage == SWAPSIZE <==> head == ADDRESS_NONE
      ensures head == ADDRESS_NONE || head < slots.Length
    {
      if |free| > 0 {
        assert free[0] in free;
      }
    }
  }
}
