/** Copies between user memory and a thread's buffer, one page at a time. */
module CopyBuffer {
  import opened Words
  import PagerState

  type Page = seq<Byte>

  const PAGESIZE: nat := PagerState.PAGESIZE
  const COPY_BUFSIZ: nat := 4 * PAGESIZE

  /** The pages of a process, by address; all of them whole */
  type User = map<nat, Page>

  // ---------------------------------------------------------------- the packed word

  function LoHalf(w: nat): (r: nat)
    ensures r < 65536
  {
    w % 65536
  }

  function HiHalf(w: nat): (r: nat)
    ensures r < 65536
  {
    w / 65536 % 65536
  }

  function Packed(lo: nat, hi: nat): nat {
    lo + hi * 65536
  }

  lemma {:induction false} Unpack(lo: nat, hi: nat)
    requires lo < 65536 && hi < 65536
    ensures LoHalf(Packed(lo, hi)) == lo && HiHalf(Packed(lo, hi)) == hi && Packed(lo, hi) < WORD_LIMIT
  {
    assert Packed(lo, hi) / 65536 == hi;
  }

  // ---------------------------------------------------------------- user memory, flat

  function PageOf(a: nat): nat {
    a / PAGESIZE * PAGESIZE
  }

  /** All pages that hold a byte from `a` to below `b` are there. */
  ghost predicate Backed(user: User, a: nat, b: nat) {
    forall x {:trigger PageOf(x)} :: a <= x < b ==> PageOf(x) in user && |user[PageOf(x)]| == PAGESIZE
  }

  ghost function ByteAt(user: User, a: nat): Byte
    requires PageOf(a) in user && |user[PageOf(a)]| == PAGESIZE
  {
    user[PageOf(a)][a % PAGESIZE]
  }

  /** The `n` bytes at `a`, whatever pages they are in */
  ghost function Flat(user: User, a: nat, n: nat): (r: seq<Byte>)
    requires Backed(user, a, a + n)
    ensures |r| == n
  {
    seq(n, i requires 0 <= i < n => assert PageOf(a + i) in user; ByteAt(user, a + i))
  }

  /** Within one page, addresses run along the page. */
  lemma {:induction false} SamePage(a: nat, i: nat)
    requires a % PAGESIZE + i < PAGESIZE
    ensures PageOf(a + i) == PageOf(a) && (a + i) % PAGESIZE == a % PAGESIZE + i
  {
  }

  lemma {:induction false} NextPage(a: nat)
    ensures PageOf(a) + PAGESIZE == a + (PAGESIZE - a % PAGESIZE) && PageOf(a + PAGESIZE) == PageOf(a) + PAGESIZE
    ensures (PageOf(a) + PAGESIZE) % PAGESIZE == 0
  {
  }

  lemma {:induction false} FlatPage(user: User, a: nat, n: nat)
    requires Backed(user, a, a + n) && a % PAGESIZE + n <= PAGESIZE && n > 0
    ensures PageOf(a) in user && |user[PageOf(a)]| == PAGESIZE
    ensures Flat(user, a, n) == user[PageOf(a)][a % PAGESIZE..a % PAGESIZE + n]
  {
    assert PageOf(a + 0) in user;
    forall i | 0 <= i < n ensures Flat(user, a, n)[i] == user[PageOf(a)][a % PAGESIZE + i] {
      SamePage(a, i);
    }
  }

  lemma {:induction false} FlatSplit(user: User, a: nat, m: nat, n: nat)
    requires Backed(user, a, a + m + n)
    ensures Flat(user, a, m + n) == Flat(user, a, m) + Flat(user, a + m, n)
  {
    var tail := Flat(user, a, m + n)[m..];
    forall i | 0 <= i < |tail| ensures tail[i] == Flat(user, a + m, n)[i] {
      assert a + (m + i) == a + m + i;
    }
  }

  // ---------------------------------------------------------------- placing bytes

  /** The block with `bytes` written at `at`, if they fit */
  ghost function Placed(block: seq<Byte>, at: nat, bytes: seq<Byte>): seq<Byte> {
    if at + |bytes| <= |block| then Written(block, at, bytes) else block
  }

  lemma {:induction false} PlacedMore(block: seq<Byte>, at: nat, bytes: seq<Byte>, more: seq<Byte>)
    requires at + |bytes| + |more| <= |block|
    ensures Placed(Placed(block, at, bytes), at + |bytes|, more) == Placed(block, at, bytes + more)
  {
  }

  lemma {:induction false} PlacedOne(block: seq<Byte>, at: nat, bytes: seq<Byte>, b: Byte)
    requires at + |bytes| < |block|
    ensures Placed(block, at, bytes)[at + |bytes| := b] == Placed(block, at, bytes + [b])
  {
  }

  lemma {:induction false} PlacedNone(block: seq<Byte>, at: nat)
    ensures Placed(block, at, []) == block
  {
  }

  // ---------------------------------------------------------------- copying in

  /** How many bytes one page's share of the copy is */
  function Chunk(size: nat, offset: nat, addr: nat): nat {
    if offset < size then Min(size - offset, PAGESIZE - addr % PAGESIZE) else 0
  }

  /** copyInContinue: copy to the end of the page or of the request, whichever comes first. */
  method CopyInContinue(page: Page, addr: nat, data: nat, buffer: array<Byte>)
    returns (data': nat, addr': nat, done: bool)
    requires |page| == PAGESIZE && buffer.Length == COPY_BUFSIZ
    modifies buffer
    ensures var size, offset, lo := Min(COPY_BUFSIZ, LoHalf(data)), HiHalf(data), addr % PAGESIZE;
      var n := Chunk(size, offset, addr);
      && data' == Packed(size, offset + n) && (done <==> offset + n == size) && addr' == PageOf(addr + PAGESIZE)
      && buffer[..] == Placed(old(buffer[..]), offset, page[lo..lo + n])
  {
    hide Placed, PageOf, Packed, LoHalf, HiHalf;
    var size, offset, src := Min(COPY_BUFSIZ, LoHalf(data)), HiHalf(data), addr % PAGESIZE;
    ghost var start, lo, was := offset, src, buffer[..];
    PlacedNone(was, start);
    assert page[lo..src] == [];
    while offset < size
      invariant offset - start == src - lo && lo <= src < PAGESIZE
      invariant start < size ==> offset <= size
      invariant size <= start ==> offset == start
      invariant buffer[..] == Placed(was, start, page[lo..src])
    {
      ghost var now := buffer[..];
      PlacedOne(was, start, page[lo..src], page[src]);
      assert page[lo..src] + [page[src]] == page[lo..src + 1];
      buffer[offset] := page[src];
      assert buffer[..] == now[offset := page[src]];
      src := src + 1;
      offset := offset + 1;
      if src == PAGESIZE {
        break;
      }
    }
    assert src == lo + Chunk(size, start, addr);
    data', addr', done := Packed(size, offset), PageOf(addr + PAGESIZE), offset == size;
  }

  /** What remains to be copied, given the packed word */
  function Remaining(data: nat): int {
    Min(COPY_BUFSIZ, LoHalf(data)) - HiHalf(data)
  }

  lemma {:induction false} HalfBound(data: nat)
    ensures LoHalf(data) < 65536 && HiHalf(data) < 65536
  {
  }

  lemma {:induction false} ContinueAddr(a: nat)
    ensures PageOf(PageOf(a + PAGESIZE)) == PageOf(a + PAGESIZE)
  {
    NextPage(a);
  }

  /** The word a call starts with: an append goes on where the last copy ended. */
  function Begun(data: nat, size: nat, append: bool): nat {
    if append then Packed(LoHalf(LoHalf(data) + size), HiHalf(data)) else Packed(LoHalf(size), 0)
  }

  /** The bytes and the page the copy touches are there. */
  ghost predicate Ready(user: User, a: nat, n: nat) {
    Backed(user, a, a + n) && PageOf(a) in user && |user[PageOf(a)]| == PAGESIZE
  }

  /** One page's share, and the rest */
  lemma {:induction false} ChunkStep(user: User, a: nat, n: nat, size: nat, offset: nat)
    requires Ready(user, a, n) && offset <= size && n == size - offset
    ensures var m := Chunk(size, offset, a);
      && m <= n && (0 < n ==> 0 < m) && Backed(user, a, a + m)
      && user[PageOf(a)][a % PAGESIZE..a % PAGESIZE + m] == Flat(user, a, m)
      && (m < n ==> PageOf(a + PAGESIZE) == a + m && Ready(user, a + m, n - m))
      && (m < n ==> Flat(user, a, n) == Flat(user, a, m) + Flat(user, a + m, n - m))
      && (m == n ==> Flat(user, a, n) == Flat(user, a, m))
  {
    var m := Chunk(size, offset, a);
    if n > 0 {
      FlatPage(user, a, m);
      NextPage(a);
      if m < n {
        FlatSplit(user, a, m, n - m);
        assert PageOf(a + m) in user && |user[PageOf(a + m)]| == PAGESIZE;
      }
    }
  }

  /** All pages are whole. */
  ghost predicate Whole(user: User) {
    forall p :: p in user ==> |user[p]| == PAGESIZE
  }

  /** The pages from `a` on */
  ghost function PagesFrom(user: User, a: nat): set<nat> {
    set p | p in user && p >= a
  }

  lemma {:induction false} FewerPages(user: User, a: nat)
    requires PageOf(a) in user
    ensures |PagesFrom(user, PageOf(PageOf(a + PAGESIZE)))| < |PagesFrom(user, PageOf(a))|
  {
    NextPage(a);
    var next := PageOf(PageOf(a + PAGESIZE));
    assert next == PageOf(a) + PAGESIZE;
    assert PageOf(a) in PagesFrom(user, PageOf(a)) && PageOf(a) !in PagesFrom(user, next);
    assert PagesFrom(user, next) <= PagesFrom(user, PageOf(a)) - {PageOf(a)};
    Smaller(PagesFrom(user, next), PagesFrom(user, PageOf(a)) - {PageOf(a)});
  }

  lemma {:induction false} Smaller(a: set<nat>, b: set<nat>)
    requires a <= b
    ensures |a| <= |b|
  {
    assert b == a + (b - a);
  }

  /** The rest of the copy is ready if and only if the whole of it is. */
  lemma {:induction false} ChunkReady(user: User, a: nat, n: nat, size: nat, offset: nat)
    requires PageOf(a) in user && Whole(user) && offset <= size && n == size - offset
    ensures var m := Chunk(size, offset, a);
      && m <= n && (Ready(user, a, n) <==> m == n || Ready(user, a + m, n - m))
      && (m < n ==> PageOf(a + PAGESIZE) == a + m)
  {
    var m := Chunk(size, offset, a);
    NextPage(a);
    if m == n || Ready(user, a + m, n - m) {
      forall x | a <= x < a + n ensures PageOf(x) in user && |user[PageOf(x)]| == PAGESIZE {
        if x < a + m {
          SamePage(a, x - a);
        }
      }
    }
    if Ready(user, a, n) && m < n {
      assert PageOf(a + m) in user && |user[PageOf(a + m)]| == PAGESIZE;
    }
  }

  /** What a copy comes to: it ends if the bytes are in pages of the process and the offset is not
      past the size, and then it is the flat copy.  Otherwise it goes on from page to page until it
      reaches one that the process does not have, and the process is killed. */
  ghost predicate CopiedIn(user: User, src: nat, data: nat, was: seq<Byte>, ok: bool, data': nat, now: seq<Byte>) {
    var offset, n := HiHalf(data), Remaining(data);
    && (ok <==> n >= 0 && Ready(user, src, n))
    && (ok ==> data' == Packed(offset + n, offset + n) && now == Placed(was, offset, Flat(user, src, n)))
    && (n < 0 ==> now == was)
  }

  /** Continue page by page until the copy is done or the process is killed. */
  method CopyInRun(user: User, src: nat, data: nat, buffer: array<Byte>) returns (ok: bool, data': nat)
    requires buffer.Length == COPY_BUFSIZ && Whole(user)
    modifies buffer
    ensures CopiedIn(user, src, data, old(buffer[..]), ok, data', buffer[..])
    decreases |PagesFrom(user, PageOf(src))|
  {
    hide Ready, Backed, Flat, Packed, LoHalf, HiHalf, PageOf, Chunk, Placed, CopiedIn;
    ghost var was := buffer[..];
    if PageOf(src) !in user {
      CopyKilled(user, src, data, was);
      return false, data;
    }
    var addr, done;
    data', addr, done := CopyInContinue(user[PageOf(src)], src, data, buffer);
    ChunkFits(Min(COPY_BUFSIZ, LoHalf(data)), HiHalf(data), src);
    ghost var word, mid := data', buffer[..];
    ok := done;
    if !done {
      FewerPages(user, src);
      ContinueAddr(src);
      ok, data' := CopyInRun(user, addr, data', buffer);
    }
    CopyStep(user, src, data, was, word, done, mid, ok, data', buffer[..]);
  }

  lemma {:induction false} CopyKilled(user: User, src: nat, data: nat, was: seq<Byte>)
    requires PageOf(src) !in user
    ensures CopiedIn(user, src, data, was, false, data, was)
  {
  }

  /** A page's share, and what the copy comes to from there */
  lemma {:induction false} CopyStep(user: User, src: nat, data: nat, was: seq<Byte>, word: nat, done: bool,
      mid: seq<Byte>, ok: bool, data': nat, now: seq<Byte>)
    requires PageOf(src) in user && Whole(user) && |was| == COPY_BUFSIZ
    requires var size, offset, lo := Min(COPY_BUFSIZ, LoHalf(data)), HiHalf(data), src % PAGESIZE;
      var n := Chunk(size, offset, src);
      && word == Packed(size, offset + n) && (done <==> offset + n == size)
      && lo + n <= PAGESIZE && mid == Placed(was, offset, user[PageOf(src)][lo..lo + n])
    requires if done then ok && data' == word && now == mid
             else CopiedIn(user, PageOf(src + PAGESIZE), word, mid, ok, data', now)
    ensures CopiedIn(user, src, data, was, ok, data', now)
  {
    hide Ready, Backed, Flat, Packed, LoHalf, HiHalf, PageOf, Placed;
    var size, offset := Min(COPY_BUFSIZ, LoHalf(data)), HiHalf(data);
    var m: nat, n: int := Chunk(size, offset, src), size - offset;
    HalfBound(data);
    if n < 0 {
      Unpack(size, offset);
      PlacedNone(was, offset);
      assert m == 0 && |user[PageOf(src)]| == PAGESIZE;
      assert user[PageOf(src)][src % PAGESIZE..src % PAGESIZE + m] == [];
    } else {
      ChunkReady(user, src, n, size, offset);
      Unpack(size, offset + m);
      if ok {
        ChunkStep(user, src, n, size, offset);
        ReadyPage(user, src, n);
        if !done {
          PlacedMore(was, offset, Flat(user, src, m), Flat(user, src + m, n - m));
        }
      }
    }
  }

  lemma {:induction false} ReadyPage(user: User, a: nat, n: nat)
    requires Ready(user, a, n)
    ensures PageOf(a) in user && |user[PageOf(a)]| == PAGESIZE && Backed(user, a, a + n)
  {
  }

  /** copyIn, whole: what is copied is put behind what an earlier copy left, if it appends. */
  method CopyIn(user: User, src: nat, size: nat, append: bool, data: nat, buffer: array<Byte>)
    returns (ok: bool, data': nat)
    requires buffer.Length == COPY_BUFSIZ && Whole(user)
    modifies buffer
    ensures CopiedIn(user, src, Begun(data, size, append), old(buffer[..]), ok, data', buffer[..])
  {
    ok, data' := CopyInRun(user, src, Begun(data, size, append), buffer);
  }

  // ---------------------------------------------------------------- sixteen-bit sizes

  /** The halves of the word an append to a copy of `base` bytes starts with */
  lemma {:induction false} AppendWord(base: nat, size: nat)
    requires base <= COPY_BUFSIZ
    ensures var word := Begun(Packed(base, base), size, true);
      HiHalf(word) == base && LoHalf(word) == (base + size) % 65536
  {
    hide Packed, LoHalf, HiHalf;
    Unpack(base, base);
    HalfSmall(base + size);
    Unpack(LoHalf(base + size), base);
  }

  /** An append to a copy of `base` bytes copies what it should, up to the end of the buffer, just
      when the running size fits sixteen bits or what is left of it still fills the buffer. */
  lemma {:induction false} AppendExact(base: nat, size: nat)
    requires base <= COPY_BUFSIZ
    ensures var word := Begun(Packed(base, base), size, true);
      && HiHalf(word) == base
      && (Remaining(word) == Min(COPY_BUFSIZ, base + size) - base <==> Fits(base, size))
  {
    hide LoHalf, HiHalf, Packed, Begun;
    AppendWord(base, size);
  }

  lemma {:induction false} FirstExact(data: nat, size: nat)
    ensures var word := Begun(data, size, false);
      && HiHalf(word) == 0
      && (Remaining(word) == Min(COPY_BUFSIZ, size) <==> Fits(0, size))
  {
    Unpack(LoHalf(size), 0);
  }

  /** When the running size wraps to below the base the copy never ends of itself: each continuation
      copies nothing, is not done, and leaves the same word behind for the next page.  It goes on, as
      CopyInRun says, until it comes to a page that the process does not have. */
  lemma {:induction false} NeverDone(base: nat, size: nat, addr: nat)
    requires base <= COPY_BUFSIZ
    ensures var word := Begun(Packed(base, base), size, true);
      && (Remaining(word) < 0 <==> (base + size) % 65536 < base)
      && (Remaining(word) < 0 ==>
            var lo, offset := Min(COPY_BUFSIZ, LoHalf(word)), HiHalf(word);
            Chunk(lo, offset, addr) == 0 && offset != lo && Packed(lo, offset) == word)
  {
    hide LoHalf, HiHalf, Packed;
    AppendWord(base, size);
    Unpack(base, base);
    HalfSmall(base + size);
  }

  lemma {:induction false} HalfSmall(n: nat)
    ensures LoHalf(n) == n % 65536
  {
  }

  lemma {:induction false} WrapExample()
    ensures Remaining(Begun(Packed(100, 100), 65500, true)) < 0
  {
    hide LoHalf, HiHalf, Packed, Begun, Remaining;
    NeverDone(100, 65500, 0);
  }

  // ---------------------------------------------------------------- a run of appends

  datatype Part = Part(at: nat, size: nat)

  /** The size of the first `i` parts, and how much of it the buffer holds */
  ghost function Total(parts: seq<Part>, i: nat): nat
    requires i <= |parts|
  {
    if i == 0 then 0 else Total(parts, i - 1) + parts[i - 1].size
  }

  ghost function Base(parts: seq<Part>, i: nat): nat
    requires i <= |parts|
  {
    Min(COPY_BUFSIZ, Total(parts, i))
  }

  /** What part `i` puts into the buffer */
  ghost function Share(parts: seq<Part>, i: nat): nat
    requires i < |parts|
  {
    Base(parts, i + 1) - Base(parts, i)
  }

  /** The running size fits sixteen bits, or what is left of it still fills the buffer. */
  predicate Fits(base: nat, size: nat) {
    base + size < 65536 || (base + size) % 65536 >= COPY_BUFSIZ
  }

  ghost predicate Parts(user: User, parts: seq<Part>) {
    forall i {:trigger parts[i]} :: 0 <= i < |parts| ==>
      Fits(Base(parts, i), parts[i].size) && Ready(user, parts[i].at, Share(parts, i))
  }

  /** The bytes of the first `i` parts, one part after the other, as far as the buffer reaches */
  ghost function Gathered(user: User, parts: seq<Part>, i: nat): (g: seq<Byte>)
    requires i <= |parts| && Parts(user, parts)
    ensures |g| == Base(parts, i)
  {
    if i == 0 then [] else
      assert parts[i - 1] in parts;
      Gathered(user, parts, i - 1) + Flat(user, parts[i - 1].at, Share(parts, i - 1))
  }

  /** The first `i` parts are in the buffer. */
  ghost predicate Collected(user: User, parts: seq<Part>, i: nat, data: nat, was: seq<Byte>, now: seq<Byte>)
    requires i <= |parts| && Parts(user, parts)
  {
    && (i > 0 ==> data == Packed(Base(parts, i), Base(parts, i)))
    && now == Placed(was, 0, Gathered(user, parts, i))
  }

  /** A copy-in and any number of appends put the parts one after the other, as far as the
      buffer reaches. */
  method CopyInAll(user: User, parts: seq<Part>, data: nat, buffer: array<Byte>) returns (data': nat)
    requires buffer.Length == COPY_BUFSIZ && |parts| > 0 && Whole(user) && Parts(user, parts)
    modifies buffer
    ensures var k := Min(COPY_BUFSIZ, Total(parts, |parts|));
      && data' == Packed(k, k) && buffer[..] == Placed(old(buffer[..]), 0, Gathered(user, parts, |parts|))
  {
    hide Ready, Backed, Flat, Packed, LoHalf, HiHalf, PageOf, Gathered, Begun, Placed, Collected, Parts, CopiedIn;
    ghost var was := buffer[..];
    var i := 0;
    data' := data;
    CollectedNone(user, parts, i, data, was);
    while i < |parts|
      invariant 0 <= i <= |parts| && Collected(user, parts, i, data', was, buffer[..])
    {
      var part, ok := parts[i], false;
      ghost var word, before := data', buffer[..];
      ok, data' := CopyIn(user, part.at, part.size, i > 0, data', buffer);
      CollectedMore(user, parts, i, word, was, before, ok, data', buffer[..]);
      i := i + 1;
    }
    CollectedAll(user, parts, data', was, buffer[..]);
  }

  lemma {:induction false} CollectedNone(user: User, parts: seq<Part>, i: nat, data: nat, was: seq<Byte>)
    requires Parts(user, parts) && i == 0
    ensures Collected(user, parts, i, data, was, was)
  {
    PlacedNone(was, 0);
  }

  lemma {:induction false} CollectedAll(user: User, parts: seq<Part>, data: nat, was: seq<Byte>, now: seq<Byte>)
    requires Parts(user, parts) && |parts| > 0 && Collected(user, parts, |parts|, data, was, now)
    ensures var k := Base(parts, |parts|); data == Packed(k, k) && now == Placed(was, 0, Gathered(user, parts, |parts|))
  {
  }

  /** What the next call does to what has been collected */
  lemma {:induction false} CollectedMore(user: User, parts: seq<Part>, i: nat, data: nat, was: seq<Byte>,
      now: seq<Byte>, ok: bool, data': nat, now': seq<Byte>)
    requires i < |parts| && Parts(user, parts) && |was| == COPY_BUFSIZ && Collected(user, parts, i, data, was, now)
    requires CopiedIn(user, parts[i].at, Begun(data, parts[i].size, i > 0), now, ok, data', now')
    ensures Collected(user, parts, i + 1, data', was, now')
  {
    hide Ready, Backed, Flat, Packed, LoHalf, HiHalf, PageOf, Gathered, Begun, Placed, Parts, Fits;
    var k := Base(parts, i);
    PartReady(user, parts, i);
    PartBegins(data, k, parts[i].size, i > 0);
    PlacedMore(was, 0, Gathered(user, parts, i), Flat(user, parts[i].at, Share(parts, i)));
  }

  lemma {:induction false} PartReady(user: User, parts: seq<Part>, i: nat)
    requires i < |parts| && Parts(user, parts)
    ensures Fits(Base(parts, i), parts[i].size) && Ready(user, parts[i].at, Share(parts, i))
    ensures Backed(user, parts[i].at, parts[i].at + Share(parts, i)) && (i == 0 ==> Base(parts, i) == 0)
    ensures Gathered(user, parts, i + 1) == Gathered(user, parts, i) + Flat(user, parts[i].at, Share(parts, i))
  {
  }

  lemma {:induction false} PartBegins(data: nat, k: nat, size: nat, append: bool)
    requires k <= COPY_BUFSIZ && Fits(k, size) && (append ==> data == Packed(k, k)) && (!append ==> k == 0)
    ensures var word := Begun(data, size, append);
      HiHalf(word) == k && Remaining(word) == Min(COPY_BUFSIZ, k + size) - k
  {
    if append {
      AppendExact(k, size);
    } else {
      FirstExact(data, size);
    }
  }

  // ---------------------------------------------------------------- copying out

  /** copyOutContinue: copy into the page up to its end or the end of the request. */
  method CopyOutContinue(page: Page, addr: nat, data: nat, buffer: array<Byte>)
    returns (page': Page, data': nat, addr': nat, done: bool)
    requires |page| == PAGESIZE && buffer.Length == COPY_BUFSIZ
    ensures var size, offset, lo := Min(COPY_BUFSIZ, LoHalf(data)), HiHalf(data), addr % PAGESIZE;
      var n := Chunk(size, offset, addr);
      && data' == Packed(size, offset + n) && (done <==> offset + n == size) && addr' == PageOf(addr + PAGESIZE)
      && page' == (if n == 0 then page else Placed(page, lo, buffer[offset..offset + n])) && |page'| == PAGESIZE
  {
    var size, offset, dst := Min(COPY_BUFSIZ, LoHalf(data)), HiHalf(data), addr % PAGESIZE;
    ghost var start, lo := offset, dst;
    page' := page;
    while offset < size
      invariant offset - start == dst - lo && lo <= dst < PAGESIZE
      invariant start < size ==> offset <= size
      invariant size <= start ==> offset == start
      invariant page' == if offset == start then page else Placed(page, lo, buffer[start..offset])
    {
      PlacedNone(page, lo);
      PlacedOne(page, lo, buffer[start..offset], buffer[offset]);
      assert buffer[start..offset] + [buffer[offset]] == buffer[start..offset + 1];
      page' := page'[dst := buffer[offset]];
      dst := dst + 1;
      offset := offset + 1;
      if dst == PAGESIZE {
        break;
      }
    }
    assert dst == lo + Chunk(size, start, addr);
    data', addr', done := Packed(size, offset), PageOf(addr + PAGESIZE), offset == size;
  }

  /** The bytes are in memory at `a`. */
  ghost predicate Holds(user: User, a: nat, bytes: seq<Byte>) {
    Backed(user, a, a + |bytes|) && Flat(user, a, |bytes|) == bytes
  }

  /** `after` is `user` with `bytes` written at `a`, and nothing else changed. */
  ghost predicate Wrote(user: User, after: User, a: nat, bytes: seq<Byte>) {
    && after.Keys == user.Keys && (forall p :: p in user ==> |after[p]| == |user[p]|)
    && (forall x: nat {:trigger PageOf(x)} ::
          PageOf(x) in user && |user[PageOf(x)]| == PAGESIZE && !(a <= x < a + |bytes|) ==>
          ByteAt(after, x) == ByteAt(user, x))
    && Holds(after, a, bytes)
  }

  /** Writing inside one page */
  lemma {:induction false} WrotePage(user: User, a: nat, bytes: seq<Byte>)
    requires PageOf(a) in user && |user[PageOf(a)]| == PAGESIZE && a % PAGESIZE + |bytes| <= PAGESIZE
    ensures Wrote(user, user[PageOf(a) := Placed(user[PageOf(a)], a % PAGESIZE, bytes)], a, bytes)
  {
    hide PageOf;
    var page := user[PageOf(a)];
    var page' := Placed(page, a % PAGESIZE, bytes);
    var after := user[PageOf(a) := page'];
    forall i | 0 <= i < |bytes| ensures PageOf(a + i) == PageOf(a) && ByteAt(after, a + i) == bytes[i] {
      SamePage(a, i);
    }
    forall x | a <= x < a + |bytes| ensures PageOf(x) in after && |after[PageOf(x)]| == PAGESIZE {
      SamePage(a, x - a);
    }
    forall x: nat | PageOf(x) in user && |user[PageOf(x)]| == PAGESIZE && !(a <= x < a + |bytes|)
      ensures ByteAt(after, x) == ByteAt(user, x)
    {
      WroteOutside(user, a, bytes, x);
    }
  }

  lemma {:induction false} WroteOutside(user: User, a: nat, bytes: seq<Byte>, x: nat)
    requires PageOf(a) in user && |user[PageOf(a)]| == PAGESIZE && a % PAGESIZE + |bytes| <= PAGESIZE
    requires PageOf(x) in user && |user[PageOf(x)]| == PAGESIZE && !(a <= x < a + |bytes|)
    ensures ByteAt(user[PageOf(a) := Placed(user[PageOf(a)], a % PAGESIZE, bytes)], x) == ByteAt(user, x)
  {
    hide PageOf;
    InPage(x, a);
  }

  lemma {:induction false} InPage(x: nat, a: nat)
    ensures x == PageOf(x) + x % PAGESIZE && (PageOf(x) == PageOf(a) ==> x - a == x % PAGESIZE - a % PAGESIZE)
  {
  }

  /** Writing one stretch after the other */
  lemma {:induction false} WroteMore(user: User, mid: User, after: User, a: nat, x: seq<Byte>, y: seq<Byte>)
    requires Wrote(user, mid, a, x) && Wrote(mid, after, a + |x|, y)
    ensures Wrote(user, after, a, x + y)
  {
    forall i | a <= i < a + |x| + |y| ensures PageOf(i) in after && |after[PageOf(i)]| == PAGESIZE {
      assert i < a + |x| ==> PageOf(i) in mid && |mid[PageOf(i)]| == PAGESIZE;
    }
    FlatSplit(after, a, |x|, |y|);
    forall i | 0 <= i < |x| ensures Flat(after, a, |x|)[i] == x[i] {
      assert PageOf(a + i) in mid;
      assert Flat(mid, a, |x|)[i] == ByteAt(mid, a + i);
    }
  }

  lemma {:induction false} WroteNothing(user: User, a: nat)
    ensures Wrote(user, user, a, [])
  {
  }

  /** Writing to pages takes none away. */
  lemma {:induction false} WroteWhole(user: User, after: User, a: nat, bytes: seq<Byte>)
    requires Wrote(user, after, a, bytes) && Whole(user)
    ensures Whole(after) && after.Keys == user.Keys
  {
  }

  lemma {:induction false} ReadySame(user: User, after: User, b: nat, n: nat)
    requires Whole(user) && Whole(after) && after.Keys == user.Keys
    ensures Ready(after, b, n) <==> Ready(user, b, n)
  {
  }

  /** What a copy out comes to.  It ends if the bytes have their place in pages of the process and the
      offset is not past the size, and then it is the flat copy.  Otherwise the process is killed at
      the first page it does not have, with the `k` bytes before it written. */
  ghost predicate CopiedOut(user: User, dst: nat, data: nat, buf: seq<Byte>, ok: bool, k: nat, data': nat,
      user': User) {
    var offset, n := HiHalf(data), Remaining(data);
    && (ok <==> n >= 0 && Ready(user, dst, n))
    && (if k == 0 then user' == user
        else k <= n && offset + k <= |buf| && Wrote(user, user', dst, buf[offset..offset + k]))
    && (ok ==> k == n && data' == Packed(offset + n, offset + n))
    && (!ok && n >= 0 ==> PageOf(dst + k) !in user)
  }

  /** Continue page by page until the copy is done or the process is killed. */
  method CopyOutRun(user: User, dst: nat, data: nat, buffer: array<Byte>)
    returns (ok: bool, user': User, data': nat, ghost k: nat)
    requires buffer.Length == COPY_BUFSIZ && Whole(user)
    ensures CopiedOut(user, dst, data, buffer[..], ok, k, data', user')
    ensures ok <==> Remaining(data) >= 0 && Ready(user, dst, Remaining(data))
    decreases |PagesFrom(user, PageOf(dst))|
  {
    hide Ready, Backed, Flat, Packed, LoHalf, HiHalf, PageOf, Chunk, Placed, Wrote, CopiedOut;
    if PageOf(dst) !in user {
      OutKilled(user, dst, data, buffer[..]);
      OutEnds(user, dst, data, buffer[..], false, 0, data, user);
      return false, user, data, 0;
    }
    var page', addr, done;
    page', data', addr, done := CopyOutContinue(user[PageOf(dst)], dst, data, buffer);
    ghost var offset, m := HiHalf(data), Chunk(Min(COPY_BUFSIZ, LoHalf(data)), HiHalf(data), dst);
    ghost var word := data';
    ChunkFits(Min(COPY_BUFSIZ, LoHalf(data)), offset, dst);
    user' := user[PageOf(dst) := page'];
    ghost var mid := user';
    ok, k := done, m;
    if !done {
      FewerPages(user, dst);
      ContinueAddr(dst);
      assert PagesFrom(user', PageOf(addr)) == PagesFrom(user, PageOf(addr));
      ok, user', data', k := CopyOutRun(user', addr, data', buffer);
      k := k + m;
    }
    assert m > 0 ==> buffer[offset..offset + m] == buffer[..][offset..offset + m];
    OutStep(user, dst, data, buffer[..], word, done, mid, ok, k, data', user');
    OutEnds(user, dst, data, buffer[..], ok, k, data', user');
  }

  lemma {:induction false} OutEnds(user: User, dst: nat, data: nat, buf: seq<Byte>, ok: bool, k: nat, data': nat,
      user': User)
    requires CopiedOut(user, dst, data, buf, ok, k, data', user')
    ensures ok <==> Remaining(data) >= 0 && Ready(user, dst, Remaining(data))
  {
  }

  lemma {:induction false} OutKilled(user: User, dst: nat, data: nat, buf: seq<Byte>)
    requires PageOf(dst) !in user
    ensures CopiedOut(user, dst, data, buf, false, 0, data, user)
  {
  }

  /** One page's share of a copy out */
  lemma {:induction false} OutPage(user: User, dst: nat, data: nat, buf: seq<Byte>, mid: User)
    requires PageOf(dst) in user && Whole(user) && |buf| == COPY_BUFSIZ
    requires var offset, lo := HiHalf(data), dst % PAGESIZE;
      var m := Chunk(Min(COPY_BUFSIZ, LoHalf(data)), offset, dst);
      && (m > 0 ==> offset + m <= |buf|)
      && mid == user[PageOf(dst) := if m == 0 then user[PageOf(dst)]
                                    else Placed(user[PageOf(dst)], lo, buf[offset..offset + m])]
    ensures Whole(mid) && mid.Keys == user.Keys
    ensures var offset, m := HiHalf(data), Chunk(Min(COPY_BUFSIZ, LoHalf(data)), HiHalf(data), dst);
      if m == 0 then mid == user else Wrote(user, mid, dst, buf[offset..offset + m])
  {
    hide Flat, LoHalf, HiHalf, PageOf, Placed, Backed, Wrote, Chunk;
    var size, offset := Min(COPY_BUFSIZ, LoHalf(data)), HiHalf(data);
    var m := Chunk(size, offset, dst);
    ChunkFits(size, offset, dst);
    if m > 0 {
      WrotePage(user, dst, buf[offset..offset + m]);
      WroteWhole(user, mid, dst, buf[offset..offset + m]);
    }
  }

  /** A page's share, and what the copy comes to from there */
  lemma {:induction false} OutStep(user: User, dst: nat, data: nat, buf: seq<Byte>, word: nat, done: bool, mid: User,
      ok: bool, k: nat, data': nat, user': User)
    requires PageOf(dst) in user && Whole(user) && |buf| == COPY_BUFSIZ
    requires var size, offset, lo := Min(COPY_BUFSIZ, LoHalf(data)), HiHalf(data), dst % PAGESIZE;
      var m := Chunk(size, offset, dst);
      && word == Packed(size, offset + m) && (done <==> offset + m == size) && m <= k && (m > 0 ==> offset + m <= |buf|)
      && mid == user[PageOf(dst) := if m == 0 then user[PageOf(dst)]
                                    else Placed(user[PageOf(dst)], lo, buf[offset..offset + m])]
      && if done then ok && data' == word && user' == mid && k == m
         else CopiedOut(mid, PageOf(dst + PAGESIZE), word, buf, ok, k - m, data', user')
    ensures CopiedOut(user, dst, data, buf, ok, k, data', user')
  {
    hide Ready, Backed, Flat, Packed, LoHalf, HiHalf, PageOf, Placed, Wrote, Chunk;
    var size, offset := Min(COPY_BUFSIZ, LoHalf(data)), HiHalf(data);
    var m: nat, n: int := Chunk(size, offset, dst), size - offset;
    HalfBound(data);
    OutPage(user, dst, data, buf, mid);
    if n < 0 {
      NoChunk(size, offset, dst);
      Unpack(size, offset);
    } else {
      ChunkReady(user, dst, n, size, offset);
      Unpack(size, offset + m);
      if !done {
        ReadySame(user, mid, dst + m, n - m);
        ChunkSome(size, offset, dst);
        if k > m {
          var x, y := buf[offset..offset + m], buf[offset + m..offset + k];
          WroteMore(user, mid, user', dst, x, y);
          assert buf[offset..offset + k] == x + y;
        }
      }
    }
  }

  lemma {:induction false} NoChunk(size: nat, offset: nat, addr: nat)
    requires size <= offset
    ensures Chunk(size, offset, addr) == 0
  {
  }

  lemma {:induction false} ChunkSome(size: nat, offset: nat, addr: nat)
    requires offset < size
    ensures 0 < Chunk(size, offset, addr) <= size - offset
  {
  }

  lemma {:induction false} ChunkFits(size: nat, offset: nat, addr: nat)
    ensures addr % PAGESIZE + Chunk(size, offset, addr) <= PAGESIZE
    ensures Chunk(size, offset, addr) > 0 ==> offset + Chunk(size, offset, addr) <= size
  {
  }

  /** copyOut, whole: an append takes the bytes behind those that an earlier copy took. */
  method CopyOut(user: User, dst: nat, size: nat, append: bool, data: nat, buffer: array<Byte>)
    returns (ok: bool, user': User, data': nat, ghost k: nat)
    requires buffer.Length == COPY_BUFSIZ && Whole(user)
    ensures CopiedOut(user, dst, Begun(data, size, append), buffer[..], ok, k, data', user')
    ensures var n := Remaining(Begun(data, size, append)); ok <==> n >= 0 && Ready(user, dst, n)
  {
    ok, user', data', k := CopyOutRun(user, dst, Begun(data, size, append), buffer);
  }

  /** The bytes of the buffer that are for part `i` */
  ghost function Piece(parts: seq<Part>, buf: seq<Byte>, i: nat): (r: seq<Byte>)
    requires i < |parts| && |buf| == COPY_BUFSIZ
    ensures |r| == Share(parts, i)
  {
    buf[Base(parts, i)..Base(parts, i + 1)]
  }

  /** Each part is written where it belongs, one after the other. */
  ghost predicate Scatters(users: seq<User>, parts: seq<Part>, buf: seq<Byte>, i: nat)
    requires i <= |parts|
  {
    && |users| == i + 1 && |buf| == COPY_BUFSIZ
    && forall j {:trigger parts[j]} :: 0 <= j < i ==>
         Wrote(users[j], users[j + 1], parts[j].at, Piece(parts, buf, j))
  }

  /** A copy-out and any number of appends hand out the buffer part by part, as far as it reaches. */
  method CopyOutAll(user: User, parts: seq<Part>, data: nat, buffer: array<Byte>)
    returns (user': User, data': nat, ghost users: seq<User>)
    requires buffer.Length == COPY_BUFSIZ && |parts| > 0 && Whole(user) && Parts(user, parts)
    ensures var k := Min(COPY_BUFSIZ, Total(parts, |parts|)); data' == Packed(k, k)
    ensures Scatters(users, parts, buffer[..], |parts|) && users[0] == user && users[|parts|] == user'
  {
    hide Ready, Backed, Flat, Packed, LoHalf, HiHalf, PageOf, Begun, Parts, CopiedOut, Scatters, Wrote, Whole;
    var i := 0;
    user', data', users := user, data, [user];
    ScatterNone(users, parts, buffer[..], i);
    while i < |parts|
      invariant 0 <= i <= |parts| && Scatters(users, parts, buffer[..], i) && |users| == i + 1
      invariant users[0] == user && users[i] == user' && Whole(user') && user'.Keys == user.Keys
      invariant i > 0 ==> data' == Packed(Base(parts, i), Base(parts, i))
    {
      var part, ok := parts[i], false;
      ghost var word, before, k := data', user', 0;
      ok, user', data', k := CopyOut(user', part.at, part.size, i > 0, data', buffer);
      ScatterMore(users, user, parts, buffer[..], i, word, before, ok, k, data', user');
      users, i := users + [user'], i + 1;
    }
  }

  lemma {:induction false} ScatterNone(users: seq<User>, parts: seq<Part>, buf: seq<Byte>, i: nat)
    requires |users| == 1 && |buf| == COPY_BUFSIZ && i == 0
    ensures Scatters(users, parts, buf, i)
  {
  }

  /** What the next call does */
  lemma {:induction false} ScatterMore(users: seq<User>, user: User, parts: seq<Part>, buf: seq<Byte>, i: nat,
      data: nat, now: User, ok: bool, k: nat, data': nat, user': User)
    requires i < |parts| && Parts(user, parts) && Whole(user) && Whole(now) && now.Keys == user.Keys
    requires Scatters(users, parts, buf, i) && |users| == i + 1 && users[i] == now && |buf| == COPY_BUFSIZ
    requires i > 0 ==> data == Packed(Base(parts, i), Base(parts, i))
    requires CopiedOut(now, parts[i].at, Begun(data, parts[i].size, i > 0), buf, ok, k, data', user')
    ensures Scatters(users + [user'], parts, buf, i + 1) && data' == Packed(Base(parts, i + 1), Base(parts, i + 1))
    ensures Whole(user') && user'.Keys == user.Keys
  {
    hide Ready, Backed, Flat, Packed, LoHalf, HiHalf, PageOf, Begun, Parts, Fits, Wrote, Gathered, Whole, Scatters;
    var b, n := Base(parts, i), Share(parts, i);
    PartReady(user, parts, i);
    PartBegins(data, b, parts[i].size, i > 0);
    ReadySame(user, now, parts[i].at, n);
    var bytes := Piece(parts, buf, i);
    if n == 0 {
      WroteNothing(now, parts[i].at);
      assert bytes == [];
    }
    WroteWhole(now, user', parts[i].at, bytes);
    ScatterOne(users, parts, buf, i, user');
  }

  lemma {:induction false} ScatterOne(users: seq<User>, parts: seq<Part>, buf: seq<Byte>, i: nat, user': User)
    requires i < |parts| && |users| == i + 1 && |buf| == COPY_BUFSIZ && Scatters(users, parts, buf, i)
    requires Wrote(users[i], user', parts[i].at, Piece(parts, buf, i))
    ensures Scatters(users + [user'], parts, buf, i + 1)
  {
    hide Wrote, Piece;
  }

  /** No two parts overlap. */
  ghost predicate Apart(parts: seq<Part>) {
    forall x, y :: 0 <= x < y < |parts| ==>
      parts[x].at + Share(parts, x) <= parts[y].at || parts[y].at + Share(parts, y) <= parts[x].at
  }

  /** What is written elsewhere leaves a stretch of memory alone. */
  lemma {:induction false} WroteApart(user: User, after: User, a: nat, bytes: seq<Byte>, b: nat, there: seq<Byte>)
    requires Wrote(user, after, a, bytes) && Holds(user, b, there) && (b + |there| <= a || a + |bytes| <= b)
    ensures Holds(after, b, there)
  {
    hide PageOf;
    var n := |there|;
    forall x | b <= x < b + n ensures PageOf(x) in after && |after[PageOf(x)]| == PAGESIZE {
      assert PageOf(x) in user && |user[PageOf(x)]| == PAGESIZE;
    }
    forall i | 0 <= i < n ensures Flat(after, b, n)[i] == Flat(user, b, n)[i] {
      assert PageOf(b + i) in user && |user[PageOf(b + i)]| == PAGESIZE;
    }
  }

  /** Parts that do not overlap are all there in the end. */
  lemma {:induction false} Scattered(users: seq<User>, parts: seq<Part>, buf: seq<Byte>, i: nat, j: nat)
    requires i < j < |users| == |parts| + 1 && |buf| == COPY_BUFSIZ
    requires Scatters(users, parts, buf, |parts|) && Apart(parts)
    ensures Holds(users[j], parts[i].at, Piece(parts, buf, i))
  {
    hide Holds, Piece, Share, Wrote, Scatters, Apart;
    var k := j - 1;
    ScatterAt(users, parts, buf, k);
    if k == i {
      WroteThere(users[k], users[j], parts[i].at, Piece(parts, buf, i));
    } else {
      Scattered(users, parts, buf, i, k);
      ApartAt(parts, i, k);
      WroteApart(users[k], users[j], parts[k].at, Piece(parts, buf, k), parts[i].at, Piece(parts, buf, i));
    }
  }

  lemma {:induction false} ScatterAt(users: seq<User>, parts: seq<Part>, buf: seq<Byte>, k: nat)
    requires k < |parts| && |users| == |parts| + 1 && |buf| == COPY_BUFSIZ && Scatters(users, parts, buf, |parts|)
    ensures Wrote(users[k], users[k + 1], parts[k].at, Piece(parts, buf, k))
  {
    hide Wrote, Piece;
    assert parts[k] in parts;
  }

  lemma {:induction false} ApartAt(parts: seq<Part>, x: nat, y: nat)
    requires x < y < |parts| && Apart(parts)
    ensures parts[x].at + Share(parts, x) <= parts[y].at || parts[y].at + Share(parts, y) <= parts[x].at
  {
  }

  lemma {:induction false} WroteThere(user: User, after: User, a: nat, bytes: seq<Byte>)
    requires Wrote(user, after, a, bytes)
    ensures Holds(after, a, bytes)
  {
  }

  /** Copied in from one place and out to another, the bytes arrive as they were, for every
      alignment of the two places. */
  method Transfer(user: User, src: nat, dst: nat, n: nat, data: nat, buffer: array<Byte>) returns (user': User)
    requires buffer.Length == COPY_BUFSIZ && n <= COPY_BUFSIZ && Whole(user) && Ready(user, src, n)
    requires Ready(user, dst, n)
    modifies buffer
    ensures Wrote(user, user', dst, Flat(user, src, n))
  {
    hide Flat, Packed, LoHalf, HiHalf, PageOf, Wrote, Begun, Backed, Ready;
    ReadyPage(user, src, n);
    FirstExact(data, n);
    var ok, data' := CopyIn(user, src, n, false, data, buffer);
    FirstExact(data', n);
    assert buffer[..][0..0 + n] == Flat(user, src, n);
    ghost var k;
    ok, user', data', k := CopyOut(user, dst, n, false, data', buffer);
    if n == 0 {
      WroteNothing(user, dst);
    }
  }
}
