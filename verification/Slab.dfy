/** The small-object allocator (kernel/src/pmm.c): eight caches of one-frame slabs. A slab starts
    with a 24-byte header (size, next slab, free list); the rest is objects of one size, the free
    ones threaded together. The header is recovered by masking the object's address. */
module Slab {
  import opened Bits
  import opened Collections
  import opened Pmm

  const CACHES: nat := 8
  const HEADER: nat := 24

  /** Words per object of cache `c`: the caches hold 8, 16, ..., 1024 bytes. */
  function Words(c: nat): (w: nat)
    requires c < CACHES
    ensures 1 <= w <= 128
  {
    [1, 2, 4, 8, 16, 32, 64, 128][c]
  }

  function Size(c: nat): nat
    requires c < CACHES
  {
    8 * Words(c)
  }

  /** Objects per slab. */
  function Count(c: nat): (n: nat)
    requires c < CACHES
    ensures n >= 3
  {
    (4096 - HEADER) / Size(c)
  }

  /** Word of the frame where object `k` starts. */
  function ObjWord(c: nat, k: nat): nat
    requires c < CACHES
  {
    3 + k * Words(c)
  }

  /** Address of object `k` of the slab in frame `f`. */
  function ObjAddr(f: nat, c: nat, k: nat): nat
    requires c < CACHES
  {
    Virt(f) + 8 * ObjWord(c, k)
  }

  /** The frame and the word an 8-byte aligned pointer leads to. */
  function WordOf(addr: nat): nat
    requires addr >= HHDM
  {
    (addr - HHDM) % 4096 / 8
  }

  /** Objects lie between the header and the end of the frame, in index order, without overlap. */
  lemma ObjectsInside(c: nat, k: nat)
    requires c < CACHES && k < Count(c)
    ensures 3 <= ObjWord(c, k) && ObjWord(c, k) + Words(c) <= 512
  {
    MulMono(Words(c), k + 1, Count(c));
    assert Words(c) * Count(c) <= 509;
  }

  lemma ObjectsOrdered(c: nat, k: nat, k': nat)
    requires c < CACHES && k < k'
    ensures ObjWord(c, k) + Words(c) <= ObjWord(c, k')
  {
    MulMono(Words(c), k + 1, k');
  }

  lemma PointerParts(f: nat, c: nat, k: nat)
    requires c < CACHES && k < Count(c)
    ensures FrameOf(ObjAddr(f, c, k)) == f && WordOf(ObjAddr(f, c, k)) == ObjWord(c, k)
  {
    ObjectsInside(c, k);
    QuotientIs(ObjAddr(f, c, k) - HHDM, 4096, f, 8 * ObjWord(c, k));
  }

  /** `addr & ~0xFFF` finds the header of the slab that owns the object. */
  lemma MaskFindsHeader(f: nat, c: nat, k: nat)
    requires c < CACHES && k < Count(c) && f < MAX_FRAMES
    ensures ObjAddr(f, c, k) < U64_SIZE && And(ObjAddr(f, c, k), Not(0xFFF)) == Virt(f)
  {
    ObjectsInside(c, k);
    var a := ObjAddr(f, c, k);
    PageMask(a);
    QuotientIs(a, 4096, 0xF_FFF8_0000_0000 + f, 8 * ObjWord(c, k));
  }

  // --- One slab --------------------------------------------------------------------------------

  /** The pointer to object `free[j]`, or NULL past the end. */
  function ObjLink(f: nat, c: nat, free: seq<nat>, j: nat): nat
    requires c < CACHES
  {
    if j < |free| then ObjAddr(f, c, free[j]) else NULL
  }

  /** The frame holds a slab of cache `c` whose free list is exactly the objects `free`. */
  ghost predicate SlabOk(page: Page, f: nat, c: nat, free: seq<nat>) {
    && c < CACHES
    && page[0] == Size(c)
    && page[2] == ObjLink(f, c, free, 0)
    && (forall j :: 0 <= j < |free| ==> free[j] < Count(c) && ObjWord(c, free[j]) < 512
                                        && page[ObjWord(c, free[j])] == ObjLink(f, c, free, j + 1))
    && Distinct(free)
  }

  lemma PopOk(page: Page, f: nat, c: nat, free: seq<nat>)
    requires SlabOk(page, f, c, free) && free != []
    ensures SlabOk(page[2 := page[ObjWord(c, free[0])]], f, c, free[1..])
  {
    var page' := page[2 := page[ObjWord(c, free[0])]];
    forall j | 0 <= j < |free| - 1
      ensures page'[ObjWord(c, free[1..][j])] == ObjLink(f, c, free[1..], j + 1)
    {
      assert free[1..][j] == free[j + 1];
      ObjectsInside(c, free[j + 1]);
    }
  }

  lemma PushOk(page: Page, f: nat, c: nat, free: seq<nat>, k: nat)
    requires SlabOk(page, f, c, free) && k < Count(c) && k !in free
    ensures ObjWord(c, k) < 512
    ensures SlabOk(page[ObjWord(c, k) := page[2]][2 := ObjAddr(f, c, k)], f, c, [k] + free)
  {
    ObjectsInside(c, k);
    var page' := page[ObjWord(c, k) := page[2]][2 := ObjAddr(f, c, k)];
    var free' := [k] + free;
    forall j | 0 <= j < |free'|
      ensures free'[j] < Count(c) && ObjWord(c, free'[j]) < 512
              && page'[ObjWord(c, free'[j])] == ObjLink(f, c, free', j + 1)
    {
      if j > 0 {
        ObjectsInside(c, free[j - 1]);
        SameWord(c, k, free[j - 1]);
      }
    }
  }

  lemma SameWord(c: nat, k: nat, k': nat)
    requires c < CACHES
    ensures ObjWord(c, k) == ObjWord(c, k') ==> k == k'
  {
    if k < k' {
      ObjectsOrdered(c, k, k');
    } else if k' < k {
      ObjectsOrdered(c, k', k);
    }
  }

  // --- All slabs -------------------------------------------------------------------------------

  datatype Cache = Cache(slabs: nat, size: nat)
  /** A slab's cache and the indices of its free objects, in free-list order. */
  datatype Slab = Slab(cls: nat, free: seq<nat>)

  /** The slabs of one cache, linked through their headers. */
  ghost predicate ChainOk(ram: seq<Page>, slabs: map<nat, Slab>, c: nat, start: nat, chain: seq<nat>) {
    && chain != []
    && Distinct(chain)
    && start == Virt(chain[0])
    && (forall j :: 0 <= j < |chain| ==> chain[j] in slabs && slabs[chain[j]].cls == c && chain[j] < |ram|
                                         && ram[chain[j]][1] == Link(chain, j + 1))
  }

  ghost predicate SlabsOk(ram: seq<Page>, slabs: map<nat, Slab>) {
    && |ram| <= MAX_FRAMES
    && (forall f :: f in slabs ==> 0 < f < |ram|)
    && (forall f :: f in slabs ==> f < |ram| ==> SlabOk(ram[f], f, slabs[f].cls, slabs[f].free))
  }

  /** The first `m` caches are set up and own all slabs. */
  ghost predicate Ready(ram: seq<Page>, cache: seq<Cache>, slabs: map<nat, Slab>, chains: seq<seq<nat>>, m: nat) {
    && |cache| == CACHES == |chains|
    && SlabsOk(ram, slabs)
    && m <= CACHES
    && (forall c :: 0 <= c < m ==> cache[c].size == Size(c) && ChainOk(ram, slabs, c, cache[c].slabs, chains[c]))
    && (forall f :: f in slabs ==> slabs[f].cls < m)
    && (forall f :: f in slabs ==> slabs[f].cls < CACHES ==> f in chains[slabs[f].cls])
  }

  ghost predicate HeapOk(ram: seq<Page>, cache: seq<Cache>, slabs: map<nat, Slab>, chains: seq<seq<nat>>) {
    Ready(ram, cache, slabs, chains, CACHES)
  }

  /** Object `k` of slab `f` has been handed out and not given back. */
  ghost predicate Live(slabs: map<nat, Slab>, f: nat, k: nat) {
    f in slabs && slabs[f].cls < CACHES && k < Count(slabs[f].cls) && k !in slabs[f].free
  }

  ghost predicate InObject(c: nat, k: nat, w: nat) {
    c < CACHES && w < 512 && ObjWord(c, k) <= w < ObjWord(c, k) + Words(c)
  }

  /** A word of one object is not a header word and not a word of another object. */
  lemma WordsApart(c: nat, k: nat, k': nat, w: nat)
    requires c < CACHES && InObject(c, k, w)
    ensures w >= 3 && (k != k' ==> w != ObjWord(c, k') && !InObject(c, k', w))
  {
    if k < k' {
      ObjectsOrdered(c, k, k');
    } else if k' < k {
      ObjectsOrdered(c, k', k);
    }
  }

  /** Only words outside live objects and only slab frames change. */
  ghost predicate LiveKept(ram: seq<Page>, slabs: map<nat, Slab>, ram': seq<Page>, slabs': map<nat, Slab>) {
    && |ram'| == |ram|
    && (forall f :: 0 <= f < |ram| && f !in slabs' ==> ram'[f] == ram[f])
    && (forall f: nat, k: nat, w: nat :: (Live(slabs, f, k) && f < |ram| && InObject(slabs[f].cls, k, w)) ==>
          ram'[f][w] == ram[f][w])
  }

  /** A chain depends only on the header links and cache numbers of its slabs. */
  lemma ChainFrame(ram: seq<Page>, slabs: map<nat, Slab>, c: nat, start: nat, chain: seq<nat>, ram': seq<Page>, slabs': map<nat, Slab>)
    requires ChainOk(ram, slabs, c, start, chain) && |ram'| == |ram|
    requires forall f :: f in slabs && f < |ram| && slabs[f].cls == c ==> f in slabs' && slabs'[f].cls == c && ram'[f][1] == ram[f][1]
    ensures ChainOk(ram', slabs', c, start, chain)
  {}

  /** Updating one slab's page, with the same chain link, keeps the heap. */
  lemma SetSlab(ram: seq<Page>, cache: seq<Cache>, slabs: map<nat, Slab>, chains: seq<seq<nat>>, f: nat, page: Page, free: seq<nat>)
    requires HeapOk(ram, cache, slabs, chains) && f in slabs
    requires SlabOk(page, f, slabs[f].cls, free) && page[1] == ram[f][1]
    ensures HeapOk(ram[f := page], cache, slabs[f := Slab(slabs[f].cls, free)], chains)
  {
    hide SlabOk, ChainOk;
    var ram', slabs' := ram[f := page], slabs[f := Slab(slabs[f].cls, free)];
    forall c | 0 <= c < CACHES ensures ChainOk(ram', slabs', c, cache[c].slabs, chains[c]) {
      ChainFrame(ram, slabs, c, cache[c].slabs, chains[c], ram', slabs');
    }
  }

  lemma HeapFrame(ram: seq<Page>, ram': seq<Page>, cache: seq<Cache>, slabs: map<nat, Slab>, chains: seq<seq<nat>>)
    requires HeapOk(ram, cache, slabs, chains) && |ram'| == |ram|
    requires forall f :: f in slabs && f < |ram| ==> ram'[f] == ram[f]
    ensures HeapOk(ram', cache, slabs, chains)
  {
    hide SlabOk, ChainOk;
    forall c | 0 <= c < CACHES ensures ChainOk(ram', slabs, c, cache[c].slabs, chains[c]) {
      ChainFrame(ram, slabs, c, cache[c].slabs, chains[c], ram', slabs);
    }
  }

  /** Hanging a fresh slab `n` behind the last slab of cache `c` keeps the heap. */
  lemma AppendSlab(ram: seq<Page>, cache: seq<Cache>, slabs: map<nat, Slab>, chains: seq<seq<nat>>, c: nat, n: nat, free: seq<nat>)
    requires HeapOk(ram, cache, slabs, chains) && c < CACHES && n !in slabs && 0 < n < |ram|
    requires SlabOk(ram[n], n, c, free) && ram[n][1] == NULL
    ensures var last := chains[c][|chains[c]| - 1];
            last in slabs && last != n
            && HeapOk(ram[last := ram[last][1 := Virt(n)]], cache, slabs[n := Slab(c, free)], chains[c := chains[c] + [n]])
  {
    assert ChainOk(ram, slabs, c, cache[c].slabs, chains[c]);
    var last := chains[c][|chains[c]| - 1];
    AppendSlabPage(ram[last], last, slabs[last].cls, slabs[last].free, Virt(n));
    AppendSlabHeap(ram, cache, slabs, chains, c, n, free, last);
  }

  lemma AppendSlabPage(page: Page, f: nat, c: nat, free: seq<nat>, next: nat)
    requires SlabOk(page, f, c, free)
    ensures SlabOk(page[1 := next], f, c, free)
  {
    forall j | 0 <= j < |free| ensures page[1 := next][ObjWord(c, free[j])] == ObjLink(f, c, free, j + 1) {
      ObjectsInside(c, free[j]);
    }
  }

  lemma AppendSlabHeap(ram: seq<Page>, cache: seq<Cache>, slabs: map<nat, Slab>, chains: seq<seq<nat>>, c: nat, n: nat, free: seq<nat>, last: nat)
    requires HeapOk(ram, cache, slabs, chains) && c < CACHES && n !in slabs && 0 < n < |ram|
    requires SlabOk(ram[n], n, c, free) && ram[n][1] == NULL
    requires chains[c] != [] && last == chains[c][|chains[c]| - 1] && last in slabs
    requires SlabOk(ram[last][1 := Virt(n)], last, slabs[last].cls, slabs[last].free)
    requires slabs[last].cls == c
    ensures HeapOk(ram[last := ram[last][1 := Virt(n)]], cache, slabs[n := Slab(c, free)], chains[c := chains[c] + [n]])
  {
    hide SlabOk, ChainOk;
    var ram', slabs', chains' := ram[last := ram[last][1 := Virt(n)]], slabs[n := Slab(c, free)], chains[c := chains[c] + [n]];
    forall d | 0 <= d < CACHES ensures ChainOk(ram', slabs', d, cache[d].slabs, chains'[d]) {
      if d == c {
        GrowChain(ram, slabs, c, cache[c].slabs, chains[c], n, free);
      } else {
        ChainFrame(ram, slabs, d, cache[d].slabs, chains[d], ram', slabs');
      }
    }
    assert chains'[c][|chains[c]|] == n;
    forall f | f in slabs' && slabs'[f].cls < CACHES ensures f in chains'[slabs'[f].cls] {
      if f in slabs {
        assert f in chains[slabs[f].cls];
      }
    }
  }

  lemma SingleChain(ram: seq<Page>, slabs: map<nat, Slab>, c: nat, n: nat)
    requires n in slabs && slabs[n].cls == c && n < |ram| && ram[n][1] == NULL
    ensures ChainOk(ram, slabs, c, Virt(n), [n])
  {}

  lemma GrowChain(ram: seq<Page>, slabs: map<nat, Slab>, c: nat, start: nat, chain: seq<nat>, n: nat, free: seq<nat>)
    requires ChainOk(ram, slabs, c, start, chain) && n !in slabs && n < |ram| && ram[n][1] == NULL
    ensures var last := chain[|chain| - 1];
            ChainOk(ram[last := ram[last][1 := Virt(n)]], slabs[n := Slab(c, free)], c, start, chain + [n])
  {
    DistinctConcat(chain, [n]);
  }

  lemma HeapFreshPage(ram: seq<Page>, cache: seq<Cache>, slabs: map<nat, Slab>, chains: seq<seq<nat>>, n: nat, page: Page)
    requires HeapOk(ram, cache, slabs, chains) && n < |ram| && n !in slabs
    ensures HeapOk(ram[n := page], cache, slabs, chains)
  {
    HeapFrame(ram, ram[n := page], cache, slabs, chains);
  }

  lemma NothingReady(ram: seq<Page>, cache: seq<Cache>, chains: seq<seq<nat>>)
    requires |cache| == CACHES == |chains| && |ram| <= MAX_FRAMES
    ensures Ready(ram, cache, map[], chains, 0) && forall f: nat, k: nat :: !Live(map[], f, k)
  {}

  /** The first slab of the next cache. */
  lemma AddCache(ram: seq<Page>, ram': seq<Page>, cache: seq<Cache>, slabs: map<nat, Slab>, chains: seq<seq<nat>>, m: nat, n: nat, free: seq<nat>)
    requires Ready(ram, cache, slabs, chains, m) && m < CACHES && n !in slabs && 0 < n < |ram|
    requires |ram'| == |ram| && ram' == ram[n := ram'[n]]
    requires SlabOk(ram'[n], n, m, free) && ram'[n][1] == NULL
    ensures Ready(ram', cache[m := Cache(Virt(n), Size(m))], slabs[n := Slab(m, free)], chains[m := [n]], m + 1)
  {
    hide SlabOk, ChainOk;
    var slabs', cache', chains' := slabs[n := Slab(m, free)], cache[m := Cache(Virt(n), Size(m))], chains[m := [n]];
    forall c | 0 <= c <= m ensures ChainOk(ram', slabs', c, cache'[c].slabs, chains'[c]) {
      if c < m {
        ChainFrame(ram, slabs, c, cache[c].slabs, chains[c], ram', slabs');
      } else {
        SingleChain(ram', slabs', m, n);
      }
    }
  }

  lemma ReadySizes(ram: seq<Page>, cache: seq<Cache>, slabs: map<nat, Slab>, chains: seq<seq<nat>>, m: nat)
    requires Ready(ram, cache, slabs, chains, m)
    ensures |cache| == CACHES == |chains| && |ram| <= MAX_FRAMES
  {}

  /** 0, 1, ..., n - 1 */
  ghost function Iota(n: nat): (s: seq<nat>)
    ensures |s| == n && forall i :: 0 <= i < n ==> s[i] == i
  {
    seq(n, i => i)
  }

  /** A linked but not yet full row of objects: the first `i` are chained, the rest zero. */
  ghost predicate Partial(page: Page, n: nat, c: nat, i: nat) {
    && c < CACHES && page[0] == Size(c) && page[1] == NULL && page[2] == ObjAddr(n, c, 0)
    && (forall j: nat :: j < Count(c) ==> ObjWord(c, j) < 512)
    && (forall j: nat :: j < Count(c) && ObjWord(c, j) < 512 ==>
          page[ObjWord(c, j)] == if j + 1 < i then ObjAddr(n, c, j + 1) else 0)
  }

  lemma LinkObject(page: Page, n: nat, c: nat, i: nat)
    requires Partial(page, n, c, i) && 1 <= i < Count(c)
    ensures Partial(page[ObjWord(c, i - 1) := ObjAddr(n, c, i)], n, c, i + 1)
  {
    ObjectsInside(c, i - 1);
    forall j: nat | j < Count(c) && j != i - 1 ensures ObjWord(c, j) != ObjWord(c, i - 1) {
      SameWord(c, j, i - 1);
    }
  }

  lemma FullSlab(page: Page, n: nat, c: nat)
    requires c < CACHES && Partial(page, n, c, Count(c))
    ensures SlabOk(page, n, c, Iota(Count(c)))
  {}

  lemma FullHeader(page: Page, n: nat, c: nat)
    requires c < CACHES && Partial(page, n, c, Count(c))
    ensures page[1] == NULL
  {}

  lemma EmptyPage(n: nat, c: nat, page: Page)
    requires c < CACHES && page == ZeroPage()[0 := Size(c)][2 := ObjAddr(n, c, 0)]
    ensures Partial(page, n, c, 1)
  {
    forall j: nat | j < Count(c) ensures 3 <= ObjWord(c, j) < 512 {
      ObjectsInside(c, j);
    }
  }

  /** A fresh slab has no live objects. */
  lemma FreshSlab(slabs: map<nat, Slab>, slabs': map<nat, Slab>, n: nat, c: nat)
    requires n !in slabs && c < CACHES && slabs' == slabs[n := Slab(c, Iota(Count(c)))]
    ensures forall f: nat, k: nat :: Live(slabs', f, k) <==> Live(slabs, f, k)
    ensures forall f: nat, k: nat :: Live(slabs, f, k) ==> slabs'[f].cls == slabs[f].cls
  {
    forall k: nat | k < Count(c) ensures k in Iota(Count(c)) {
      assert Iota(Count(c))[k] == k;
    }
  }

  /** Every slab of cache `c` has all its objects handed out. */
  ghost predicate AllFull(slabs: map<nat, Slab>, c: nat) {
    forall f :: f in slabs && slabs[f].cls == c ==> slabs[f].free == []
  }

  /** Object `(f, k)` becomes live and nothing else changes hands; no slab disappears. */
  ghost predicate Takes(slabs: map<nat, Slab>, slabs': map<nat, Slab>, f: nat, k: nat) {
    && Live(slabs', f, k)
    && (forall f': nat, k': nat :: (f', k') != (f, k) ==> (Live(slabs', f', k') <==> Live(slabs, f', k')))
    && (forall f' :: f' in slabs ==> f' in slabs' && slabs'[f'].cls == slabs[f'].cls)
    && (forall f' :: f' in slabs' ==> f' in slabs || f' == f)
  }

  lemma PopLive(slabs: map<nat, Slab>, f: nat)
    requires f in slabs && slabs[f].cls < CACHES && slabs[f].free != [] && Distinct(slabs[f].free)
    requires slabs[f].free[0] < Count(slabs[f].cls)
    ensures !Live(slabs, f, slabs[f].free[0])
    ensures Takes(slabs, slabs[f := Slab(slabs[f].cls, slabs[f].free[1..])], f, slabs[f].free[0])
  {
    var free := slabs[f].free;
    assert free == [free[0]] + free[1..];
    assert free[0] !in free[1..];
  }

  lemma SlabFacts(ram: seq<Page>, cache: seq<Cache>, slabs: map<nat, Slab>, chains: seq<seq<nat>>, f: nat)
    requires HeapOk(ram, cache, slabs, chains) && f in slabs
    ensures 0 < f < |ram| && SlabOk(ram[f], f, slabs[f].cls, slabs[f].free)
  {}

  lemma SizeOfCache(ram: seq<Page>, cache: seq<Cache>, slabs: map<nat, Slab>, chains: seq<seq<nat>>, c: nat)
    requires HeapOk(ram, cache, slabs, chains) && c < CACHES
    ensures |cache| == CACHES == |chains| && cache[c].size == Size(c)
  {}

  /** A store to a header word of a slab touches no live object. */
  lemma HeaderStore(ram: seq<Page>, slabs: map<nat, Slab>, f: nat, w: nat, v: nat, free: seq<nat>)
    requires f in slabs && f < |ram| && w < 3
    ensures LiveKept(ram, slabs, ram[f := ram[f][w := v]], slabs[f := Slab(slabs[f].cls, free)])
  {}

  lemma GrowKeeps(ram: seq<Page>, slabs: map<nat, Slab>, n: nat, page: Page, c: nat, last: nat)
    requires n < |ram| && n !in slabs && last in slabs && last < |ram|
    ensures var ram1 := ram[n := page];
            LiveKept(ram, slabs, ram1[last := ram1[last][1 := Virt(n)]], slabs[n := Slab(c, [])])
  {}

  lemma LiveKeptTrans(ram: seq<Page>, slabs: map<nat, Slab>, ram1: seq<Page>, slabs1: map<nat, Slab>, ram2: seq<Page>, slabs2: map<nat, Slab>)
    requires LiveKept(ram, slabs, ram1, slabs1) && LiveKept(ram1, slabs1, ram2, slabs2)
    requires forall f: nat, k: nat :: Live(slabs, f, k) ==> Live(slabs1, f, k) && slabs1[f].cls == slabs[f].cls
    requires forall f :: f in slabs1 ==> f in slabs2
    ensures LiveKept(ram, slabs, ram2, slabs2)
  {}

  /** When the search ends on a full slab, the whole cache is full. */
  lemma FullChain(ram: seq<Page>, cache: seq<Cache>, slabs: map<nat, Slab>, chains: seq<seq<nat>>, c: nat)
    requires HeapOk(ram, cache, slabs, chains) && c < CACHES
    requires forall i :: 0 <= i < |chains[c]| ==> chains[c][i] in slabs && slabs[chains[c][i]].free == []
    ensures AllFull(slabs, c)
  {}

  lemma SizesDiffer(c: nat, c': nat)
    requires c < CACHES && c' < CACHES
    ensures Size(c) == Size(c') ==> c == c'
  {}

  lemma SizeInHeader(page: Page, f: nat, c: nat, free: seq<nat>)
    requires SlabOk(page, f, c, free)
    ensures c < CACHES && page[0] == Size(c)
  {}

  lemma SlabOnChain(ram: seq<Page>, cache: seq<Cache>, slabs: map<nat, Slab>, chains: seq<seq<nat>>, f: nat)
    requires HeapOk(ram, cache, slabs, chains) && f in slabs
    ensures slabs[f].cls < CACHES && |chains| == CACHES && f in chains[slabs[f].cls]
  {}

  /** Giving an object back writes only to its own first word and the slab header. */
  lemma PushKeeps(ram: seq<Page>, slabs: map<nat, Slab>, f: nat, k: nat, x: nat, y: nat)
    requires Live(slabs, f, k) && f < |ram|
    requires ObjWord(slabs[f].cls, k) < 512
    ensures var slabs' := slabs[f := Slab(slabs[f].cls, [k] + slabs[f].free)];
            LiveKept(ram, slabs', ram[f := ram[f][ObjWord(slabs[f].cls, k) := x][2 := y]], slabs')
  {
    var slabs' := slabs[f := Slab(slabs[f].cls, [k] + slabs[f].free)];
    var ram' := ram[f := ram[f][ObjWord(slabs[f].cls, k) := x][2 := y]];
    forall f': nat, k': nat, w: nat | Live(slabs', f', k') && f' < |ram| && InObject(slabs'[f'].cls, k', w)
      ensures ram'[f'][w] == ram[f'][w]
    {
      if f' == f {
        assert k' != k by { assert ([k] + slabs[f].free)[0] == k; }
        WordsApart(slabs[f].cls, k', k, w);
      }
    }
  }

  lemma PushLive(slabs: map<nat, Slab>, f: nat, k: nat)
    requires Live(slabs, f, k)
    ensures var slabs' := slabs[f := Slab(slabs[f].cls, [k] + slabs[f].free)];
            Takes(slabs', slabs, f, k) && !Live(slabs', f, k)
  {
    assert ([k] + slabs[f].free)[0] == k;
  }

  /** `v` is the least power of two that is at least `size`. */
  ghost predicate LeastPower(v: nat, size: nat) {
    exists n: nat :: v == Pow2(n) && size <= v < 2 * size
  }

  /** `next_pow2`: the least power of two that is at least `size`, and 0 for 0. The source does not
      shift by 32, so beyond 2^32 it is that exactly if `size - 1` has no 32 zero bits in a row below
      its top one, and if that power is below 2^64. */
  method NextPow2(size: U64) returns (v: nat)
    ensures size == 0 ==> v == 0
    ensures size >= 1 ==> (LeastPower(v, size) <==> size <= 0x8000_0000_0000_0000 && NoGap(size - 1))
    ensures 1 <= size <= 0x1_0000_0000 ==> LeastPower(v, size)
  {
    hide Or, Shr, Pow2, NoGap;
    v := (size + U64_SIZE - 1) % U64_SIZE;
    ghost var v0 := v;
    v := Or(v, Shr(v, 1));
    v := Or(v, Shr(v, 2));
    v := Or(v, Shr(v, 4));
    v := Or(v, Shr(v, 8));
    v := Or(v, Shr(v, 16));
    assert v == Smeared(v0);
    hide Smeared;
    if size == 0 {
      SmearedMax();
    } else {
      NextPow2Value(size);
      if size <= 0x1_0000_0000 {
        ShortNoGap(size - 1);
      }
    }
    v := (v + 1) % U64_SIZE;
  }

  lemma NextPow2Value(size: U64)
    requires size >= 1
    ensures LeastPower((Smeared(size - 1) + 1) % U64_SIZE, size) <==> size <= 0x8000_0000_0000_0000 && NoGap(size - 1)
  {
    hide Smeared, NoGap;
    if size == 1 {
      ShortNoGap(0);
      var z := SmearedIsOnes(0);
      assert Smeared(0) + 1 == Pow2(0) == 1;
    } else {
      var n := TopBit(size - 1);
      SmearedFull(size - 1, n);
      FullPower(size, n, Smeared(size - 1));
    }
  }

  lemma FullPower(size: U64, n: nat, w: nat)
    requires size > 1 && n >= 1 && Pow2(n - 1) <= size - 1 <= w < Pow2(n)
    ensures LeastPower((w + 1) % U64_SIZE, size) <==> size <= 0x8000_0000_0000_0000 && w == Pow2(n) - 1
  {
    var v := (w + 1) % U64_SIZE;
    TwoTo64();
    assert Pow2(64) == 2 * Pow2(63) && Pow2(n) == 2 * Pow2(n - 1);
    hide Pow2;
    if n > 64 { PowMono(64, n - 1); }
    if n == 64 {
      assert size > 0x8000_0000_0000_0000;
      if LeastPower(v, size) {
        var m: nat :| v == Pow2(m) && size <= v < 2 * size;
        if m <= 63 { PowMono(m, 63); } else { PowMono(64, m); }
      }
    } else {
      PowMono(n, 63);
      if LeastPower(v, size) {
        var m: nat :| v == Pow2(m) && size <= v < 2 * size;
        if m < n { PowMono(m, n - 1); } else { PowMono(n, m); }
      }
    }
  }

  /** 2^32 + 1 is the first size it gets wrong. */
  lemma NextPow2Fails()
    ensures !LeastPower((Smeared(0x1_0000_0000) + 1) % U64_SIZE, 0x1_0000_0001)
  {
    hide Smeared;
    FirstGap();
    NextPow2Value(0x1_0000_0001);
  }

  /** The class `kmalloc` ends up with fits the request and, past the smallest, wastes less than half. */
  lemma ClassFits(size: nat, rounded: nat, c: nat)
    requires size < 1024 && c <= CACHES
    requires size == 0 ==> rounded == 0
    requires size >= 1 ==> LeastPower(rounded, size)
    requires forall i :: 0 <= i < c ==> Size(i) < rounded
    requires c < CACHES ==> Size(c) >= rounded
    ensures c < CACHES && size <= Size(c) && (c == 0 || Size(c) < 2 * size)
  {
    assert c > 0 ==> Size(c - 1) < rounded;
    if size >= 1 {
      var n :| rounded == Pow2(n) && size <= rounded < 2 * size;
      SmallPowers(10);
      if n > 10 {
        PowMono(11, n);
        assert false;
      }
      SmallPowers(n);
    }
  }

  lemma {:induction false} SmallPowers(n: nat)
    requires n <= 10
    ensures Pow2(n) == [1, 2, 4, 8, 16, 32, 64, 128, 256, 512, 1024][n]
  {
    if n > 0 {
      SmallPowers(n - 1);
    }
  }

  // --- What the heap promises its clients ------------------------------------------------------

  /** Live objects lie inside their frame past the header and do not overlap. */
  lemma LiveObjectsDisjoint(slabs: map<nat, Slab>, f: nat, k: nat, f': nat, k': nat)
    requires Live(slabs, f, k) && Live(slabs, f', k') && (f, k) != (f', k')
    ensures var a, n := ObjAddr(f, slabs[f].cls, k), Size(slabs[f].cls);
            var a', n' := ObjAddr(f', slabs[f'].cls, k'), Size(slabs[f'].cls);
            && Virt(f) + HEADER <= a && a + n <= Virt(f) + 4096
            && (a + n <= a' || a' + n' <= a)
  {
    ObjectsInside(slabs[f].cls, k);
    ObjectsInside(slabs[f'].cls, k');
    if f == f' {
      if k < k' {
        ObjectsOrdered(slabs[f].cls, k, k');
      } else {
        ObjectsOrdered(slabs[f].cls, k', k);
      }
    }
  }

  ghost function LiveIn(slabs: map<nat, Slab>, f: nat): set<nat>
    requires f in slabs && slabs[f].cls < CACHES
  {
    set k: nat | k < Count(slabs[f].cls) && k !in slabs[f].free
  }

  /** In every slab the live and the free objects add up to all the page has room for. */
  lemma ObjectsConserved(ram: seq<Page>, slabs: map<nat, Slab>, f: nat)
    requires SlabsOk(ram, slabs) && f in slabs
    ensures slabs[f].cls < CACHES
    ensures |LiveIn(slabs, f)| + |slabs[f].free| == (4096 - HEADER) / Size(slabs[f].cls)
  {
    assert SlabOk(ram[f], f, slabs[f].cls, slabs[f].free);
    var n, free := Count(slabs[f].cls), slabs[f].free;
    DistinctSize(free);
    assert LiveIn(slabs, f) == Below(n) - Elems(free);
    SubsetSize(Elems(free), Below(n));
  }

  class Heap {
    const pmm: Allocator
    /** `kmalloc_cache` */
    var cache: seq<Cache>
    ghost var slabs: map<nat, Slab>
    ghost var chains: seq<seq<nat>>

    ghost predicate Valid()
      reads this, pmm, pmm.ram
    {
      && pmm.Valid()
      && HeapOk(pmm.Ram(), cache, slabs, chains)
      && (forall f :: f in slabs ==> f !in pmm.free)
    }

    /** `init_slabs`; the eight caches need one frame each. */
    constructor (allocator: Allocator)
      requires allocator.Valid() && |allocator.free| >= CACHES
      modifies allocator, allocator.ram
      ensures pmm == allocator && Valid()
      ensures forall f: nat, k: nat :: !Live(slabs, f, k)
      ensures |pmm.free| + CACHES >= |old(allocator.free)|
      ensures forall f :: f in old(allocator.free) <==> f in slabs || f in pmm.free
      ensures forall f :: 0 <= f < pmm.ram.Length && f !in slabs ==> pmm.Ram()[f] == old(allocator.Ram())[f]
    {
      pmm := allocator;
      cache := seq(CACHES, _ => Cache(NULL, 0));
      slabs := map[];
      chains := seq(CACHES, _ => []);
      new;
      hide FreeList, Ready, Live;
      NothingReady(pmm.Ram(), cache, chains);
      InitSlabs(pmm.free, pmm.Ram());
    }

    /** What `init_slabs` has built out of the free frames `frames` when `m` caches are set up. */
    ghost predicate Setup(m: nat, frames: seq<nat>, ram: seq<Page>)
      reads this, pmm, pmm.ram
    {
      && pmm.Valid()
      && Ready(pmm.Ram(), cache, slabs, chains, m)
      && |pmm.free| + m >= |frames|
      && |ram| == pmm.ram.Length
      && (forall f :: f in slabs ==> f !in pmm.free)
      && (forall f :: f in frames <==> f in slabs || f in pmm.free)
      && (forall f: nat, k: nat :: !Live(slabs, f, k))
      && (forall f :: 0 <= f < |ram| && f !in slabs ==> pmm.Ram()[f] == ram[f])
    }

    method InitSlabs(ghost frames: seq<nat>, ghost ram: seq<Page>)
      requires Setup(0, frames, ram) && |frames| >= CACHES
      modifies this, pmm, pmm.ram
      ensures Setup(CACHES, frames, ram)
    {
      hide Setup;
      InitCache(0, 8, frames, ram);
      InitCache(1, 16, frames, ram);
      InitCache(2, 32, frames, ram);
      InitCache(3, 64, frames, ram);
      InitCache(4, 128, frames, ram);
      InitCache(5, 256, frames, ram);
      InitCache(6, 512, frames, ram);
      InitCache(7, 1024, frames, ram);
    }

    /** `init_cache`, whose body repeats `make_slab` */
    method InitCache(m: nat, size: nat, ghost frames: seq<nat>, ghost ram: seq<Page>)
      requires m < CACHES && size == Size(m) && Setup(m, frames, ram) && |frames| >= CACHES
      modifies this, pmm, pmm.ram
      ensures Setup(m + 1, frames, ram)
    {
      hide FreeList, Ready, SlabOk, Iota;
      ghost var ram0 := pmm.Ram();
      assert |cache| == CACHES == |chains| by { ReadySizes(ram0, cache, slabs, chains, m); }
      var ok, h := MakeSlab(size, m);
      assert ok;
      ghost var n := FrameOf(h);
      assert n in old(pmm.free) by { assert old(pmm.free)[0] == n; }
      AddCache(ram0, pmm.Ram(), cache, slabs, chains, m, n, Iota(Count(m)));
      cache := cache[m := Cache(h, size)];
      ghost var slabs0 := slabs;
      slabs := slabs[n := Slab(m, Iota(Count(m)))];
      FreshSlab(slabs0, slabs, n, m);
      chains := chains[m := [n]];
    }

    /** `make_slab`: a zeroed frame with a header and all its objects on the free list. */
    method MakeSlab(size: nat, ghost c: nat) returns (ok: bool, h: nat)
      requires pmm.Valid() && c < CACHES && size == Size(c)
      modifies pmm, pmm.ram
      ensures pmm.Valid()
      ensures !ok ==> pmm.Ram() == old(pmm.Ram()) && pmm.free == old(pmm.free) == []
      ensures ok ==> h >= HHDM && h == Virt(FrameOf(h)) && old(pmm.free) == [FrameOf(h)] + pmm.free
      ensures ok ==> 0 < FrameOf(h) < pmm.ram.Length && FrameOf(h) !in pmm.free
      ensures ok ==> var n := FrameOf(h); var page := pmm.Ram()[n];
                     && pmm.Ram() == old(pmm.Ram())[n := page]
                     && SlabOk(page, n, c, Iota(Count(c))) && page[1] == NULL
    {
      hide FreeList, ObjWord, Partial, SlabOk, Iota, ObjAddr;
      var n;
      ok, n := pmm.AllocFrame();
      h := Virt(n);
      if ok {
        ghost var page := StartSlab(n, size, c);
        page := LinkObjects(n, size, h + HEADER, (4096 - HEADER) / size, c, page);
        FullSlab(page, n, c);
        FullHeader(page, n, c);
      }
    }

    /** The header of a slab on a zeroed frame. */
    method StartSlab(n: nat, size: nat, ghost c: nat) returns (ghost page: Page)
      requires pmm.Valid() && c < CACHES && size == Size(c) && 0 < n < pmm.ram.Length <= MAX_FRAMES && n !in pmm.free
      modifies pmm.ram
      ensures pmm.Valid() && pmm.Ram() == old(pmm.Ram())[n := page] && Partial(page, n, c, 1)
    {
      hide FreeList, ObjWord;
      pmm.Zero(n);
      pmm.Store(n, 0, size);
      pmm.Store(n, 2, Virt(n) + HEADER);
      page := pmm.Ram()[n];
      assert Virt(n) + HEADER == ObjAddr(n, c, 0) by { ObjectStart(n, c); }
      EmptyPage(n, c, page);
    }

    /** The loop of `make_slab` that chains the objects. */
    method LinkObjects(n: nat, size: nat, start: nat, amount: nat, ghost c: nat, ghost empty: Page) returns (ghost page: Page)
      requires pmm.Valid() && c < CACHES && size == Size(c) && amount == Count(c) && 1 <= amount
      requires 0 < n < pmm.ram.Length && n !in pmm.free
      requires start == Virt(n) + HEADER && pmm.Ram()[n] == empty && Partial(empty, n, c, 1)
      modifies pmm.ram
      ensures pmm.Valid() && pmm.Ram() == old(pmm.Ram())[n := page] && Partial(page, n, c, amount)
    {
      hide FreeList, ObjWord;
      ghost var ram := pmm.Ram();
      page := empty;
      var prev := start;
      ObjectStart(n, c);
      for i := 1 to amount
        invariant pmm.Valid() && n !in pmm.free
        invariant pmm.Ram() == ram[n := page] && Partial(page, n, c, i)
        invariant prev == ObjAddr(n, c, i - 1)
      {
        var new_obj := start + i * size;
        ObjectStep(n, c, i);
        PointerParts(n, c, i - 1);
        ObjectsInside(c, i - 1);
        LinkObject(page, n, c, i);
        page := page[ObjWord(c, i - 1) := new_obj];
        pmm.Store(FrameOf(prev), WordOf(prev), new_obj);
        prev := new_obj;
      }
    }

    /** `h` is the header of the `j`-th slab of cache `c`. */
    ghost predicate At(c: nat, j: nat, h: nat)
      reads this, pmm, pmm.ram
    {
      && c < |chains| && j < |chains[c]|
      && chains[c][j] in slabs && slabs[chains[c][j]].cls == c
      && h == Virt(chains[c][j]) && chains[c][j] < pmm.ram.Length
      && (pmm.ram[chains[c][j]][2] == NULL <==> slabs[chains[c][j]].free == [])
      && pmm.ram[chains[c][j]][1] == Link(chains[c], j + 1)
    }

    lemma Header(c: nat, j: nat)
      requires Valid() && c < CACHES
      ensures c < |cache| && c < |chains| && chains[c] != [] && cache[c].slabs == Virt(chains[c][0])
      ensures j < |chains[c]| ==> At(c, j, Virt(chains[c][j]))
    {
      assert ChainOk(pmm.Ram(), slabs, c, cache[c].slabs, chains[c]);
      if j < |chains[c]| {
        assert SlabOk(pmm.Ram()[chains[c][j]], chains[c][j], c, slabs[chains[c][j]].free);
      }
    }

    /** The search of `slab_alloc`: the first slab with a free object, or else the last slab. */
    method FindSlab(c: nat) returns (h: nat, ghost j: nat)
      requires Valid() && c < CACHES
      ensures At(c, j, h)
      ensures forall i :: 0 <= i < j ==> chains[c][i] in slabs && slabs[chains[c][i]].free == []
      ensures slabs[chains[c][j]].free == [] ==> j == |chains[c]| - 1
    {
      hide FreeList, HeapOk;
      Header(c, 0);
      h := cache[c].slabs;
      j := 0;
      while pmm.ram[FrameOf(h)][2] == NULL && pmm.ram[FrameOf(h)][1] != NULL
        invariant At(c, j, h)
        invariant forall i :: 0 <= i < j ==> chains[c][i] in slabs && slabs[chains[c][i]].free == []
        decreases |chains[c]| - j
      {
        h := pmm.ram[FrameOf(h)][1];
        j := j + 1;
        Header(c, j);
      }
    }

    /** Take the first free object of slab `f`. */
    method Pop(h: nat, ghost f: nat) returns (addr: nat)
      requires Valid() && f in slabs && h == Virt(f) && slabs[f].free != []
      modifies this`slabs, pmm.ram
      ensures Valid()
      ensures slabs == old(slabs)[f := Slab(old(slabs)[f].cls, old(slabs)[f].free[1..])]
      ensures slabs[f].cls < CACHES && addr == ObjAddr(f, slabs[f].cls, old(slabs)[f].free[0])
      ensures !Live(old(slabs), f, old(slabs)[f].free[0]) && Takes(old(slabs), slabs, f, old(slabs)[f].free[0])
      ensures LiveKept(old(pmm.Ram()), old(slabs), pmm.Ram(), slabs)
    {
      hide FreeList, ChainOk, LiveKept, Takes, Live;
      ghost var ram, c, free := pmm.Ram(), slabs[f].cls, slabs[f].free;
      SlabFacts(ram, cache, slabs, chains, f);
      PointerParts(f, c, free[0]);
      addr := pmm.ram[FrameOf(h)][2];
      var next := pmm.ram[FrameOf(addr)][WordOf(addr)];
      PopOk(ram[f], f, c, free);
      SetSlab(ram, cache, slabs, chains, f, ram[f][2 := next], free[1..]);
      HeaderStore(ram, slabs, f, 2, next, free[1..]);
      PopLive(slabs, f);
      pmm.Store(FrameOf(h), 2, next);
      slabs := slabs[f := Slab(c, free[1..])];
    }

    /** The end of `slab_alloc`: hang a new slab behind the last one, `h`. */
    method Grow(c: nat, h: nat, ghost j: nat) returns (ok: bool, new_h: nat)
      requires Valid() && c < CACHES && At(c, j, h) && j == |chains[c]| - 1
      modifies this`slabs, this`chains, pmm, pmm.ram
      ensures Valid()
      ensures !ok ==> slabs == old(slabs) && pmm.Ram() == old(pmm.Ram()) && pmm.free == old(pmm.free) == []
      ensures ok ==> new_h >= HHDM && new_h == Virt(FrameOf(new_h)) && FrameOf(new_h) !in old(slabs)
      ensures ok ==> slabs == old(slabs)[FrameOf(new_h) := Slab(c, Iota(Count(c)))]
      ensures ok ==> old(pmm.free) == [FrameOf(new_h)] + pmm.free
      ensures ok ==> LiveKept(old(pmm.Ram()), old(slabs), pmm.Ram(), slabs)
    {
      hide FreeList, ChainOk, SlabOk, Iota, HeapOk;
      ghost var ram, last := pmm.Ram(), chains[c][j];
      Header(c, j);
      SizeOfCache(ram, cache, slabs, chains, c);
      ok, new_h := MakeSlab(cache[c].size, c);
      if ok {
        ghost var n, ram1 := FrameOf(new_h), pmm.Ram();
        assert n in old(pmm.free) by { assert old(pmm.free)[0] == n; }
        HeapFreshPage(ram, cache, slabs, chains, n, ram1[n]);
        AppendSlab(ram1, cache, slabs, chains, c, n, Iota(Count(c)));
        pmm.Store(FrameOf(h), 1, new_h);
        GrowKeeps(ram, slabs, n, ram1[n], c, last);
        slabs := slabs[n := Slab(c, Iota(Count(c)))];
        chains := chains[c := chains[c] + [n]];
      }
    }

    /** `slab_alloc`: an object no one holds. A new slab is made only when all of the cache are full. */
    method SlabAlloc(c: nat) returns (ok: bool, addr: nat, ghost f: nat, ghost k: nat)
      requires Valid() && c < CACHES
      modifies this`slabs, this`chains, pmm, pmm.ram
      ensures Valid()
      ensures !ok ==> slabs == old(slabs) && pmm.Ram() == old(pmm.Ram()) && pmm.free == old(pmm.free) == []
      ensures ok ==> addr == ObjAddr(f, c, k) && f in slabs && slabs[f].cls == c
      ensures ok ==> !Live(old(slabs), f, k) && Takes(old(slabs), slabs, f, k)
      ensures ok ==> LiveKept(old(pmm.Ram()), old(slabs), pmm.Ram(), slabs)
      ensures ok ==> if f in old(slabs) then pmm.free == old(pmm.free)
                     else AllFull(old(slabs), c) && old(pmm.free) == [f] + pmm.free
    {
      hide FreeList, ChainOk, SlabOk, Iota, HeapOk, Live, LiveKept;
      ghost var ram, slabs0 := pmm.Ram(), slabs;
      SizeOfCache(ram, cache, slabs, chains, c);
      var h; ghost var j;
      h, j := FindSlab(c);
      if pmm.ram[FrameOf(h)][2] != NULL {
        ok, f := true, chains[c][j];
        k := slabs[f].free[0];
        addr := Pop(h, f);
      } else {
        FullChain(ram, cache, slabs, chains, c);
        ok, h := Grow(c, h, j);
        if !ok {
          addr, f, k := NULL, 0, 0;
          return;
        }
        f := FrameOf(h);
        ghost var ram1, slabs1 := pmm.Ram(), slabs;
        FreshSlab(slabs0, slabs1, f, c);
        k := slabs[f].free[0];
        addr := Pop(h, f);
        LiveKeptTrans(ram, slabs0, ram1, slabs1, pmm.Ram(), slabs);
      }
    }

    /** The loop of `free` that finds the cache of a slab by its size. */
    method FindCache(size: nat, ghost c: nat) returns (right: nat)
      requires Valid() && c < CACHES && size == Size(c)
      ensures right == c
    {
      hide FreeList, HeapOk;
      SizeOfCache(pmm.Ram(), cache, slabs, chains, c);
      right := CACHES;
      for i := 0 to CACHES
        invariant right == if c < i then c else CACHES
      {
        SizeOfCache(pmm.Ram(), cache, slabs, chains, i);
        SizesDiffer(c, i);
        if cache[i].size == size {
          right := i;
        }
      }
    }

    /** The last loop of `free`: is slab `h` on the chain of cache `c`? It always is, so the
        relinking the source does otherwise never happens. */
    method OnChain(c: nat, h: nat, ghost f: nat) returns (found: bool)
      requires Valid() && c < CACHES && f in slabs && slabs[f].cls == c && h == Virt(f)
      ensures found
    {
      hide FreeList, HeapOk;
      SlabOnChain(pmm.Ram(), cache, slabs, chains, f);
      ghost var goal :| 0 <= goal < |chains[c]| && chains[c][goal] == f;
      Header(c, 0);
      var cur := cache[c].slabs;
      ghost var j := 0;
      while cur != NULL && cur != h
        invariant j <= goal && At(c, j, cur)
        decreases goal - j
      {
        Header(c, j + 1);
        cur := pmm.ram[FrameOf(cur)][1];
        j := j + 1;
      }
      found := cur == h;
    }

    /** `free`: NULL is ignored; otherwise the object goes to the front of its slab's free list. */
    method Free(addr: U64, ghost f: nat, ghost k: nat)
      requires Valid()
      requires addr != NULL ==> Live(slabs, f, k) && addr == ObjAddr(f, slabs[f].cls, k)
      modifies this`slabs, pmm.ram
      ensures Valid()
      ensures addr == NULL ==> slabs == old(slabs) && pmm.Ram() == old(pmm.Ram())
      ensures addr != NULL ==> slabs == old(slabs)[f := Slab(old(slabs)[f].cls, [k] + old(slabs)[f].free)]
      ensures addr != NULL ==> Takes(slabs, old(slabs), f, k) && !Live(slabs, f, k)
      ensures addr != NULL ==> LiveKept(old(pmm.Ram()), slabs, pmm.Ram(), slabs)
    {
      hide FreeList, HeapOk, SlabOk, LiveKept, Takes, Live;
      if addr == NULL {
        return;
      }
      LiveBounds(slabs, f, k);
      ghost var ram, c, free := pmm.Ram(), slabs[f].cls, slabs[f].free;
      SlabFacts(ram, cache, slabs, chains, f);
      SizeInHeader(ram[f], f, c, free);
      MaskFindsHeader(f, c, k);
      var h := And(addr, Not(0xFFF));
      var right := FindCache(pmm.ram[FrameOf(h)][0], c);
      Push(addr, h, f, k);
      var found := OnChain(right, h, f);
    }

    lemma LiveBounds(slabs: map<nat, Slab>, f: nat, k: nat)
      requires Live(slabs, f, k)
      ensures f in slabs && slabs[f].cls < CACHES && k < Count(slabs[f].cls) && k !in slabs[f].free
    {}

    /** The two stores that put an object in front of the free list of its slab. */
    method Push(addr: nat, h: nat, ghost f: nat, ghost k: nat)
      requires Valid() && Live(slabs, f, k) && addr == ObjAddr(f, slabs[f].cls, k) && h == Virt(f)
      modifies this`slabs, pmm.ram
      ensures Valid()
      ensures slabs == old(slabs)[f := Slab(old(slabs)[f].cls, [k] + old(slabs)[f].free)]
      ensures Takes(slabs, old(slabs), f, k) && !Live(slabs, f, k)
      ensures LiveKept(old(pmm.Ram()), slabs, pmm.Ram(), slabs)
    {
      hide FreeList, HeapOk, SlabOk, LiveKept, Takes, Live;
      LiveBounds(slabs, f, k);
      ghost var ram, c, free := pmm.Ram(), slabs[f].cls, slabs[f].free;
      SlabFacts(ram, cache, slabs, chains, f);
      PointerParts(f, c, k);
      PushOk(ram[f], f, c, free, k);
      ghost var w := ObjWord(c, k);
      ghost var page := ram[f][w := ram[f][2]][2 := addr];
      SetSlab(ram, cache, slabs, chains, f, page, [k] + free) by { ObjectsInside(c, k); }
      PushKeeps(ram, slabs, f, k, ram[f][2], addr);
      PushLive(slabs, f, k);
      pmm.Store(FrameOf(addr), WordOf(addr), pmm.ram[FrameOf(h)][2]);
      pmm.Store(FrameOf(h), 2, addr);
      assert pmm.Ram() == ram[f := page];
      slabs := slabs[f := Slab(c, [k] + free)];
    }

    /** `search_for_bigenoughcache`: the first cache whose objects have at least `size` bytes. */
    method BigEnough(size: nat) returns (c: nat)
      requires Valid()
      ensures c <= CACHES
      ensures forall i :: 0 <= i < c ==> Size(i) < size
      ensures c < CACHES ==> Size(c) >= size
    {
      hide FreeList, HeapOk;
      c := 0;
      while c < CACHES
        invariant c <= CACHES
        invariant forall i :: 0 <= i < c ==> Size(i) < size
      {
        SizeOfCache(pmm.Ram(), cache, slabs, chains, c);
        if cache[c].size >= size {
          return;
        }
        c := c + 1;
      }
    }

    /** `kmalloc` below 1024 bytes: an object of the smallest size class that fits. */
    method SmallAlloc(size: nat) returns (ok: bool, addr: nat, ghost f: nat, ghost k: nat)
      requires Valid() && size < 1024
      modifies this`slabs, this`chains, pmm, pmm.ram
      ensures Valid()
      ensures !ok ==> slabs == old(slabs) && pmm.Ram() == old(pmm.Ram()) && pmm.free == old(pmm.free) == []
      ensures ok ==> f in slabs && slabs[f].cls < CACHES && addr == ObjAddr(f, slabs[f].cls, k)
      ensures ok ==> size <= Size(slabs[f].cls) && (slabs[f].cls == 0 || Size(slabs[f].cls) < 2 * size)
      ensures ok ==> !Live(old(slabs), f, k) && Takes(old(slabs), slabs, f, k)
      ensures ok ==> LiveKept(old(pmm.Ram()), old(slabs), pmm.Ram(), slabs)
      ensures ok ==> if f in old(slabs) then pmm.free == old(pmm.free)
                     else AllFull(old(slabs), slabs[f].cls) && old(pmm.free) == [f] + pmm.free
    {
      hide FreeList, HeapOk, Takes, LiveKept, Live;
      var rounded := NextPow2(size);
      var c := BigEnough(rounded);
      ClassFits(size, rounded, c);
      ok, addr, f, k := SlabAlloc(c);
    }
  }

  lemma ObjectStart(n: nat, c: nat)
    requires c < CACHES
    ensures ObjAddr(n, c, 0) == Virt(n) + HEADER
  {}

  lemma ObjectStep(n: nat, c: nat, i: nat)
    requires c < CACHES
    ensures ObjAddr(n, c, i) == Virt(n) + HEADER + i * Size(c)
  {
    assert 8 * (i * Words(c)) == i * (8 * Words(c));
  }
}
