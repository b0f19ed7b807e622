/** Virtual memory regions and `kmalloc` (kernel/src/vmm.c, kernel/src/pmm.c): how the frame list,
    the slabs, the page tables and the region list share one physical memory. */
module Vmm {
  import opened Bits
  import opened Collections
  import opened Pmm
  import opened Paging
  import S = Slab

  /** Cache 2 holds the 32-byte `struct vmm_region`. */
  const REGION_CLASS: nat := 2

  /** The page loops of the region functions count in `int`. */
  const MAX_REQUEST: nat := 0x8000_0000
  /** `NYA_OS_VMM_PRESENT | NYA_OS_VMM_RW` */
  const KERNEL_FLAGS: nat := 3

  /** `align_up(n, 4096)` for sizes that do not wrap. */
  ghost function AlignUp(n: nat): nat {
    (n + 4096 - 1) / 4096 * 4096
  }

  /** It is the least multiple of 4096 that is not smaller. */
  lemma AlignUpIs(n: nat)
    ensures AlignUp(n) % 4096 == 0 && n <= AlignUp(n) < n + 4096
  {}

  /** Kernel regions can be read, written and executed, by the kernel alone. */
  lemma KernelRights()
    ensures RightsOf(KERNEL_FLAGS) == Rights(true, false, true) && Present(KERNEL_FLAGS)
  {}

  /** A region and the slab object that holds its node. */
  datatype Region = Region(base: nat, length: nat, f: nat, k: nat)

  /** Word of the frame where the region's node starts: base, length, flags, next. */
  function NodeWord(r: Region): nat {
    S.ObjWord(REGION_CLASS, r.k)
  }

  function NodeAddr(r: Region): nat {
    S.ObjAddr(r.f, REGION_CLASS, r.k)
  }

  function NodeLink(regs: seq<Region>, i: nat): nat {
    if i < |regs| then NodeAddr(regs[i]) else NULL
  }

  /** The memory of one node: a live 32-byte object holding base, length and next. */
  ghost predicate NodeOk(ram: seq<Page>, slabs: map<nat, S.Slab>, r: Region, next: nat) {
    && S.Live(slabs, r.f, r.k) && slabs[r.f].cls == REGION_CLASS
    && r.f < |ram| && NodeWord(r) + 3 < 512
    && ram[r.f][NodeWord(r)] == r.base && ram[r.f][NodeWord(r) + 1] == r.length
    && ram[r.f][NodeWord(r) + 3] == next
  }

  ghost predicate ListOk(ram: seq<Page>, slabs: map<nat, S.Slab>, head: nat, regs: seq<Region>) {
    && head == NodeLink(regs, 0)
    && (forall i :: 0 <= i < |regs| ==> NodeOk(ram, slabs, regs[i], NodeLink(regs, i + 1)))
    && NodesDistinct(regs)
  }

  ghost predicate NodesDistinct(regs: seq<Region>) {
    forall i, j :: 0 <= i < j < |regs| ==> (regs[i].f, regs[i].k) != (regs[j].f, regs[j].k)
  }

  /** The kernel's list starts at the direct map and ends with the kernel image; between them lie
      page-aligned, non-empty regions in address order, without overlap. */
  ghost predicate Layout(regs: seq<Region>) {
    && |regs| >= 2
    && regs[0].base == HHDM
    && (forall i :: 0 <= i < |regs| - 1 ==> Aligned(regs[i]) && regs[i].base + regs[i].length <= regs[i + 1].base)
    && regs[|regs| - 1].base < U64_SIZE
  }

  ghost predicate Aligned(r: Region) {
    r.base >= HHDM && r.base % 4096 == 0 && r.length % 4096 == 0 && r.length > 0
  }

  /** Page `p` belongs to a region between the first and the last. */
  ghost predicate InRegions(regs: seq<Region>, p: nat) {
    exists i :: 0 < i < |regs| - 1 && InRegion(regs[i], p)
  }

  ghost predicate InRegion(r: Region, p: nat) {
    PageOf(r.base) <= p < PageOf(r.base) + r.length / 4096
  }

  /** The frame `get_phys_from_entry` finds in a leaf entry. */
  ghost function EntryFrame(w: nat): nat {
    w / 4096 % 0x80_0000_0000
  }

  /** The pages `pages` of the kernel map are backed one-to-one by the frames in `backing`. */
  ghost predicate Backed(ram: seq<Page>, tree: Tree, r: nat, pages: set<nat>, backing: map<nat, nat>)
    requires TreeOk(ram, tree) && r in tree
  {
    && (forall p :: p in pages ==>
          p < PAGES && EntryFrame(Leaf(ram, tree, r, p)) in backing && backing[EntryFrame(Leaf(ram, tree, r, p))] == p)
    && (forall f :: f in backing ==> 0 < f < |ram| && backing[f] in pages && EntryFrame(Leaf(ram, tree, r, backing[f])) == f)
  }

  /** Every managed frame has exactly one owner. */
  ghost predicate Parts(managed: set<nat>, free: seq<nat>, tree: Tree, slabs: map<nat, S.Slab>, backing: map<nat, nat>, direct: set<nat>) {
    && (forall f :: f in managed <==> f in free || f in tree || f in slabs || f in backing || f in direct)
    && (forall f :: f in free ==> f !in tree && f !in slabs && f !in backing && f !in direct)
    && (forall f :: f in tree ==> f !in slabs && f !in backing && f !in direct)
    && (forall f :: f in slabs ==> f !in backing && f !in direct)
    && (forall f :: f in backing ==> f !in direct)
  }

  // --- What each primitive leaves alone --------------------------------------------------------

  /** Tables that keep their words keep the tree and the flat map. */
  lemma TreeFrame(ram: seq<Page>, ram': seq<Page>, tree: Tree)
    requires TreeOk(ram, tree) && |ram'| == |ram|
    requires forall t :: t in tree && t < |ram| ==> ram'[t] == ram[t]
    ensures TreeOk(ram', tree)
  {
    forall t | t in tree && t < |ram| ensures TableOk(ram', tree, t) {
      assert TableOk(ram, tree, t);
    }
  }

  lemma {:induction false} LeafFrame(ram: seq<Page>, ram': seq<Page>, tree: Tree, t: nat, p: nat)
    requires TreeOk(ram, tree) && TreeOk(ram', tree) && |ram'| == |ram| && t in tree
    requires forall t :: t in tree && t < |ram| ==> ram'[t] == ram[t]
    ensures Leaf(ram', tree, t, p) == Leaf(ram, tree, t, p)
    decreases tree[t].level
  {
    if tree[t].level > 1 {
      var i := Index(tree[t].level, p);
      assert TableOk(ram, tree, t) && EntryOk(tree, t, i, ram[t][i]);
      if Present(ram[t][i]) {
        LeafFrame(ram, ram', tree, Child(ram[t][i]), p);
      }
    }
  }

  lemma BackedFrame(ram: seq<Page>, ram': seq<Page>, tree: Tree, r: nat, pages: set<nat>, backing: map<nat, nat>)
    requires TreeOk(ram, tree) && |ram'| == |ram| && r in tree && Backed(ram, tree, r, pages, backing)
    requires forall t :: t in tree && t < |ram| ==> ram'[t] == ram[t]
    ensures TreeOk(ram', tree) && Backed(ram', tree, r, pages, backing)
    ensures forall t: nat, p: nat :: t in tree ==> Leaf(ram', tree, t, p) == Leaf(ram, tree, t, p)
  {
    hide Leaf, TreeOk;
    TreeFrame(ram, ram', tree);
    forall t: nat, p: nat | t in tree ensures Leaf(ram', tree, t, p) == Leaf(ram, tree, t, p) {
      LeafFrame(ram, ram', tree, t, p);
    }
  }

  /** The region list survives anything that keeps its nodes' words and keeps them live. */
  lemma ListFrame(ram: seq<Page>, slabs: map<nat, S.Slab>, ram': seq<Page>, slabs': map<nat, S.Slab>, head: nat, regs: seq<Region>)
    requires ListOk(ram, slabs, head, regs)
    requires S.LiveKept(ram, slabs, ram', slabs')
    requires forall f: nat, k: nat :: S.Live(slabs, f, k) ==> S.Live(slabs', f, k) && slabs'[f].cls == slabs[f].cls
    ensures ListOk(ram', slabs', head, regs)
  {
    hide NodeOk, S.LiveKept, S.Live;
    forall i | 0 <= i < |regs| ensures NodeOk(ram', slabs', regs[i], NodeLink(regs, i + 1)) {
      assert NodeOk(ram, slabs, regs[i], NodeLink(regs, i + 1));
      NodeSurvives(ram, slabs, ram', slabs', regs[i], NodeLink(regs, i + 1));
    }
  }

  lemma NodeSurvives(ram: seq<Page>, slabs: map<nat, S.Slab>, ram': seq<Page>, slabs': map<nat, S.Slab>, r: Region, next: nat)
    requires NodeOk(ram, slabs, r, next)
    requires S.LiveKept(ram, slabs, ram', slabs')
    requires forall f: nat, k: nat :: S.Live(slabs, f, k) ==> S.Live(slabs', f, k) && slabs'[f].cls == slabs[f].cls
    ensures NodeOk(ram', slabs', r, next)
  {
    assert S.InObject(REGION_CLASS, r.k, NodeWord(r)) && S.InObject(REGION_CLASS, r.k, NodeWord(r) + 1)
           && S.InObject(REGION_CLASS, r.k, NodeWord(r) + 3);
  }

  /** ... in particular anything that keeps the slab frames as they are. */
  lemma ListSameSlabs(ram: seq<Page>, ram': seq<Page>, slabs: map<nat, S.Slab>, head: nat, regs: seq<Region>)
    requires ListOk(ram, slabs, head, regs) && |ram'| == |ram|
    requires forall f :: f in slabs && f < |ram| ==> ram'[f] == ram[f]
    ensures ListOk(ram', slabs, head, regs)
  {
    forall i | 0 <= i < |regs| ensures NodeOk(ram', slabs, regs[i], NodeLink(regs, i + 1)) {
      assert NodeOk(ram, slabs, regs[i], NodeLink(regs, i + 1));
    }
  }

  /** Writing inside a live object keeps the heap. */
  lemma StoreInObject(ram: seq<Page>, cache: seq<S.Cache>, slabs: map<nat, S.Slab>, chains: seq<seq<nat>>, f: nat, k: nat, w: nat, v: nat)
    requires S.HeapOk(ram, cache, slabs, chains) && S.Live(slabs, f, k) && S.InObject(slabs[f].cls, k, w)
    ensures f < |ram| && S.HeapOk(ram[f := ram[f][w := v]], cache, slabs, chains)
  {
    hide S.HeapOk, S.SlabOk;
    S.SlabFacts(ram, cache, slabs, chains, f);
    var c, free := slabs[f].cls, slabs[f].free;
    StoreInPage(ram[f], f, c, free, k, w, v);
    S.SetSlab(ram, cache, slabs, chains, f, ram[f][w := v], free);
    assert slabs[f := S.Slab(c, free)] == slabs;
  }

  lemma StoreInPage(page: Page, f: nat, c: nat, free: seq<nat>, k: nat, w: nat, v: nat)
    requires S.SlabOk(page, f, c, free) && S.InObject(c, k, w) && k !in free
    ensures w >= 3 && S.SlabOk(page[w := v], f, c, free)
  {
    S.WordsApart(c, k, k, w);
    forall j | 0 <= j < |free| ensures page[w := v][S.ObjWord(c, free[j])] == S.ObjLink(f, c, free, j + 1) {
      S.WordsApart(c, k, free[j], w);
    }
  }

  // --- Backing one page ------------------------------------------------------------------------

  /** A frame taken off the list ends up backing a page; frames that became tables stay managed. */
  lemma PartsAfterMap(managed: set<nat>, f: nat, free: seq<nat>, tree: Tree, slabs: map<nat, S.Slab>,
                      backing: map<nat, nat>, direct: set<nat>, free': seq<nat>, tree': Tree, p: nat)
    requires Parts(managed, [f] + free, tree, slabs, backing, direct) && f !in free
    requires FramesKept(tree, free, tree', free') && Apart(tree', free')
    requires forall t :: t in tree ==> t in tree'
    ensures Parts(managed, free', tree', slabs, backing[f := p], direct)
  {
    assert ([f] + free)[0] == f;
    assert forall g :: g in [f] + free <==> g == f || g in free;
    assert forall t :: t in tree' ==> t in tree || t in free;
  }

  lemma PartsApart(managed: set<nat>, free: seq<nat>, tree: Tree, slabs: map<nat, S.Slab>, backing: map<nat, nat>, direct: set<nat>)
    requires Parts(managed, free, tree, slabs, backing, direct)
    ensures Apart(tree, free) && forall f :: f in free ==> f !in tree && f !in slabs && f !in backing && f !in direct
    ensures (forall f :: f in direct ==> f !in slabs && f !in tree && f !in backing) && forall f :: f in slabs ==> f !in backing && f !in tree
  {}

  /** A leaf entry for frame `f` leads back to `f`. */
  lemma EntryOfFrame(f: nat, flags: nat)
    requires f < MAX_FRAMES && GoodFlags(flags)
    ensures EntryFrame(Or(4096 * f, flags)) == f
  {
    EntryRoundTrip(4096 * f, flags);
  }

  /** Mapping page `p` to frame `f` extends the one-to-one backing. */
  lemma BackedAfterMap(ram: seq<Page>, tree: Tree, ram': seq<Page>, tree': Tree, r: nat, p: nat, w: nat,
                       pages: set<nat>, backing: map<nat, nat>)
    requires Sets(ram, tree, ram', tree', r, p, w) && p < PAGES && p !in pages
    requires Backed(ram, tree, r, pages, backing)
    requires EntryFrame(w) !in backing && 0 < EntryFrame(w) < |ram|
    ensures Backed(ram', tree', r, pages + {p}, backing[EntryFrame(w) := p])
  {
    hide Leaf, TreeOk, EntryFrame;
    forall q | q in pages ensures Leaf(ram', tree', r, q) == Leaf(ram, tree, r, q) {
      assert Root(tree, r);
    }
  }

  /** What backing page `p` with frame `f` does to the flat kernel map and to the data frames. */
  ghost predicate BacksPage(ram: seq<Page>, tree: Tree, ram': seq<Page>, tree': Tree, r: nat, p: nat, f: nat, flags: nat, backing: map<nat, nat>)
    requires TreeOk(ram, tree) && TreeOk(ram', tree') && r in tree && r in tree'
  {
    && |ram'| == |ram| && f < |ram|
    && Leaf(ram', tree', r, p) == Or(4096 * f, flags)
    && (forall q: nat :: q < PAGES && q != p ==> Leaf(ram', tree', r, q) == Leaf(ram, tree, r, q))
    && ram'[f] == ZeroPage()
    && (forall g :: g in backing && g < |ram| ==> ram'[g] == ram[g])
  }

  lemma SetsBacks(ram0: seq<Page>, ram: seq<Page>, tree: Tree, ram': seq<Page>, tree': Tree, r: nat, p: nat, f: nat, flags: nat, backing: map<nat, nat>)
    requires TreeOk(ram0, tree) && Sets(ram, tree, ram', tree', r, p, Or(4096 * f, flags)) && f < |ram0| && ram == ram0[f := ZeroPage()]
    requires forall t: nat, q: nat :: t in tree ==> Leaf(ram, tree, t, q) == Leaf(ram0, tree, t, q)
    requires f !in tree' && f !in backing && forall g :: g in backing ==> g !in tree'
    ensures BacksPage(ram0, tree, ram', tree', r, p, f, flags, backing)
  {
    hide Leaf, TreeOk;
    forall q: nat | q < PAGES && q != p ensures Leaf(ram', tree', r, q) == Leaf(ram0, tree, r, q) {
      assert Root(tree, r);
    }
  }

  /** The `n` pages from `lo`. */
  ghost function Range(lo: nat, n: nat): (s: set<nat>)
    ensures forall p: nat :: p in s <==> lo <= p < lo + n
  {
    if n == 0 then {} else Range(lo, n - 1) + {lo + n - 1}
  }

  /** The flat kernel map changed exactly on the `n` pages from `lo`: each now leads, with the given
      flags, to a frame that was free and is zero; frames in use before keep their contents. */
  ghost predicate RangeBacked(ram0: seq<Page>, tree0: Tree, free0: seq<nat>, backing0: map<nat, nat>,
                              ram: seq<Page>, tree: Tree, backing: map<nat, nat>, r: nat, lo: nat, n: nat, flags: nat)
    requires TreeOk(ram0, tree0) && TreeOk(ram, tree) && r in tree0 && r in tree
  {
    && |ram| == |ram0|
    && (forall q: nat :: q < PAGES && !(lo <= q < lo + n) ==> Leaf(ram, tree, r, q) == Leaf(ram0, tree0, r, q))
    && (forall q: nat :: lo <= q < lo + n ==>
          Fresh(ram, Leaf(ram, tree, r, q), flags, free0, backing))
    && (forall g :: g in backing0 ==> g in backing)
    && (forall g :: g in backing0 && g < |ram| ==> ram[g] == ram0[g])
  }

  /** The leaf entry `w` leads, with the given flags, to a zeroed frame that used to be free. */
  ghost predicate Fresh(ram: seq<Page>, w: nat, flags: nat, free0: seq<nat>, backing: map<nat, nat>) {
    var f := EntryFrame(w);
    w == Or(4096 * f, flags) && f in free0 && f in backing && f < |ram| && ram[f] == ZeroPage()
  }

  lemma RangeStep(ram0: seq<Page>, tree0: Tree, free0: seq<nat>, backing0: map<nat, nat>,
                  ram: seq<Page>, tree: Tree, backing: map<nat, nat>, ram': seq<Page>, tree': Tree,
                  r: nat, lo: nat, n: nat, flags: nat, f: nat)
    requires TreeOk(ram0, tree0) && TreeOk(ram, tree) && TreeOk(ram', tree') && r in tree0 && r in tree && r in tree'
    requires RangeBacked(ram0, tree0, free0, backing0, ram, tree, backing, r, lo, n, flags)
    requires BacksPage(ram, tree, ram', tree', r, lo + n, f, flags, backing)
    requires f !in backing && f in free0 && f < MAX_FRAMES && GoodFlags(flags) && lo + n < PAGES
    ensures RangeBacked(ram0, tree0, free0, backing0, ram', tree', backing[f := lo + n], r, lo, n + 1, flags)
  {
    hide Leaf, TreeOk, GoodFlags, EntryFrame;
    EntryOfFrame(f, flags);
    forall q: nat | lo <= q < lo + (n + 1)
      ensures Fresh(ram', Leaf(ram', tree', r, q), flags, free0, backing[f := lo + n])
    {
      if q < lo + n {
        assert Fresh(ram, Leaf(ram, tree, r, q), flags, free0, backing);
      }
    }
  }

  lemma RangeStart(ram: seq<Page>, tree: Tree, free: seq<nat>, backing: map<nat, nat>, r: nat, lo: nat, flags: nat)
    requires TreeOk(ram, tree) && r in tree
    ensures RangeBacked(ram, tree, free, backing, ram, tree, backing, r, lo, 0, flags)
  {}

  /** The frames behind the `n` pages from `lo`, last page first. */
  ghost function FramesBehind(ram: seq<Page>, tree: Tree, r: nat, lo: nat, n: nat): (s: seq<nat>)
    requires TreeOk(ram, tree) && r in tree
    ensures |s| == n
  {
    if n == 0 then [] else [EntryFrame(Leaf(ram, tree, r, lo + n - 1))] + FramesBehind(ram, tree, r, lo, n - 1)
  }

  /** The flat kernel map lost exactly the `n` pages from `lo`. */
  ghost predicate RangeReleased(ram0: seq<Page>, ram: seq<Page>, tree: Tree, r: nat, lo: nat, n: nat)
    requires TreeOk(ram0, tree) && TreeOk(ram, tree) && r in tree
  {
    forall q: nat :: q < PAGES ==> Leaf(ram, tree, r, q) == if lo <= q < lo + n then 0 else Leaf(ram0, tree, r, q)
  }

  lemma ReleaseStep(ram0: seq<Page>, ram: seq<Page>, ram': seq<Page>, tree: Tree, r: nat, lo: nat, n: nat, p: nat)
    requires TreeOk(ram0, tree) && TreeOk(ram, tree) && TreeOk(ram', tree) && r in tree && p == lo + n < PAGES
    requires RangeReleased(ram0, ram, tree, r, lo, n) && RangeReleased(ram, ram', tree, r, p, 1)
    ensures RangeReleased(ram0, ram', tree, r, lo, n + 1)
    ensures Leaf(ram, tree, r, p) == Leaf(ram0, tree, r, p)
  {
    hide Leaf, TreeOk;
  }

  lemma PartsAfterRelease(managed: set<nat>, f: nat, free: seq<nat>, tree: Tree, slabs: map<nat, S.Slab>,
                          backing: map<nat, nat>, direct: set<nat>)
    requires Parts(managed, free, tree, slabs, backing, direct) && f in backing
    ensures Parts(managed, [f] + free, tree, slabs, backing - {f}, direct)
    ensures f !in free && f !in tree && f !in slabs
  {
    assert ([f] + free)[0] == f;
    assert forall g :: g in [f] + free <==> g == f || g in free;
  }

  /** Clearing page `p` and letting its frame go keeps the rest of the backing. */
  lemma BackedAfterUnmap(ram: seq<Page>, tree: Tree, ram': seq<Page>, r: nat, p: nat, pages: set<nat>, backing: map<nat, nat>)
    requires Sets(ram, tree, ram', tree, r, p, 0) && p in pages && Backed(ram, tree, r, pages, backing)
    ensures var f := EntryFrame(Leaf(ram, tree, r, p));
            f in backing && backing[f] == p && Backed(ram', tree, r, pages - {p}, backing - {f})
    ensures RangeReleased(ram, ram', tree, r, p, 1)
  {
    hide Leaf, TreeOk, EntryFrame;
    forall q: nat | q < PAGES && q != p ensures Leaf(ram', tree, r, q) == Leaf(ram, tree, r, q) {
      assert Root(tree, r);
    }
  }

  /** Pages of consecutive addresses in the kernel half are consecutive. */
  lemma PageRange(base: nat, j: nat, virt: nat)
    requires base >= HHDM && base % 4096 == 0 && virt == base + j * 4096 < U64_SIZE
    ensures PageOf(virt) == PageOf(base) + j
  {
    var top := 0xF_FFF8_0000_0000;
    assert base / 4096 >= top && virt / 4096 == base / 4096 + j;
    KernelPage(base);
    KernelPage(virt);
  }

  lemma KernelPage(virt: nat)
    requires HHDM <= virt < U64_SIZE
    ensures PageOf(virt) == virt / 4096 - 0xF_FFF0_0000_0000
  {
    QuotientIs(virt / 4096, PAGES, 0xFFFF, virt / 4096 - 0xF_FFF0_0000_0000);
  }

  // --- The region list -------------------------------------------------------------------------

  /** One 64-bit store. */
  ghost function Put(ram: seq<Page>, f: nat, w: nat, v: nat): (ram': seq<Page>)
    requires f < |ram| && w < 512
    ensures |ram'| == |ram|
  {
    ram[f := ram[f][w := v]]
  }

  /** A word of a node object. */
  ghost predicate NodeField(slabs: map<nat, S.Slab>, f: nat, k: nat, w: nat) {
    S.Live(slabs, f, k) && slabs[f].cls == REGION_CLASS && S.InObject(REGION_CLASS, k, w)
  }

  /** A store into some other object leaves a node as it is. */
  lemma NodeElsewhere(ram: seq<Page>, slabs: map<nat, S.Slab>, r: Region, next: nat, f: nat, k: nat, w: nat, v: nat)
    requires NodeOk(ram, slabs, r, next) && NodeField(slabs, f, k, w) && (f, k) != (r.f, r.k) && f < |ram|
    ensures NodeOk(Put(ram, f, w, v), slabs, r, next)
  {
    if f == r.f {
      S.WordsApart(REGION_CLASS, k, r.k, w);
      assert !S.InObject(REGION_CLASS, r.k, w);
    }
  }

  /** A store into an object of any size that is not a node leaves the list as it is. */
  lemma ListApart(ram: seq<Page>, slabs: map<nat, S.Slab>, head: nat, regs: seq<Region>, f: nat, k: nat, w: nat, v: nat)
    requires ListOk(ram, slabs, head, regs) && Unused(regs, f, k) && f < |ram| && w < 512
    requires S.Live(slabs, f, k) && S.InObject(slabs[f].cls, k, w)
    ensures ListOk(Put(ram, f, w, v), slabs, head, regs)
  {
    hide NodeOk, NodeLink, S.Live;
    forall i | 0 <= i < |regs| ensures NodeOk(Put(ram, f, w, v), slabs, regs[i], NodeLink(regs, i + 1)) {
      NodeBeside(ram, slabs, regs[i], NodeLink(regs, i + 1), f, k, w, v);
    }
  }

  lemma NodeBeside(ram: seq<Page>, slabs: map<nat, S.Slab>, r: Region, next: nat, f: nat, k: nat, w: nat, v: nat)
    requires NodeOk(ram, slabs, r, next) && (f, k) != (r.f, r.k) && f < |ram| && w < 512
    requires S.Live(slabs, f, k) && S.InObject(slabs[f].cls, k, w)
    ensures NodeOk(Put(ram, f, w, v), slabs, r, next)
  {
    if r.f == f {
      S.WordsApart(REGION_CLASS, k, r.k, w);
      assert !S.InObject(REGION_CLASS, r.k, w);
    }
  }

  lemma BackingApart(managed: set<nat>, free: seq<nat>, tree: Tree, slabs: map<nat, S.Slab>, backing: map<nat, nat>, direct: set<nat>)
    requires Parts(managed, free, tree, slabs, backing, direct)
    ensures forall f :: f in backing ==> f !in slabs && f !in tree && f !in direct && f !in free
  {}

  /** Setting the `next` field of a node. */
  lemma NodeRelink(ram: seq<Page>, slabs: map<nat, S.Slab>, r: Region, next: nat, next': nat)
    requires NodeOk(ram, slabs, r, next)
    ensures NodeField(slabs, r.f, r.k, NodeWord(r) + 3)
    ensures NodeOk(Put(ram, r.f, NodeWord(r) + 3, next'), slabs, r, next')
  {}

  ghost predicate Unused(regs: seq<Region>, f: nat, k: nat) {
    forall i :: 0 <= i < |regs| ==> (regs[i].f, regs[i].k) != (f, k)
  }

  ghost function Inserted(regs: seq<Region>, i: nat, r: Region): seq<Region>
    requires i <= |regs|
  {
    regs[..i] + [r] + regs[i..]
  }

  /** Linking a filled-in node between two neighbours. */
  lemma InsertNode(ram: seq<Page>, slabs: map<nat, S.Slab>, head: nat, regs: seq<Region>, i: nat, r: Region)
    requires ListOk(ram, slabs, head, regs) && 1 <= i < |regs| && Unused(regs, r.f, r.k)
    requires NodeOk(ram, slabs, r, NodeAddr(regs[i]))
    ensures regs[i - 1].f < |ram| && NodeWord(regs[i - 1]) + 3 < 512
    ensures ListOk(Put(ram, regs[i - 1].f, NodeWord(regs[i - 1]) + 3, NodeAddr(r)), slabs, head, Inserted(regs, i, r))
  {
    hide NodeAddr, NodeOk, NodeField;
    var p := regs[i - 1];
    assert NodeOk(ram, slabs, p, NodeLink(regs, i));
    NodeRelink(ram, slabs, p, NodeLink(regs, i), NodeAddr(r));
    NodeBounds(ram, slabs, p, NodeLink(regs, i));
    var ram' := Put(ram, p.f, NodeWord(p) + 3, NodeAddr(r));
    var regs' := Inserted(regs, i, r);
    forall j | 0 <= j < |regs'| ensures NodeOk(ram', slabs, regs'[j], NodeLink(regs', j + 1)) {
      if j < i - 1 {
        NodeElsewhere(ram, slabs, regs[j], NodeLink(regs, j + 1), p.f, p.k, NodeWord(p) + 3, NodeAddr(r));
      } else if j == i {
        NodeElsewhere(ram, slabs, r, NodeAddr(regs[i]), p.f, p.k, NodeWord(p) + 3, NodeAddr(r));
      } else if j > i {
        NodeElsewhere(ram, slabs, regs[j - 1], NodeLink(regs, j), p.f, p.k, NodeWord(p) + 3, NodeAddr(r));
      }
    }
    DistinctInserted(regs, i, r);
  }

  lemma NodeBounds(ram: seq<Page>, slabs: map<nat, S.Slab>, r: Region, next: nat)
    requires NodeOk(ram, slabs, r, next)
    ensures r.f < |ram| && NodeWord(r) + 3 < 512 && r.f in slabs
    ensures FrameOf(NodeAddr(r)) == r.f && S.WordOf(NodeAddr(r)) == NodeWord(r)
    ensures ram[r.f][NodeWord(r)] == r.base && ram[r.f][NodeWord(r) + 1] == r.length && ram[r.f][NodeWord(r) + 3] == next
  {
    S.PointerParts(r.f, REGION_CLASS, r.k);
  }

  lemma DistinctInserted(regs: seq<Region>, i: nat, r: Region)
    requires i <= |regs| && Unused(regs, r.f, r.k) && NodesDistinct(regs)
    ensures NodesDistinct(Inserted(regs, i, r))
  {
    var regs' := Inserted(regs, i, r);
    forall a, b | 0 <= a < b < |regs'| ensures (regs'[a].f, regs'[a].k) != (regs'[b].f, regs'[b].k) {
      var x, y := if a < i then a else a - 1, if b < i then b else b - 1;
      assert a != i ==> regs'[a] == regs[x];
      assert b != i ==> regs'[b] == regs[y];
    }
  }

  ghost function Removed(regs: seq<Region>, i: nat): (s: seq<Region>)
    requires i < |regs|
    ensures |s| == |regs| - 1
    ensures forall j :: 0 <= j < |s| ==> s[j] == if j < i then regs[j] else regs[j + 1]
  {
    regs[..i] + regs[i + 1..]
  }

  /** Taking node `i` out by relinking its predecessor. */
  lemma RemoveNode(ram: seq<Page>, slabs: map<nat, S.Slab>, head: nat, regs: seq<Region>, i: nat)
    requires ListOk(ram, slabs, head, regs) && 1 <= i < |regs| - 1
    ensures regs[i - 1].f < |ram| && NodeWord(regs[i - 1]) + 3 < 512
    ensures ListOk(Put(ram, regs[i - 1].f, NodeWord(regs[i - 1]) + 3, NodeAddr(regs[i + 1])), slabs, head, Removed(regs, i))
  {
    hide NodeAddr, NodeOk, NodeField, Removed, NodesDistinct;
    RemovedDistinct(regs, i);
    RemovePredecessor(regs, i);
    var p := regs[i - 1];
    assert NodeOk(ram, slabs, p, NodeLink(regs, i));
    NodeBounds(ram, slabs, p, NodeLink(regs, i));
    var ram' := Put(ram, p.f, NodeWord(p) + 3, NodeAddr(regs[i + 1]));
    RemovedEntries(regs, i);
    forall j | 0 <= j < |regs| - 1
      ensures NodeOk(ram', slabs, Removed(regs, i)[j], NodeLink(Removed(regs, i), j + 1))
    {
      hide NodeLink, ListOk, NodeWord;
      RemovedNode(ram, slabs, head, regs, i, j);
    }
  }

  lemma RemovedNode(ram: seq<Page>, slabs: map<nat, S.Slab>, head: nat, regs: seq<Region>, i: nat, j: nat)
    requires ListOk(ram, slabs, head, regs) && 1 <= i < |regs| - 1 && j < |regs| - 1
    requires regs[i - 1].f < |ram| && NodeWord(regs[i - 1]) + 3 < 512
    requires regs[i - 1].f in slabs && forall x :: 0 <= x < |regs| && x != i - 1 ==> (regs[x].f, regs[x].k) != (regs[i - 1].f, regs[i - 1].k)
    ensures NodeOk(Put(ram, regs[i - 1].f, NodeWord(regs[i - 1]) + 3, NodeAddr(regs[i + 1])), slabs, Removed(regs, i)[j],
                   NodeLink(Removed(regs, i), j + 1))
  {
    hide NodeAddr, NodeOk, NodeField, Removed, NodesDistinct, NodeLink;
    var p, x := regs[i - 1], if j < i then j else j + 1;
    assert NodeOk(ram, slabs, regs[x], NodeLink(regs, x + 1));
    RemovedLink(regs, i, j, x);
    assert NodeOk(ram, slabs, p, NodeLink(regs, i));
    NodeRelink(ram, slabs, p, NodeLink(regs, i), NodeAddr(regs[i + 1]));
    if j != i - 1 {
      NodeElsewhere(ram, slabs, regs[x], NodeLink(regs, x + 1), p.f, p.k, NodeWord(p) + 3, NodeAddr(regs[i + 1]));
    }
  }

  lemma RemovedLink(regs: seq<Region>, i: nat, j: nat, x: nat)
    requires 1 <= i < |regs| - 1 && j < |regs| - 1 && x == if j < i then j else j + 1
    ensures Removed(regs, i)[j] == regs[x]
    ensures NodeLink(Removed(regs, i), j + 1) == if j == i - 1 then NodeAddr(regs[i + 1]) else NodeLink(regs, x + 1)
  {}

  /** The first root: an empty address space on a zeroed frame. */
  lemma FirstRoot(ram0: seq<Page>, ram: seq<Page>, all: seq<nat>, free: seq<nat>, root: nat, slabs: map<nat, S.Slab>)
    requires 0 < root < |ram0| <= MAX_FRAMES && ram == ram0[root := ZeroPage()]
    requires root !in slabs && root !in free && forall f :: f in slabs ==> f !in free
    requires forall f :: f in all <==> f in slabs || f == root || f in free
    ensures var tree: Tree := map[root := Node(4, 0, 0)];
            && TreeOk(ram, tree) && Root(tree, root) && Backed(ram, tree, root, {}, map[])
            && Parts(Elems(all), free, tree, slabs, map[], {})
            && forall p: nat :: Leaf(ram, tree, root, p) == 0
  {
    var tree: Tree := map[root := Node(4, 0, 0)];
    assert TableOk(ram, tree, root);
    assert TreeOk(ram, tree);
    forall p: nat ensures Leaf(ram, tree, root, p) == 0 {
      ZeroTableLeaf(ram, tree, root, p);
    }
    assert forall f :: f in Elems(all) <==> f in all;
  }

  lemma PartsAfterTake(managed: set<nat>, f: nat, free: seq<nat>, tree: Tree, slabs: map<nat, S.Slab>, backing: map<nat, nat>, direct: set<nat>)
    requires Parts(managed, [f] + free, tree, slabs, backing, direct) && f !in free
    ensures Parts(managed, free, tree, slabs, backing, direct + {f}) && f !in direct
    ensures forall g :: g in free ==> g in [f] + free
  {
    assert ([f] + free)[0] == f;
    assert forall g :: g in [f] + free <==> g == f || g in free;
  }

  lemma PartsAfterGive(managed: set<nat>, f: nat, free: seq<nat>, tree: Tree, slabs: map<nat, S.Slab>, backing: map<nat, nat>, direct: set<nat>)
    requires Parts(managed, free, tree, slabs, backing, direct) && f in direct
    ensures Parts(managed, [f] + free, tree, slabs, backing, direct - {f})
    ensures f !in free && f !in slabs && f !in tree && f !in backing
    ensures forall g :: g in [f] + free <==> g == f || g in free
  {
    assert ([f] + free)[0] == f;
    assert forall g :: g in [f] + free <==> g == f || g in free;
  }

  lemma AlignUpTwice(n: U64)
    requires n + 0xFFF < U64_SIZE
    ensures AlignUp(AlignUp(n)) == AlignUp(n) && (0 < n <= MAX_REQUEST ==> 0 < AlignUp(n) <= MAX_REQUEST)
  {}

  lemma KernelFlags()
    ensures GoodFlags(KERNEL_FLAGS)
  {}

  lemma BasesDiffer(regs: seq<Region>, i: nat)
    requires Layout(regs) && 0 < i < |regs| - 1
    ensures forall j :: 0 <= j < |regs| && j != i ==> regs[j].base != regs[i].base
  {
    forall j | 0 <= j < |regs| && j != i ensures regs[j].base != regs[i].base {
      LayoutOrdered(regs, if i < j then i else j, if i < j then j else i);
      assert Aligned(regs[if i < j then i else j]);
    }
  }

  lemma RegionInRange(regs: seq<Region>, i: nat, regs0: seq<Region>)
    requires Layout(regs) && 1 <= i < |regs0| && i < |regs| && regs == Inserted(regs0, i, regs[i])
    ensures NULL < regs[i].base < U64_SIZE
  {
    LayoutOrdered(regs, 0, i);
  }

  // --- The direct map --------------------------------------------------------------------------

  /** 4 GiB in frames. */
  const FOUR_GIB: nat := 0x10_0000

  /** What `vmm_init` counts of a memory map entry: its frames up to 4 GiB. */
  function Counted(e: MapEntry): nat {
    if e.kind.Ignored? then 0 else Min(e.length, FOUR_GIB)
  }

  /** The frames it gives the region of the direct map: those of the entries, and 4 GiB more. */
  function CountedFrames(entries: seq<MapEntry>): nat {
    if entries == [] then FOUR_GIB else CountedFrames(entries[..|entries| - 1]) + Counted(entries[|entries| - 1])
  }

  lemma {:induction false} CountedSome(entries: seq<MapEntry>)
    ensures CountedFrames(entries) >= FOUR_GIB
  {
    if entries != [] {
      CountedSome(entries[..|entries| - 1]);
    }
  }

  /** The counting in `vmm_init`. */
  method CountDirectMap(entries: seq<MapEntry>) returns (bytes: nat)
    ensures bytes == 4096 * CountedFrames(entries)
  {
    bytes := 0;
    for e := 0 to |entries|
      invariant bytes + 4096 * FOUR_GIB == 4096 * CountedFrames(entries[..e])
    {
      assert entries[..e + 1][..e] == entries[..e];
      ghost var before := bytes;
      if !entries[e].kind.Ignored? {
        for j := 0 to entries[e].length
          invariant bytes == before + 4096 * Min(j, FOUR_GIB)
        {
          if j < FOUR_GIB {
            bytes := bytes + 0x1000;
          }
        }
      }
    }
    assert entries[..|entries|] == entries;
    ghost var counted := bytes;
    for i := 0 to FOUR_GIB
      invariant bytes == counted + 4096 * i
    {
      bytes := bytes + 0x1000;
    }
  }

  /** The end of the highest usable entry. */
  function TopUsable(entries: seq<MapEntry>): nat {
    if entries == [] then 0
    else
      var last := entries[|entries| - 1];
      var below := TopUsable(entries[..|entries| - 1]);
      if last.usable && last.base + last.length > below then last.base + last.length else below
  }

  /** The addresses of all managed frames in the direct map lie inside the first region. */
  ghost predicate Covers(regs: seq<Region>, managed: set<nat>) {
    |regs| > 0 && forall f :: f in managed ==> Virt(f) < regs[0].base + regs[0].length
  }

  /** The region takes the address that frame `f` has in the direct map. */
  ghost predicate Overlaid(r: Region, f: nat) {
    r.base <= Virt(f) < r.base + r.length
  }

  /** Then no region is laid over a managed frame. */
  lemma NotOverlaid(regs: seq<Region>, managed: set<nat>, i: nat, f: nat)
    requires Layout(regs) && Covers(regs, managed) && 0 < i < |regs| && f in managed
    ensures !Overlaid(regs[i], f)
  {
    LayoutOrdered(regs, 0, i);
  }

  /** The page of that address is one of the region's. */
  lemma OverlaidPage(r: Region, f: nat)
    requires Aligned(r) && r.base + r.length <= U64_SIZE && f < MAX_FRAMES
    ensures Overlaid(r, f) <==> InRegion(r, PageOf(Virt(f)))
  {
    KernelPage(r.base);
    KernelPage(Virt(f));
  }

  lemma CoversInserted(regs: seq<Region>, managed: set<nat>, i: nat, r: Region)
    requires Covers(regs, managed) && 1 <= i <= |regs|
    ensures Covers(Inserted(regs, i, r), managed)
  {
    assert Inserted(regs, i, r)[0] == regs[0];
  }

  /** If the managed frames were covered before region `i` came in, they still are, and it is laid over none. */
  ghost predicate StaysClear(regs: seq<Region>, regs': seq<Region>, managed: set<nat>, i: nat) {
    Covers(regs, managed) ==> Covers(regs', managed) && forall f :: f in managed && i < |regs'| ==> !Overlaid(regs'[i], f)
  }

  lemma ApartFromFrames(regs: seq<Region>, regs': seq<Region>, managed: set<nat>, i: nat)
    requires 1 <= i <= |regs| && i < |regs'| && regs' == Inserted(regs, i, regs'[i]) && Layout(regs')
    ensures StaysClear(regs, regs', managed, i)
  {
    if Covers(regs, managed) {
      CoversInserted(regs, managed, i, regs'[i]);
      hide Layout, Overlaid;
      forall f | f in managed ensures !Overlaid(regs'[i], f) {
        NotOverlaid(regs', managed, i, f);
      }
    }
  }

  lemma CoversRemoved(regs: seq<Region>, managed: set<nat>, i: nat)
    requires Covers(regs, managed) && 1 <= i < |regs|
    ensures Covers(Removed(regs, i), managed)
  {}

  /** All usable frames lie below the highest end, and the last one right there. */
  lemma {:induction false} TopIsTop(entries: seq<MapEntry>)
    requires forall i :: 0 <= i < |entries| && entries[i].usable ==> entries[i].length > 0
    ensures forall i :: 0 <= i < |entries| && entries[i].usable ==> entries[i].base + entries[i].length <= TopUsable(entries)
    ensures TopUsable(entries) > 0 ==> exists i :: 0 <= i < |entries| && entries[i].usable && entries[i].base + entries[i].length == TopUsable(entries)
  {
    if entries != [] {
      var n := |entries| - 1;
      TopIsTop(entries[..n]);
      forall i | 0 <= i < n ensures entries[..n][i] == entries[i] {}
      if TopUsable(entries) > 0 && TopUsable(entries) == TopUsable(entries[..n]) {
        var i :| 0 <= i < n && entries[..n][i].usable && entries[..n][i].base + entries[..n][i].length == TopUsable(entries);
        assert entries[i].usable;
      }
    }
  }

  /** The usable frames are all below a bound exactly if usable memory ends there or before. */
  lemma {:induction false} UsableBelow(entries: seq<MapEntry>, all: set<nat>, c: nat)
    requires forall i :: 0 <= i < |entries| && entries[i].usable ==> entries[i].length > 0
    requires all == Elems(UsableFrames(entries))
    ensures (forall f :: f in all ==> f < c) <==> TopUsable(entries) <= c
  {
    TopIsTop(entries);
    forall f: nat ensures f in all <==> f in UsableFrames(entries) {}
    var top := TopUsable(entries);
    hide UsableFrames, TopUsable, Elems;
    if top <= c {
      forall f | f in all ensures f < c {
        UsableFramesIn(entries, f);
      }
    } else {
      var i :| 0 <= i < |entries| && entries[i].usable && entries[i].base + entries[i].length == top;
      UsableFramesIn(entries, top - 1);
      assert top - 1 in all;
    }
  }

  /** After boot the first region covers the managed frames exactly if usable memory ends no higher than
      what has been counted. */
  lemma {:induction false} CoversUsable(entries: seq<MapEntry>, regs: seq<Region>, all: set<nat>)
    requires forall i :: 0 <= i < |entries| && entries[i].usable ==> entries[i].length > 0
    requires all == Elems(UsableFrames(entries))
    requires |regs| > 0 && regs[0].base == HHDM && regs[0].length == 4096 * CountedFrames(entries)
    ensures Covers(regs, all) <==> TopUsable(entries) <= CountedFrames(entries)
  {
    UsableBelow(entries, all, CountedFrames(entries));
    hide UsableFrames, TopUsable, Elems, CountedFrames;
  }

  // --- What the clients of the allocators see --------------------------------------------------

  /** Everything that decides what lies in a client's memory. */
  datatype View = View(ram: seq<Page>, tree: Tree, slabs: map<nat, S.Slab>, regs: seq<Region>, pages: set<nat>, direct: set<nat>)

  /** An object that stays with its owner keeps its words. */
  ghost predicate ObjectKept(v: View, v': View, f: nat, k: nat) {
    && f in v.slabs && f in v'.slabs && v'.slabs[f].cls == v.slabs[f].cls && f < |v.ram| && f < |v'.ram|
    && forall x: nat :: S.InObject(v.slabs[f].cls, k, x) ==> v'.ram[f][x] == v.ram[f][x]
  }

  /** The objects that are live before and after and no region nodes, but for those in `own`. */
  ghost predicate ObjectsKept(v: View, v': View, own: set<(nat, nat)>) {
    forall f: nat, k: nat :: S.Live(v.slabs, f, k) && S.Live(v'.slabs, f, k) && Unused(v.regs, f, k) && (f, k) !in own ==>
      ObjectKept(v, v', f, k)
  }

  /** A page that stays mapped keeps its entry and its contents. */
  ghost predicate PageKept(v: View, v': View, r: nat, p: nat)
    requires TreeOk(v.ram, v.tree) && TreeOk(v'.ram, v'.tree) && r in v.tree && r in v'.tree
  {
    var w := Leaf(v.ram, v.tree, r, p);
    Leaf(v'.ram, v'.tree, r, p) == w && EntryFrame(w) < |v.ram| == |v'.ram| && v'.ram[EntryFrame(w)] == v.ram[EntryFrame(w)]
  }

  ghost predicate PagesKept(v: View, v': View, r: nat)
    requires TreeOk(v.ram, v.tree) && TreeOk(v'.ram, v'.tree) && r in v.tree && r in v'.tree
  {
    forall p :: p in v.pages && p in v'.pages ==> PageKept(v, v', r, p)
  }

  ghost predicate DirectKept(v: View, v': View) {
    forall g :: g in v.direct && g in v'.direct && g < |v.ram| && g < |v'.ram| ==> v'.ram[g] == v.ram[g]
  }

  /** What clients hold before and after keeps its place and its contents, but for the objects in `own`. */
  ghost predicate Kept(v: View, v': View, r: nat, own: set<(nat, nat)>) {
    && TreeOk(v.ram, v.tree) && TreeOk(v'.ram, v'.tree) && r in v.tree && r in v'.tree && |v.ram| == |v'.ram|
    && ObjectsKept(v, v', own) && PagesKept(v, v', r) && DirectKept(v, v')
  }

  lemma KeptTrans(v0: View, v1: View, v2: View, r: nat, own: set<(nat, nat)>)
    requires Kept(v0, v1, r, own) && Kept(v1, v2, r, own)
    requires forall f: nat, k: nat :: S.Live(v0.slabs, f, k) && S.Live(v2.slabs, f, k) && Unused(v0.regs, f, k) && (f, k) !in own ==>
               S.Live(v1.slabs, f, k) && Unused(v1.regs, f, k)
    requires forall p :: p in v0.pages && p in v2.pages ==> p in v1.pages
    requires forall g :: g in v0.direct && g in v2.direct ==> g in v1.direct
    ensures Kept(v0, v2, r, own)
  {
    hide TreeOk, Leaf, S.Live, Unused, EntryFrame, S.InObject;
    forall f: nat, k: nat | S.Live(v0.slabs, f, k) && S.Live(v2.slabs, f, k) && Unused(v0.regs, f, k) && (f, k) !in own
      ensures ObjectKept(v0, v2, f, k)
    {
      assert ObjectKept(v0, v1, f, k) && ObjectKept(v1, v2, f, k);
    }
    forall p | p in v0.pages && p in v2.pages ensures PageKept(v0, v2, r, p) {
      assert PageKept(v0, v1, r, p) && PageKept(v1, v2, r, p);
    }
  }

  /** Exceptions that are not live at both ends, or are region nodes, are none. */
  lemma KeptBut(v: View, v': View, r: nat, own: set<(nat, nat)>, own': set<(nat, nat)>)
    requires Kept(v, v', r, own)
    requires forall x :: x in own && x !in own' ==> !S.Live(v.slabs, x.0, x.1) || !Unused(v.regs, x.0, x.1) || !S.Live(v'.slabs, x.0, x.1)
    ensures Kept(v, v', r, own')
  {
    hide TreeOk, Leaf, S.Live, Unused, PagesKept, DirectKept, ObjectKept;
    forall f: nat, k: nat | S.Live(v.slabs, f, k) && S.Live(v'.slabs, f, k) && Unused(v.regs, f, k) && (f, k) !in own'
      ensures ObjectKept(v, v', f, k)
    {
      assert (f, k) !in own;
    }
  }

  lemma KeptMore(v: View, v': View, r: nat)
    requires Kept(v, v, r, {}) && v'.(direct := v.direct) == v
    ensures Kept(v, v', r, {})
  {
    hide TreeOk, Leaf;
    forall p | p in v.pages && p in v'.pages ensures PageKept(v, v', r, p) {
      assert PageKept(v, v, r, p);
    }
    forall f: nat, k: nat | S.Live(v.slabs, f, k) && S.Live(v'.slabs, f, k) && Unused(v.regs, f, k) ensures ObjectKept(v, v', f, k) {
      assert ObjectKept(v, v, f, k);
    }
  }

  /** A frame that is given back and belongs to no one else. */
  lemma GivenKept(v: View, v': View, r: nat, f: nat, backing: map<nat, nat>)
    requires Kept(v, v, r, {}) && TreeOk(v'.ram, v.tree) && f < |v.ram| && f !in v.slabs && f !in backing
    requires |v'.ram| == |v.ram| && v' == v.(ram := v.ram[f := v'.ram[f]], direct := v.direct - {f})
    requires Backed(v.ram, v.tree, r, v.pages, backing)
    requires forall t: nat, p: nat :: t in v.tree ==> Leaf(v'.ram, v.tree, t, p) == Leaf(v.ram, v.tree, t, p)
    ensures Kept(v, v', r, {})
  {
    hide TreeOk, Leaf, EntryFrame;
    forall p | p in v.pages && p in v'.pages ensures PageKept(v, v', r, p) {
      assert PageKept(v, v, r, p);
      assert EntryFrame(Leaf(v.ram, v.tree, r, p)) in backing;
    }
    forall f': nat, k: nat | S.Live(v.slabs, f', k) && S.Live(v'.slabs, f', k) && Unused(v.regs, f', k) ensures ObjectKept(v, v', f', k) {
      assert ObjectKept(v, v, f', k);
    }
  }

  /** No gap takes a region of that size and a guard page. */
  ghost predicate NoRoom(regs: seq<Region>, size: nat) {
    forall j :: 1 <= j < |regs| ==> Gap(regs, j) < AlignUp(size) + 0x1000
  }

  lemma NoFit(regs: seq<Region>, size: nat)
    requires FirstFit(regs, AlignUp(size) + 0x1000, |regs|)
    ensures NoRoom(regs, size)
  {}

  /** Work inside the slab frames that keeps the mapping keeps pages and directly held frames. */
  lemma SlabWorkKept(v: View, v': View, r: nat, backing: map<nat, nat>, own: set<(nat, nat)>)
    requires TreeOk(v.ram, v.tree) && TreeOk(v'.ram, v.tree) && r in v.tree && Backed(v.ram, v.tree, r, v.pages, backing)
    requires v'.tree == v.tree && v'.pages == v.pages && v'.direct == v.direct
    requires SameMapping(v.ram, v'.ram, v.tree, r, backing) && ObjectsKept(v, v', own)
    requires forall g :: g in v.direct ==> g !in v'.slabs
    requires forall f :: 0 <= f < |v.ram| && f !in v'.slabs ==> |v'.ram| == |v.ram| && v'.ram[f] == v.ram[f]
    ensures Kept(v, v', r, own)
  {
    hide TreeOk, Leaf, ObjectsKept, EntryFrame;
    forall p | p in v.pages && p in v'.pages ensures PageKept(v, v', r, p) {
      var w := Leaf(v.ram, v.tree, r, p);
      assert EntryFrame(w) in backing;
    }
  }

  /** Slab objects as the allocator keeps them. */
  lemma LiveObjectsKept(v: View, v': View, own: set<(nat, nat)>, slabs: map<nat, S.Slab>)
    requires S.LiveKept(v.ram, slabs, v'.ram, v'.slabs) && (slabs == v.slabs || slabs == v'.slabs)
    requires forall f :: f in v.slabs && f in v'.slabs ==> v'.slabs[f].cls == v.slabs[f].cls && f < |v.ram|
    ensures ObjectsKept(v, v', own)
  {
    forall f: nat, k: nat | S.Live(v.slabs, f, k) && S.Live(v'.slabs, f, k) && Unused(v.regs, f, k) && (f, k) !in own
      ensures ObjectKept(v, v', f, k)
    {
      assert S.Live(slabs, f, k);
    }
  }

  lemma AllocKept(v: View, v': View, r: nat, backing: map<nat, nat>, f: nat, k: nat)
    requires TreeOk(v.ram, v.tree) && TreeOk(v'.ram, v.tree) && r in v.tree && Backed(v.ram, v.tree, r, v.pages, backing)
    requires v'.tree == v.tree && v'.pages == v.pages && v'.direct == v.direct
    requires S.Takes(v.slabs, v'.slabs, f, k) && S.LiveKept(v.ram, v.slabs, v'.ram, v'.slabs)
    requires SameMapping(v.ram, v'.ram, v.tree, r, backing)
    requires (forall g :: g in v.slabs ==> g < |v.ram|) && forall g :: g in v.direct ==> g !in v'.slabs
    ensures Kept(v, v', r, {})
  {
    hide TreeOk, Leaf, ObjectsKept, SameMapping, Backed;
    KeptOutside(v.ram, v.slabs, v'.ram, v'.slabs);
    LiveObjectsKept(v, v', {}, v.slabs);
    hide S.LiveKept, S.Takes, S.Live, Kept;
    SlabWorkKept(v, v', r, backing, {});
  }

  lemma FreeKept(v: View, v': View, r: nat, backing: map<nat, nat>, f: nat, k: nat)
    requires TreeOk(v.ram, v.tree) && TreeOk(v'.ram, v.tree) && r in v.tree && Backed(v.ram, v.tree, r, v.pages, backing)
    requires v'.tree == v.tree && v'.pages == v.pages && v'.direct == v.direct
    requires S.Takes(v'.slabs, v.slabs, f, k) && S.LiveKept(v.ram, v'.slabs, v'.ram, v'.slabs)
    requires SameMapping(v.ram, v'.ram, v.tree, r, backing)
    requires (forall g :: g in v.slabs ==> g < |v.ram|) && forall g :: g in v.direct ==> g !in v'.slabs
    ensures Kept(v, v', r, {})
  {
    hide TreeOk, Leaf, ObjectsKept, SameMapping, Backed;
    KeptOutside(v.ram, v'.slabs, v'.ram, v'.slabs);
    LiveObjectsKept(v, v', {}, v'.slabs);
    hide S.LiveKept, S.Takes, S.Live, Kept;
    SlabWorkKept(v, v', r, backing, {});
  }

  lemma StoreKept(v: View, v': View, r: nat, backing: map<nat, nat>, f: nat, k: nat, w: nat, x: nat)
    requires TreeOk(v.ram, v.tree) && TreeOk(v'.ram, v.tree) && r in v.tree && Backed(v.ram, v.tree, r, v.pages, backing)
    requires v'.tree == v.tree && v'.pages == v.pages && v'.direct == v.direct && v'.slabs == v.slabs
    requires f < |v.ram| && f in v.slabs && S.InObject(v.slabs[f].cls, k, w) && v'.ram == Put(v.ram, f, w, x)
    requires SameMapping(v.ram, v'.ram, v.tree, r, backing)
    requires (forall g :: g in v.slabs ==> g < |v.ram|) && forall g :: g in v.direct ==> g !in v'.slabs
    ensures Kept(v, v', r, {(f, k)})
  {
    hide TreeOk, Leaf, ObjectsKept, SameMapping, Backed, Kept;
    StoreObjectsKept(v, v', f, k, w, x);
    SlabWorkKept(v, v', r, backing, {(f, k)});
  }

  /** A new object that is filled in takes nothing from anyone. */
  lemma FilledKept(v0: View, v1: View, v2: View, v3: View, r: nat, f: nat, k: nat)
    requires Kept(v0, v1, r, {}) && Kept(v1, v2, r, {(f, k)}) && Kept(v2, v3, r, {(f, k)})
    requires v1.slabs == v2.slabs == v3.slabs && v0.regs == v1.regs == v2.regs
    requires v0.pages == v1.pages == v2.pages && v0.direct == v1.direct == v2.direct && !S.Live(v0.slabs, f, k)
    ensures Kept(v0, v3, r, {})
  {
    hide Kept, S.Live, Unused;
    KeptBut(v0, v1, r, {}, {(f, k)});
    KeptTrans(v0, v1, v2, r, {(f, k)});
    KeptTrans(v0, v2, v3, r, {(f, k)});
    KeptBut(v0, v3, r, {(f, k)}, {});
  }

  /** Linking a region node in changes its own words and those of another node. */
  lemma LinkedKept(v0: View, v1: View, v2: View, r: nat, a: (nat, nat), b: (nat, nat))
    requires Kept(v0, v1, r, {a}) && Kept(v1, v2, r, {b}) && !Unused(v0.regs, b.0, b.1)
    requires v0.slabs == v1.slabs && v0.regs == v1.regs && v0.pages == v1.pages && v0.direct == v1.direct
    ensures Kept(v0, v2, r, {a})
  {
    hide Kept, S.Live, Unused;
    KeptBut(v0, v1, r, {a}, {a, b});
    KeptBut(v1, v2, r, {b}, {a, b});
    KeptTrans(v0, v1, v2, r, {a, b});
    KeptBut(v0, v2, r, {a, b}, {a});
  }

  /** Filling a gap: a new node, linked in, and its pages. */
  lemma GapKept(v0: View, v1: View, v2: View, v3: View, r: nat, i: nat, node: Region)
    requires Kept(v0, v1, r, {}) && Kept(v1, v2, r, {(node.f, node.k)}) && Kept(v2, v3, r, {})
    requires v1.slabs == v2.slabs == v3.slabs && v0.regs == v1.regs && i <= |v1.regs| && v2.regs == Inserted(v1.regs, i, node)
    requires S.Takes(v0.slabs, v1.slabs, node.f, node.k) && !S.Live(v0.slabs, node.f, node.k)
    requires v0.pages == v1.pages == v2.pages && v0.direct == v1.direct == v2.direct
    ensures Kept(v0, v3, r, {})
  {
    var own := {(node.f, node.k)};
    TakesLive(v0.slabs, v1.slabs, node.f, node.k);
    hide Kept, S.Live, S.Takes;
    UnusedInserted(v1.regs, i, node);
    hide Unused, Inserted;
    KeptBut(v0, v1, r, {}, own);
    KeptBut(v2, v3, r, {}, own);
    KeptTrans(v0, v1, v2, r, own);
    KeptTrans(v0, v2, v3, r, own);
    KeptBut(v0, v3, r, own, {});
  }

  lemma UnusedInserted(regs: seq<Region>, i: nat, r: Region)
    requires i <= |regs|
    ensures forall f: nat, k: nat :: Unused(regs, f, k) && (f, k) != (r.f, r.k) ==> Unused(Inserted(regs, i, r), f, k)
  {}

  /** Releasing a region: its node is unlinked, its pages go, its node is freed. */
  lemma DropKept(v0: View, v1: View, v2: View, v3: View, r: nat, i: nat)
    requires Kept(v0, v1, r, {}) && Kept(v1, v2, r, {}) && Kept(v2, v3, r, {})
    requires v0.slabs == v1.slabs == v2.slabs && i < |v0.regs| && v1.regs == v2.regs == Removed(v0.regs, i)
    requires v0.pages == v1.pages && v2.pages == v3.pages && v0.direct == v1.direct == v2.direct
    ensures Kept(v0, v3, r, {})
  {
    UnusedRemoved(v0.regs, i);
    hide Kept, S.Live, Unused, Removed;
    KeptTrans(v1, v2, v3, r, {});
    KeptTrans(v0, v1, v3, r, {});
  }

  lemma UnusedRemoved(regs: seq<Region>, i: nat)
    requires i < |regs|
    ensures forall f: nat, k: nat :: Unused(regs, f, k) ==> Unused(Removed(regs, i), f, k)
  {}

  /** One store into an object. */
  lemma StoreObjectsKept(v: View, v': View, f: nat, k: nat, w: nat, x: nat)
    requires v'.slabs == v.slabs && f < |v.ram| && f in v.slabs && S.InObject(v.slabs[f].cls, k, w) && v'.ram == Put(v.ram, f, w, x)
    requires forall g :: g in v.slabs ==> g < |v.ram|
    ensures ObjectsKept(v, v', {(f, k)})
  {
    forall f': nat, k': nat | S.Live(v.slabs, f', k') && (f', k') !in {(f, k)} ensures ObjectKept(v, v', f', k') {
      if f' == f {
        assert k' != k;
        S.WordsApart(v.slabs[f].cls, k, k', w);
      }
    }
  }

  /** Frames of slabs and directly held frames are as they were. */
  ghost predicate Untouched(ram: seq<Page>, ram': seq<Page>, slabs: map<nat, S.Slab>, direct: set<nat>) {
    |ram'| == |ram| && forall g :: 0 <= g < |ram| && (g in slabs || g in direct) ==> ram'[g] == ram[g]
  }

  ghost predicate DataKept(ram: seq<Page>, ram': seq<Page>, backing: map<nat, nat>) {
    |ram'| == |ram| && forall g :: g in backing && g < |ram| ==> ram'[g] == ram[g]
  }

  lemma DataKeptTrans(ram: seq<Page>, ram1: seq<Page>, ram2: seq<Page>, backing1: map<nat, nat>, backing2: map<nat, nat>)
    requires DataKept(ram, ram1, backing1) && DataKept(ram1, ram2, backing2) && forall g :: g in backing2 ==> g in backing1
    ensures DataKept(ram, ram2, backing2)
  {}

  lemma AlwaysUntouched(ram: seq<Page>, slabs: map<nat, S.Slab>, direct: set<nat>)
    ensures Untouched(ram, ram, slabs, direct)
  {}

  lemma UntouchedSize(ram: seq<Page>, ram': seq<Page>, slabs: map<nat, S.Slab>, direct: set<nat>)
    requires Untouched(ram, ram', slabs, direct)
    ensures |ram'| == |ram|
  {}

  lemma AlwaysDataKept(ram: seq<Page>, backing: map<nat, nat>)
    ensures DataKept(ram, ram, backing)
  {}

  lemma UntouchedTrans(ram: seq<Page>, ram1: seq<Page>, ram2: seq<Page>, slabs: map<nat, S.Slab>, direct: set<nat>)
    requires Untouched(ram, ram1, slabs, direct) && Untouched(ram1, ram2, slabs, direct)
    ensures Untouched(ram, ram2, slabs, direct)
  {}

  lemma UntouchedObjects(v: View, v': View, own: set<(nat, nat)>)
    requires v'.slabs == v.slabs && v'.direct == v.direct && Untouched(v.ram, v'.ram, v.slabs, v.direct)
    requires forall g :: g in v.slabs ==> g < |v.ram|
    ensures ObjectsKept(v, v', own) && DirectKept(v, v')
  {
    forall f: nat, k: nat | S.Live(v.slabs, f, k) ensures ObjectKept(v, v', f, k) {}
  }

  /** Mapping fresh pages keeps the others. */
  lemma MoreBackedKept(v: View, v': View, r: nat, free: seq<nat>, backing: map<nat, nat>, backing': map<nat, nat>, lo: nat, n: nat, flags: nat)
    requires TreeOk(v.ram, v.tree) && TreeOk(v'.ram, v'.tree) && r in v.tree && r in v'.tree
    requires Backed(v.ram, v.tree, r, v.pages, backing) && forall p :: p in v.pages ==> !(lo <= p < lo + n)
    requires RangeBacked(v.ram, v.tree, free, backing, v'.ram, v'.tree, backing', r, lo, n, flags)
    requires v'.slabs == v.slabs && v'.direct == v.direct && Untouched(v.ram, v'.ram, v.slabs, v.direct)
    requires forall g :: g in v.slabs ==> g < |v.ram|
    ensures Kept(v, v', r, {})
  {
    hide TreeOk, Leaf, EntryFrame, Untouched;
    UntouchedObjects(v, v', {});
    forall p | p in v.pages && p in v'.pages ensures PageKept(v, v', r, p) {
      var w := Leaf(v.ram, v.tree, r, p);
      assert EntryFrame(w) in backing;
    }
  }

  /** Unmapping pages keeps the others. */
  lemma LessBackedKept(v: View, v': View, r: nat, backing': map<nat, nat>, lo: nat, n: nat)
    requires TreeOk(v.ram, v.tree) && TreeOk(v'.ram, v'.tree) && r in v.tree && v'.tree == v.tree
    requires Backed(v'.ram, v'.tree, r, v'.pages, backing') && forall p :: p in v'.pages ==> p < PAGES && !(lo <= p < lo + n)
    requires RangeReleased(v.ram, v'.ram, v.tree, r, lo, n) && forall g :: g in backing' && g < |v.ram| ==> v'.ram[g] == v.ram[g]
    requires v'.slabs == v.slabs && v'.direct == v.direct && Untouched(v.ram, v'.ram, v.slabs, v.direct)
    requires forall g :: g in v.slabs ==> g < |v.ram|
    ensures Kept(v, v', r, {})
  {
    hide TreeOk, Leaf, EntryFrame;
    UntouchedObjects(v, v', {});
    forall p | p in v.pages && p in v'.pages ensures PageKept(v, v', r, p) {
      var w := Leaf(v.ram, v.tree, r, p);
      assert Leaf(v'.ram, v'.tree, r, p) == w;
      assert EntryFrame(w) in backing';
    }
  }

  /** Nothing has happened to what clients see. */
  lemma KeptSame(v: View, v': View, r: nat)
    requires TreeOk(v.ram, v.tree) && r in v.tree && v'.ram == v.ram && v'.tree == v.tree && v'.slabs == v.slabs
    requires forall g :: g in v.slabs ==> g < |v.ram|
    requires forall p :: p in v.pages ==> EntryFrame(Leaf(v.ram, v.tree, r, p)) < |v.ram|
    ensures Kept(v, v', r, {})
  {
    hide TreeOk, Leaf, EntryFrame, S.InObject;
    forall f: nat, k: nat | S.Live(v.slabs, f, k) ensures ObjectKept(v, v', f, k) {}
  }

  /** After two allocations only what was live before, and the two new nodes, are live. */
  lemma TwoNodesLive(slabs0: map<nat, S.Slab>, slabs1: map<nat, S.Slab>, slabs2: map<nat, S.Slab>, a: Region, b: Region)
    requires S.Takes(slabs0, slabs1, a.f, a.k) && S.Takes(slabs1, slabs2, b.f, b.k)
    ensures forall f: nat, k: nat :: S.Live(slabs2, f, k) ==> S.Live(slabs0, f, k) || !Unused([a, b], f, k)
  {
    hide S.Live;
    assert [a, b][0] == a && [a, b][1] == b;
    forall f: nat, k: nat | S.Live(slabs2, f, k) ensures S.Live(slabs0, f, k) || !Unused([a, b], f, k) {
      if (f, k) == (b.f, b.k) {
        NodeUsed([a, b], 1);
      } else if (f, k) == (a.f, a.k) {
        NodeUsed([a, b], 0);
      }
    }
  }

  lemma NodeUsed(regs: seq<Region>, i: nat)
    requires i < |regs|
    ensures !Unused(regs, regs[i].f, regs[i].k)
  {}

  lemma NodeNotSelf(regs: seq<Region>, i: nat)
    requires i < |regs| && NodesDistinct(regs)
    ensures Unused(Removed(regs, i), regs[i].f, regs[i].k)
  {}

  lemma NodeInRange(r: Region)
    requires r.f < MAX_FRAMES && r.k < S.Count(REGION_CLASS)
    ensures NULL < NodeAddr(r) < U64_SIZE && NodeAddr(r) == S.ObjAddr(r.f, REGION_CLASS, r.k)
  {
    S.MaskFindsHeader(r.f, REGION_CLASS, r.k);
  }

  lemma RemovedDistinct(regs: seq<Region>, i: nat)
    requires i < |regs| && NodesDistinct(regs)
    ensures NodesDistinct(Removed(regs, i))
  {}

  lemma RemovePredecessor(regs: seq<Region>, i: nat)
    requires 1 <= i < |regs| && NodesDistinct(regs)
    ensures forall x :: 0 <= x < |regs| && x != i - 1 ==> (regs[i - 1].f, regs[i - 1].k) != (regs[x].f, regs[x].k)
  {}

  lemma RemovedAt(regs: seq<Region>, i: nat, j: nat)
    requires i < |regs| && j < |regs| - 1
    ensures |Removed(regs, i)| == |regs| - 1
    ensures Removed(regs, i)[j] == if j < i then regs[j] else regs[j + 1]
  {}

  lemma RemovedEntries(regs: seq<Region>, i: nat)
    requires i < |regs|
    ensures |Removed(regs, i)| == |regs| - 1
    ensures forall j :: 0 <= j < |regs| - 1 ==> Removed(regs, i)[j] == if j < i then regs[j] else regs[j + 1]
  {}

  class Kernel {
    const pmm: Allocator
    const heap: S.Heap
    /** `kernel_pagemap`: the frame of its PML4 and the first node of its region list */
    const pml4: nat
    var head: nat
    ghost var tree: Tree
    ghost var regs: seq<Region>
    /** The pages of the regions between the first and the last, and the frame behind each. */
    ghost var pages: set<nat>
    ghost var backing: map<nat, nat>
    /** Frames handed out by `pmm_alloc_singlep` directly, and all frames there are. */
    ghost var direct: set<nat>
    ghost const managed: set<nat>

    ghost predicate Core()
      reads this, heap, pmm, pmm.ram
    {
      && heap.pmm == pmm && heap.Valid()
      && TreeOk(pmm.Ram(), tree) && Root(tree, pml4)
      && Parts(managed, pmm.free, tree, heap.slabs, backing, direct)
      && ListOk(pmm.Ram(), heap.slabs, head, regs)
      && Backed(pmm.Ram(), tree, pml4, pages, backing)
    }

    ghost function Now(): View
      reads this, heap, pmm, pmm.ram
    {
      View(pmm.Ram(), tree, heap.slabs, regs, pages, direct)
    }

    ghost predicate Valid()
      reads this, heap, pmm, pmm.ram
    {
      Core() && Layout(regs) && forall p :: p in pages <==> InRegions(regs, p)
    }

    /** Boot: slabs, then an empty kernel PML4 (`pmm_init`'s tail and the start of `vmm_init`). */
    constructor (allocator: Allocator)
      requires allocator.Valid() && |allocator.free| >= S.CACHES + 1
      modifies allocator, allocator.ram
      ensures pmm == allocator && fresh(heap) && Core() && regs == [] && pages == {} && direct == {}
      ensures managed == Elems(old(allocator.free))
      ensures forall f: nat, k: nat :: !S.Live(heap.slabs, f, k)
      ensures forall p: nat :: Leaf(pmm.Ram(), tree, pml4, p) == 0
    {
      hide FreeList, S.HeapOk;
      ghost var all := allocator.free;
      pmm := allocator;
      managed := Elems(all);
      var h := new S.Heap(allocator);
      heap := h;
      ghost var ram0 := allocator.Ram();
      var ok, root := allocator.AllocFrame();
      assert ok && h.pmm == allocator;
      allocator.Zero(root);
      pml4 := root;
      head := NULL;
      tree := map[root := Node(4, 0, 0)];
      regs, pages, backing, direct := [], {}, map[], {};
      new;
      FirstRoot(ram0, pmm.Ram(), all, pmm.free, pml4, heap.slabs);
      S.HeapFrame(ram0, pmm.Ram(), heap.cache, heap.slabs, heap.chains);
    }

    /** `vmm_region_setup`: the direct map first, the kernel image last. The source relies on the
        last node's `next` being zero; it is stored here. */
    method SetupRegions(hhdmBytes: nat, kernelBase: nat, kernelBytes: nat) returns (ok: bool)
      requires Core() && regs == [] && pages == {}
      requires hhdmBytes > 0 && hhdmBytes % 4096 == 0 && HHDM + hhdmBytes <= kernelBase < U64_SIZE
      modifies this, heap, pmm, pmm.ram
      ensures ok ==> Valid() && |regs| == 2 && regs[0].length == hhdmBytes && regs[1].base == kernelBase
      ensures !ok ==> pmm.free == []
      ensures direct == old(direct)
      ensures ok ==> forall f: nat, k: nat :: S.Live(heap.slabs, f, k) ==> S.Live(old(heap.slabs), f, k) || !Unused(regs, f, k)
    {
      hide FreeList, S.HeapOk, TreeOk, Parts, Backed, S.Takes, S.Live, Leaf, SameMapping, Core, NodeAddr, ListOk, Kept, Unused;
      var first, second; ghost var a, b;
      ghost var slabs0 := heap.slabs;
      ok, first, a := NewNode(HHDM, hhdmBytes);
      if !ok { return; }
      ghost var slabs1 := heap.slabs;
      StartList(first, a);
      ok, second, b := NewNode(kernelBase, kernelBytes);
      if !ok { return; }
      TwoNodesLive(slabs0, slabs1, heap.slabs, a, b);
      AppendNode(first, second, a, b);
      assert forall p :: !InRegions(regs, p);
    }

    /** The end of `vmm_init`: the regions are set up with what the memory map comes to. */
    method InitRegions(entries: seq<MapEntry>, kernelBase: nat, kernelBytes: nat) returns (ok: bool)
      requires Core() && regs == [] && pages == {}
      requires HHDM + 4096 * CountedFrames(entries) <= kernelBase < U64_SIZE
      modifies this, heap, pmm, pmm.ram
      ensures ok ==> Valid() && |regs| == 2 && regs[0].length == 4096 * CountedFrames(entries) && regs[1].base == kernelBase
      ensures !ok ==> pmm.free == []
      ensures direct == old(direct)
      ensures ok ==> forall f: nat, k: nat :: S.Live(heap.slabs, f, k) ==> S.Live(old(heap.slabs), f, k) || !Unused(regs, f, k)
    {
      hide Core, Layout, InRegions, S.Live, Unused, CountedFrames;
      var bytes := CountDirectMap(entries);
      CountedSome(entries);
      ok := SetupRegions(bytes, kernelBase, kernelBytes);
    }

    /** `kernel_pagemap.head = node` */
    method StartList(addr: nat, ghost r: Region)
      requires Core() && regs == [] && addr == NodeAddr(r)
      requires S.Live(heap.slabs, r.f, r.k) && heap.slabs[r.f].cls == REGION_CLASS && r.f < |pmm.Ram()| && NodeWord(r) + 3 < 512
      requires pmm.Ram()[r.f][NodeWord(r)] == r.base && pmm.Ram()[r.f][NodeWord(r) + 1] == r.length
      modifies this`head, this`regs, pmm.ram
      ensures Core() && regs == [r] && head == addr
    {
      hide FreeList, S.HeapOk, TreeOk, Parts, Backed, S.Live, Leaf, SameMapping, Unused, NodeOk;
      ghost var ram := pmm.Ram();
      PutField(addr, 3, NULL, r.f, r.k, []);
      FilledNode(ram, heap.slabs, r, NULL);
      head := addr;
      regs := [r];
    }

    /** `node->next = kernel_region` */
    method AppendNode(first: nat, second: nat, ghost a: Region, ghost b: Region)
      requires Core() && regs == [a] && first == NodeAddr(a) && second == NodeAddr(b) && Unused(regs, b.f, b.k)
      requires S.Live(heap.slabs, b.f, b.k) && heap.slabs[b.f].cls == REGION_CLASS && b.f < |pmm.Ram()| && NodeWord(b) + 3 < 512
      requires pmm.Ram()[b.f][NodeWord(b)] == b.base && pmm.Ram()[b.f][NodeWord(b) + 1] == b.length
      modifies this`regs, pmm.ram
      ensures Core() && regs == [a, b]
    {
      hide FreeList, S.HeapOk, TreeOk, Parts, Backed, S.Live, Leaf, SameMapping, NodeOk;
      ghost var ram := pmm.Ram();
      NodeFields(ram, heap.cache, heap.slabs, heap.chains, b.f, b.k, 3);
      ListElsewhere(ram, heap.slabs, head, regs, b.f, b.k, NodeWord(b) + 3, NULL);
      FilledNode(ram, heap.slabs, b, NULL);
      PutField(second, 3, NULL, b.f, b.k, regs);
      ghost var ram1 := pmm.Ram();
      ListedNode(ram1, heap.slabs, head, regs, 0);
      NodeRelink(ram1, heap.slabs, a, NULL, second);
      NodeBounds(ram1, heap.slabs, a, NULL);
      assert regs[0] == a;
      NodeElsewhere(ram1, heap.slabs, b, NULL, a.f, a.k, NodeWord(a) + 3, second);
      PutField(first, 3, second, a.f, a.k, [a, b]);
    }

    lemma NodeFacts(i: nat)
      requires ListOk(pmm.Ram(), heap.slabs, head, regs) && i < |regs|
      ensures var a := NodeAddr(regs[i]);
              && a >= HHDM && FrameOf(a) == regs[i].f < pmm.ram.Length && S.WordOf(a) == NodeWord(regs[i]) && S.WordOf(a) + 3 < 512
              && pmm.ram[FrameOf(a)][S.WordOf(a)] == regs[i].base
              && pmm.ram[FrameOf(a)][S.WordOf(a) + 1] == regs[i].length
              && pmm.ram[FrameOf(a)][S.WordOf(a) + 3] == NodeLink(regs, i + 1)
    {
      hide NodeOk, NodesDistinct;
      assert NodeOk(pmm.Ram(), heap.slabs, regs[i], NodeLink(regs, i + 1));
      NodeBounds(pmm.Ram(), heap.slabs, regs[i], NodeLink(regs, i + 1));
    }

    /** The search of `vmm_region_alloc`: the first gap that fits `need` bytes. */
    method FindGap(need: nat) returns (found: bool, prev: nat, cur: nat, ghost i: nat)
      requires ListOk(pmm.Ram(), heap.slabs, head, regs) && |regs| >= 1
      ensures FirstFit(regs, need, i) && (found <==> i < |regs|)
      ensures found ==> prev == NodeAddr(regs[i - 1]) && cur == NodeAddr(regs[i])
    {
      hide ListOk, NodeAddr;
      cur, prev, i, found := head, NULL, 0, false;
      HeadFacts();
      while cur != NULL
        invariant i <= |regs| && cur == NodeLink(regs, i)
        invariant prev == if i == 0 then NULL else NodeAddr(regs[i - 1])
        invariant forall j :: 1 <= j < i ==> Gap(regs, j) < need
        decreases |regs| - i
      {
        NodeFacts(i);
        if prev == NULL {
          prev, cur := cur, pmm.ram[FrameOf(cur)][S.WordOf(cur) + 3];
        } else {
          NodeFacts(i - 1);
          if pmm.ram[FrameOf(cur)][S.WordOf(cur)]
             - (pmm.ram[FrameOf(prev)][S.WordOf(prev)] + pmm.ram[FrameOf(prev)][S.WordOf(prev) + 1]) >= need
          {
            found := true;
            return;
          }
          prev, cur := cur, pmm.ram[FrameOf(cur)][S.WordOf(cur) + 3];
        }
        i := i + 1;
      }
    }

    lemma HeadFacts()
      requires ListOk(pmm.Ram(), heap.slabs, head, regs)
      ensures head == NodeLink(regs, 0) && forall i :: 0 <= i < |regs| ==> NodeAddr(regs[i]) >= HHDM
    {
      forall i | 0 <= i < |regs| ensures NodeAddr(regs[i]) >= HHDM {
        NodeFacts(i);
      }
    }

    /** `kmalloc(size)` for a small size keeps the rest of the kernel's memory. */
    method SmallAlloc(size: nat) returns (ok: bool, addr: nat, ghost f: nat, ghost k: nat)
      requires Core() && size < 1024
      modifies heap, pmm, pmm.ram
      ensures Core() && SameMapping(old(pmm.Ram()), pmm.Ram(), tree, pml4, backing)
      ensures forall f :: f in pmm.free ==> f in old(pmm.free)
      ensures !ok ==> heap.slabs == old(heap.slabs) && pmm.free == []
      ensures Kept(old(Now()), Now(), pml4, {})
      ensures ok ==> f in heap.slabs && heap.slabs[f].cls < S.CACHES && addr == S.ObjAddr(f, heap.slabs[f].cls, k)
      ensures ok ==> size <= S.Size(heap.slabs[f].cls) && (heap.slabs[f].cls == 0 || S.Size(heap.slabs[f].cls) < 2 * size)
      ensures ok ==> !S.Live(old(heap.slabs), f, k) && S.Takes(old(heap.slabs), heap.slabs, f, k)
      ensures ok ==> S.LiveKept(old(pmm.Ram()), old(heap.slabs), pmm.Ram(), heap.slabs)
      ensures ok ==> Unused(regs, f, k)
    {
      hide FreeList, S.HeapOk, TreeOk, Parts, ListOk, Backed, S.Takes, S.Live, S.LiveKept, Leaf, Unused, SameMapping, Kept;
      ghost var v := Now();
      SlabFrames();
      ghost var ram, slabs, free := pmm.Ram(), heap.slabs, pmm.free;
      ok, addr, f, k := heap.SmallAlloc(size);
      if ok {
        TakesUnused(ram, slabs, head, regs, f, k);
        assert f !in slabs ==> f !in pmm.free;
        PartsAfterSlab(managed, free, tree, slabs, backing, direct, pmm.free, heap.slabs, f, k);
        TakesLive(slabs, heap.slabs, f, k);
        ListFrame(ram, slabs, pmm.Ram(), heap.slabs, head, regs);
        KeptOutside(ram, slabs, pmm.Ram(), heap.slabs);
      } else {
        ListSameSlabs(ram, pmm.Ram(), slabs, head, regs);
      }
      SlabWorkKeeps(ram, slabs, pmm.Ram(), heap.slabs, managed, pmm.free, tree, pml4, pages, backing, direct);
      PartsApart(managed, pmm.free, tree, heap.slabs, backing, direct);
      if ok {
        AllocKept(v, Now(), pml4, backing, f, k);
      } else {
        assert v == Now();
        NothingKept();
      }
    }

    lemma SlabFrames()
      requires heap.pmm == pmm && heap.Valid()
      ensures forall g :: g in heap.slabs ==> g < |pmm.Ram()|
    {
      forall g | g in heap.slabs ensures g < |pmm.Ram()| {
        hide S.SlabOk, S.ChainOk;
      }
    }

    lemma NothingKept()
      requires Core()
      ensures Kept(Now(), Now(), pml4, {})
    {
      hide TreeOk, Leaf, EntryFrame, Parts, ListOk, FreeList;
      SlabFrames();
      KeptSame(Now(), Now(), pml4);
    }

    /** Write field `j` of the node object `(f, k)`. */
    method PutField(addr: nat, j: nat, v: nat, ghost f: nat, ghost k: nat, ghost regs': seq<Region>)
      requires Core() && j < 4 && addr == S.ObjAddr(f, REGION_CLASS, k)
      requires S.Live(heap.slabs, f, k) && heap.slabs[f].cls == REGION_CLASS
      requires f < |pmm.Ram()| && S.ObjWord(REGION_CLASS, k) + j < 512
      requires ListOk(Put(pmm.Ram(), f, S.ObjWord(REGION_CLASS, k) + j, v), heap.slabs, head, regs')
      modifies this`regs, pmm.ram
      ensures Core() && regs == regs' && SameMapping(old(pmm.Ram()), pmm.Ram(), tree, pml4, backing)
      ensures Kept(old(Now()), Now(), pml4, {(f, k)})
      ensures pmm.Ram() == Put(old(pmm.Ram()), f, S.ObjWord(REGION_CLASS, k) + j, v)
    {
      hide FreeList, S.HeapOk, TreeOk, Parts, ListOk, Backed, S.Live, Leaf, SameMapping, Kept;
      ghost var ram, before := pmm.Ram(), Now();
      SlabFrames();
      PartsApart(managed, pmm.free, tree, heap.slabs, backing, direct);
      NodeFields(ram, heap.cache, heap.slabs, heap.chains, f, k, j);
      StoreInObject(ram, heap.cache, heap.slabs, heap.chains, f, k, S.ObjWord(REGION_CLASS, k) + j, v);
      pmm.Store(FrameOf(addr), S.WordOf(addr) + j, v);
      regs := regs';
      SlabWorkKeeps(ram, heap.slabs, pmm.Ram(), heap.slabs, managed, pmm.free, tree, pml4, pages, backing, direct);
      StoreKept(before, Now(), pml4, backing, f, k, S.ObjWord(REGION_CLASS, k) + j, v);
    }

    /** The start of `vmm_region_alloc`'s success branch: a node with base and length filled in. */
    method NewNode(base: nat, length: nat) returns (ok: bool, addr: nat, ghost r: Region)
      requires Core()
      modifies this`regs, heap, pmm, pmm.ram
      ensures Core() && regs == old(regs) && SameMapping(old(pmm.Ram()), pmm.Ram(), tree, pml4, backing)
      ensures forall f :: f in pmm.free ==> f in old(pmm.free)
      ensures !ok ==> pmm.free == []
      ensures Kept(old(Now()), Now(), pml4, {})
      ensures ok ==> r.base == base && r.length == length && addr == NodeAddr(r) && Unused(regs, r.f, r.k)
      ensures ok ==> S.Live(heap.slabs, r.f, r.k) && heap.slabs[r.f].cls == REGION_CLASS && r.f < |pmm.Ram()|
                     && NodeWord(r) + 3 < 512
                     && pmm.Ram()[r.f][NodeWord(r)] == base && pmm.Ram()[r.f][NodeWord(r) + 1] == length
      ensures ok ==> S.Takes(old(heap.slabs), heap.slabs, r.f, r.k) && !S.Live(old(heap.slabs), r.f, r.k)
    {
      hide FreeList, S.HeapOk, TreeOk, Parts, ListOk, Backed, S.Takes, S.Live, Leaf, SameMapping, Unused, S.LiveKept, Kept;
      ghost var ram, v0 := pmm.Ram(), Now();
      ghost var f, k;
      ok, addr, f, k := SmallAlloc(32);
      ghost var v1 := Now();
      r := Region(base, length, f, k);
      if ok {
        ClassOf32(heap.slabs[f].cls);
        TakesIt(old(heap.slabs), heap.slabs, f, k);
        NodeFields(pmm.Ram(), heap.cache, heap.slabs, heap.chains, f, k, 0);
        NodeFields(pmm.Ram(), heap.cache, heap.slabs, heap.chains, f, k, 1);
        NodeFields(pmm.Ram(), heap.cache, heap.slabs, heap.chains, f, k, 3);
        ghost var ram1 := pmm.Ram();
        ListElsewhere(pmm.Ram(), heap.slabs, head, regs, f, k, NodeWord(r), base);
        PutField(addr, 0, base, f, k, regs);
        SameMappingTrans(ram, ram1, pmm.Ram(), tree, pml4, backing);
        ghost var ram2, v2 := pmm.Ram(), Now();
        ListElsewhere(pmm.Ram(), heap.slabs, head, regs, f, k, NodeWord(r) + 1, length);
        PutField(addr, 1, length, f, k, regs);
        SameMappingTrans(ram, ram2, pmm.Ram(), tree, pml4, backing);
        FilledKept(v0, v1, v2, Now(), pml4, f, k);
      }
    }

    /** `prev->next = new; new->next = cur` */
    method LinkNode(addr: nat, prev: nat, cur: nat, ghost i: nat, ghost r: Region)
      requires Core() && 1 <= i < |regs| && prev == NodeAddr(regs[i - 1]) && cur == NodeAddr(regs[i])
      requires addr == NodeAddr(r) && Unused(regs, r.f, r.k)
      requires S.Live(heap.slabs, r.f, r.k) && heap.slabs[r.f].cls == REGION_CLASS && r.f < |pmm.Ram()| && NodeWord(r) + 3 < 512
      requires pmm.Ram()[r.f][NodeWord(r)] == r.base && pmm.Ram()[r.f][NodeWord(r) + 1] == r.length
      modifies this`regs, pmm.ram
      ensures Core() && regs == Inserted(old(regs), i, r)
      ensures SameMapping(old(pmm.Ram()), pmm.Ram(), tree, pml4, backing)
      ensures Kept(old(Now()), Now(), pml4, {(r.f, r.k)})
    {
      hide FreeList, S.HeapOk, TreeOk, Parts, ListOk, Backed, S.Live, Leaf, SameMapping, Unused, Inserted, NodeOk, Kept;
      ghost var ram, p, v0 := pmm.Ram(), regs[i - 1], Now();
      // the two stores hit different objects, so their order does not show
      NodeFields(ram, heap.cache, heap.slabs, heap.chains, r.f, r.k, 3);
      ListElsewhere(ram, heap.slabs, head, regs, r.f, r.k, NodeWord(r) + 3, cur);
      PutField(addr, 3, cur, r.f, r.k, regs);
      ghost var ram1, v1 := pmm.Ram(), Now();
      assert NodeOk(ram1, heap.slabs, r, cur) by { FilledNode(ram, heap.slabs, r, cur); }
      InsertNode(ram1, heap.slabs, head, regs, i, r);
      ListedNode(ram1, heap.slabs, head, regs, i - 1);
      PutField(prev, 3, addr, p.f, p.k, Inserted(regs, i, r));
      SameMappingTrans(ram, ram1, pmm.Ram(), tree, pml4, backing);
      NodeUsed(v0.regs, i - 1);
      LinkedKept(v0, v1, Now(), pml4, (r.f, r.k), (p.f, p.k));
    }

    lemma CoreTree()
      requires Core()
      ensures heap.pmm == pmm && pmm.Valid() && TreeOk(pmm.Ram(), tree) && Root(tree, pml4) && pmm.ram.Length <= MAX_FRAMES
    {}

    /** One turn of the page loop of `vmm_region_alloc`: a fresh zeroed frame for one page. */
    method BackPage(virt: U64, flags: nat) returns (ok: bool)
      requires Core() && GoodFlags(flags) && PageOf(virt) !in pages
      modifies this`tree, this`pages, this`backing, pmm, pmm.ram
      ensures ok ==> Core() && pages == old(pages) + {PageOf(virt)}
      ensures ok ==> old(pmm.free) != [] && old(pmm.free)[0] !in old(backing) && old(pmm.free)[0] < pmm.ram.Length
                     && backing == old(backing)[old(pmm.free)[0] := PageOf(virt)]
      ensures ok ==> BacksPage(old(pmm.Ram()), old(tree), pmm.Ram(), tree, pml4, PageOf(virt), old(pmm.free)[0], flags, old(backing))
      ensures ok ==> FramesKept(old(tree), old(pmm.free), tree, pmm.free + [old(pmm.free)[0]])
      ensures ok ==> Untouched(old(pmm.Ram()), pmm.Ram(), heap.slabs, direct)
      ensures !ok ==> pmm.free == []
    {
      hide FreeList, TreeOk, S.HeapOk, ListOk, Leaf, GoodFlags, PageOf, Backed, Parts, Sets, BacksPage, Untouched, Hung;
      ghost var ram, p := pmm.Ram(), PageOf(virt);
      TreeFrames(ram, tree, pml4);
      PartsApart(managed, pmm.free, tree, heap.slabs, backing, direct);
      var f;
      ok, f := pmm.AllocFrame();
      if !ok { return; }
      assert old(pmm.free)[0] == f;
      pmm.Zero(f);
      ghost var ram1, free1 := pmm.Ram(), pmm.free;
      BackedFrame(ram, ram1, tree, pml4, pages, backing);
      ghost var tree';
      ok, tree' := Map(pmm, pml4, virt, 4096 * f, flags, tree);
      if !ok { return; }
      PartsAfterMap(managed, f, free1, tree, heap.slabs, backing, direct, pmm.free, tree', p);
      Pieces(ram, f, free1, tree, pmm.Ram(), pmm.free, tree', p, flags);
      tree, pages, backing := tree', pages + {p}, backing[f := p];
    }

    /** The ghost half of `BackPage`. */
    lemma Pieces(ram: seq<Page>, f: nat, free1: seq<nat>, tree0: Tree, ram': seq<Page>, free': seq<nat>, tree': Tree, p: nat, flags: nat)
      requires S.HeapOk(ram, heap.cache, heap.slabs, heap.chains) && ListOk(ram, heap.slabs, head, regs)
      requires f < |ram| <= MAX_FRAMES && f > 0 && p < PAGES && GoodFlags(flags) && p !in pages
      requires TreeOk(ram, tree0) && pml4 in tree0 && Backed(ram, tree0, pml4, pages, backing)
      requires Sets(ram[f := ZeroPage()], tree0, ram', tree', pml4, p, Or(4096 * f, flags))
      requires Parts(managed, [f] + free1, tree0, heap.slabs, backing, direct)
      requires Parts(managed, free', tree', heap.slabs, backing[f := p], direct)
      ensures S.HeapOk(ram', heap.cache, heap.slabs, heap.chains) && ListOk(ram', heap.slabs, head, regs)
      ensures TreeOk(ram', tree') && Root(tree', pml4) && Backed(ram', tree', pml4, pages + {p}, backing[f := p])
      ensures BacksPage(ram, tree0, ram', tree', pml4, p, f, flags, backing)
      ensures f !in backing && forall g :: g in heap.slabs ==> g !in free'
      ensures Untouched(ram, ram', heap.slabs, direct)
    {
      hide TreeOk, S.HeapOk, ListOk, Leaf, GoodFlags, Backed, BacksPage;
      assert ([f] + free1)[0] == f;
      var ram1 := ram[f := ZeroPage()];
      BackedFrame(ram, ram1, tree0, pml4, pages, backing);
      EntryOfFrame(f, flags);
      BackedAfterMap(ram1, tree0, ram', tree', pml4, p, Or(4096 * f, flags), pages, backing);
      assert f in backing[f := p];
      SetsBacks(ram, ram1, tree0, ram', tree', pml4, p, f, flags, backing);
      S.HeapFrame(ram, ram', heap.cache, heap.slabs, heap.chains);
      ListSameSlabs(ram, ram', heap.slabs, head, regs);
    }

    /** The page loop of `vmm_region_alloc`. */
    method BackPages(base: nat, n: nat, flags: nat) returns (ok: bool)
      requires Core() && GoodFlags(flags)
      requires base >= HHDM && base % 4096 == 0 && base + n * 4096 <= U64_SIZE && PageOf(base) + n <= PAGES
      requires forall p :: p in pages ==> !(PageOf(base) <= p < PageOf(base) + n)
      modifies this`tree, this`pages, this`backing, pmm, pmm.ram
      ensures ok ==> Core() && pages == old(pages) + Range(PageOf(base), n)
      ensures ok ==> RangeBacked(old(pmm.Ram()), old(tree), old(pmm.free), old(backing),
                                 pmm.Ram(), tree, backing, pml4, PageOf(base), n, flags)
      ensures ok ==> Untouched(old(pmm.Ram()), pmm.Ram(), heap.slabs, direct)
      ensures !ok ==> pmm.free == []
    {
      hide Core, TreeOk, Leaf, GoodFlags, PageOf, RangeBacked, BacksPage, Untouched;
      ghost var ram0, tree0, free0, backing0, lo := pmm.Ram(), tree, pmm.free, backing, PageOf(base);
      CoreTree();
      RangeStart(ram0, tree0, free0, backing0, pml4, lo, flags);
      assert Untouched(ram0, ram0, heap.slabs, direct) by { AlwaysUntouched(ram0, heap.slabs, direct); }
      ok := true;
      for i := 0 to n
        invariant Core() && TreeOk(pmm.Ram(), tree) && Root(tree, pml4) && |pmm.Ram()| <= MAX_FRAMES
        invariant pages == old(pages) + Range(lo, i)
        invariant RangeBacked(ram0, tree0, free0, backing0, pmm.Ram(), tree, backing, pml4, lo, i, flags)
        invariant forall f :: f in pmm.free ==> f in free0
        invariant Untouched(ram0, pmm.Ram(), heap.slabs, direct)
      {
        var virt := base + i * 4096;
        PageRange(base, i, virt);
        ghost var ram1, tree1, backing1 := pmm.Ram(), tree, backing;
        ghost var free1 := pmm.free;
        ok := BackPage(virt, flags);
        if !ok { return; }
        CoreTree();
        UntouchedTrans(ram0, ram1, pmm.Ram(), heap.slabs, direct);
        RangeStep(ram0, tree0, free0, backing0, ram1, tree1, backing1, pmm.Ram(), tree, pml4, lo, i, flags, free1[0]);
        assert Range(lo, i + 1) == Range(lo, i) + {lo + i};
      }
    }

    /** `vmm_region_alloc`: a region at the start of the first gap with room for the rounded size and
        a guard page, backed by fresh zeroed frames. `!ok` is one of the halts: no gap, or no memory. */
    method RegionAlloc(size: U64, flags: nat) returns (ok: bool, base: nat, ghost i: nat)
      requires Valid() && GoodFlags(flags) && 0 < size <= MAX_REQUEST
      modifies this, heap, pmm, pmm.ram
      ensures FirstFit(old(regs), AlignUp(size) + 0x1000, i)
      ensures i == |old(regs)| ==> !ok && Valid() && Now() == old(Now()) && pmm.free == old(pmm.free)
      ensures !ok ==> i == |old(regs)| || pmm.free == []
      ensures ok ==> Kept(old(Now()), Now(), pml4, {})
      ensures ok ==> Valid() && 1 <= i < |old(regs)| && i < |regs| && regs == Inserted(old(regs), i, regs[i])
      ensures ok ==> base == old(regs)[i - 1].base + old(regs)[i - 1].length == regs[i].base && regs[i].length == AlignUp(size)
      ensures ok ==> RangeBacked(old(pmm.Ram()), old(tree), old(pmm.free), old(backing),
                                 pmm.Ram(), tree, backing, pml4, PageOf(base), AlignUp(size) / 4096, flags)
      ensures ok ==> S.Takes(old(heap.slabs), heap.slabs, regs[i].f, regs[i].k) && !S.Live(old(heap.slabs), regs[i].f, regs[i].k)
      ensures direct == old(direct)
      ensures ok ==> StaysClear(old(regs), regs, managed, i)
    {
      hide Core, Layout, InRegions, InRegion, RangeBacked, TreeOk, Leaf, SameMapping, PageOf, AlignUp, GoodFlags, NodeAddr, Inserted,
           ListOk, Parts, Backed, S.HeapOk, FreeList, AlignUpMask, S.Takes, S.Live, Unused, Kept, StaysClear;
      ghost var regs0, pages0 := regs, pages;
      AlignUpMaskIs(size);
      CoreList();
      var length := AlignUpMask(size);
      var found, prev, cur;
      found, prev, cur, i := FindGap(length + 0x1000);
      if !found {
        ok, base := false, NULL;
        return;
      }
      CoreList();
      NodeFacts(i - 1);
      base := pmm.ram[FrameOf(prev)][S.WordOf(prev)] + pmm.ram[FrameOf(prev)][S.WordOf(prev) + 1];
      ok := FillGap(prev, cur, base, length, flags, i, pages);
      if ok {
        CoreList();
        ApartFromFrames(regs0, regs, managed, i);
      }
    }

    /** The search of `vmm_region_dealloc`: the first node with this base. */
    method FindRegion(base: nat) returns (cur: nat, prev: nat, ghost i: nat)
      requires ListOk(pmm.Ram(), heap.slabs, head, regs)
      ensures i <= |regs| && cur == NodeLink(regs, i)
      ensures forall j :: 0 <= j < i ==> regs[j].base != base
      ensures i < |regs| ==> regs[i].base == base
      ensures prev == if i == 0 then NULL else NodeAddr(regs[i - 1])
    {
      hide ListOk, NodeAddr;
      cur, prev, i := head, NULL, 0;
      HeadFacts();
      while cur != NULL
        invariant i <= |regs| && cur == NodeLink(regs, i)
        invariant prev == if i == 0 then NULL else NodeAddr(regs[i - 1])
        invariant forall j :: 0 <= j < i ==> regs[j].base != base
        decreases |regs| - i
      {
        NodeFacts(i);
        if pmm.ram[FrameOf(cur)][S.WordOf(cur)] == base {
          return;
        }
        prev, cur, i := cur, pmm.ram[FrameOf(cur)][S.WordOf(cur) + 3], i + 1;
      }
    }

    /** `vmm_region_dealloc` for a region that is neither the first nor the last: the region leaves
        the list, its pages are unmapped, every frame behind it is freed once, and so is its node.
        `!found` is the halt for a base that no region has. */
    method RegionDealloc(base: nat) returns (found: bool, ghost i: nat)
      requires Valid()
      requires base != regs[0].base && base != regs[|regs| - 1].base
      modifies this, heap, pmm, pmm.ram
      ensures Valid() && tree == old(tree) && direct == old(direct)
      ensures !found ==> regs == old(regs) && pmm.Ram() == old(pmm.Ram()) && pmm.free == old(pmm.free)
                         && heap.slabs == old(heap.slabs)
                         && forall j :: 0 <= j < |regs| ==> regs[j].base != base
      ensures found ==> 1 <= i < |old(regs)| - 1 && old(regs)[i].base == base && regs == Removed(old(regs), i)
      ensures found ==> pmm.free == FramesBehind(old(pmm.Ram()), tree, pml4, PageOf(base), old(regs)[i].length / 4096) + old(pmm.free)
      ensures found ==> RangeReleased(old(pmm.Ram()), pmm.Ram(), tree, pml4, PageOf(base), old(regs)[i].length / 4096)
      ensures found ==> S.Takes(heap.slabs, old(heap.slabs), old(regs)[i].f, old(regs)[i].k)
                        && !S.Live(heap.slabs, old(regs)[i].f, old(regs)[i].k)
      ensures Kept(old(Now()), Now(), pml4, {})
    {
      hide Core, Layout, InRegions, InRegion, RangeReleased, TreeOk, Leaf, SameMapping, PageOf, NodeAddr, Removed, FramesBehind,
           ListOk, Parts, Backed, S.HeapOk, FreeList, S.Takes, S.Live, Unused, Kept;
      CoreList();
      var cur, prev;
      cur, prev, i := FindRegion(base);
      found := cur != NULL;
      HeadFacts();
      if found {
        DropRegion(cur, prev, i);
      } else {
        NothingKept();
      }
    }

    /** The success branch of `vmm_region_dealloc`. */
    method DropRegion(cur: nat, prev: nat, ghost i: nat)
      requires Valid() && 1 <= i < |regs| - 1 && cur == NodeAddr(regs[i]) && prev == NodeAddr(regs[i - 1])
      modifies this, heap, pmm, pmm.ram
      ensures Valid() && tree == old(tree) && direct == old(direct) && regs == Removed(old(regs), i)
      ensures pmm.free == FramesBehind(old(pmm.Ram()), tree, pml4, PageOf(old(regs)[i].base), old(regs)[i].length / 4096) + old(pmm.free)
      ensures RangeReleased(old(pmm.Ram()), pmm.Ram(), tree, pml4, PageOf(old(regs)[i].base), old(regs)[i].length / 4096)
      ensures S.Takes(heap.slabs, old(heap.slabs), old(regs)[i].f, old(regs)[i].k)
              && !S.Live(heap.slabs, old(regs)[i].f, old(regs)[i].k)
      ensures Kept(old(Now()), Now(), pml4, {})
    {
      hide Core, Layout, InRegions, InRegion, RangeReleased, TreeOk, Leaf, SameMapping, PageOf, NodeAddr, Removed, FramesBehind,
           ListOk, Parts, Backed, S.HeapOk, FreeList, S.Takes, S.Live, Unused, Kept, Untouched, DataKept;
      ghost var v0 := Now();
      ghost var ram, regs0, r, pages0, n := pmm.Ram(), regs, regs[i], pages, regs[i].length / 4096;
      ghost var backing0 := backing;
      CoreList();
      NodeFacts(i);
      NodeFacts(i - 1);
      RegionPages(regs0, pages0, i);
      RegionGone(regs0, pages0, i);
      ListedNode(ram, heap.slabs, head, regs, i);
      NodeNotSelf(regs, i);
      var length := pmm.ram[FrameOf(cur)][S.WordOf(cur) + 1];
      var base := pmm.ram[FrameOf(cur)][S.WordOf(cur)];
      // the source tests the next pointer here: it is not NULL because this is not the last region
      UnlinkNode(prev, pmm.ram[FrameOf(cur)][S.WordOf(cur) + 3], i);
      CoreAll();
      ghost var ram1, v1 := pmm.Ram(), Now();
      SameFramesBehind(ram, ram1, tree, pml4, PageOf(base), n, backing0);
      ReleasePages(base, length / 4096);
      CoreAll();
      ghost var ram2, backing2, v2 := pmm.Ram(), backing, Now();
      KeptByRelease(v1, v2, PageOf(base), n);
      NodeInRange(r);
      SmallFree(cur, r.f, r.k);
      CoreAll();
      ReleasedSince(ram, ram1, ram2, pmm.Ram(), tree, pml4, PageOf(base), n, backing0, backing2);
      DropKept(v0, v1, v2, Now(), pml4, i);
    }

    lemma KeptByRelease(v: View, v': View, lo: nat, n: nat)
      requires Core() && v' == Now() && v.tree == tree && v.slabs == heap.slabs && v.direct == direct
      requires TreeOk(v.ram, tree) && pages == v.pages - Range(lo, n)
      requires RangeReleased(v.ram, pmm.Ram(), tree, pml4, lo, n)
      requires Untouched(v.ram, pmm.Ram(), heap.slabs, direct) && DataKept(v.ram, pmm.Ram(), backing)
      ensures Kept(v, v', pml4, {})
    {
      hide TreeOk, Leaf, RangeReleased, Untouched, EntryFrame, FreeList, S.HeapOk, ListOk, Parts, Kept;
      SlabFrames();
      assert |v.ram| == |pmm.Ram()| by { UntouchedSize(v.ram, pmm.Ram(), heap.slabs, direct); }
      LessBackedKept(v, v', pml4, backing, lo, n);
    }

    /** `prev_prev_node->next = cur_node->next` */
    method UnlinkNode(prev: nat, next: nat, ghost i: nat)
      requires Core() && 1 <= i < |regs| - 1 && prev == NodeAddr(regs[i - 1]) && next == NodeLink(regs, i + 1)
      modifies this`regs, pmm.ram
      ensures Core() && regs == Removed(old(regs), i)
      ensures SameMapping(old(pmm.Ram()), pmm.Ram(), tree, pml4, backing)
      ensures Kept(old(Now()), Now(), pml4, {})
    {
      hide FreeList, S.HeapOk, TreeOk, Parts, ListOk, Backed, S.Live, Leaf, SameMapping, Removed, NodeOk, Kept, Unused;
      ghost var ram, p, v0 := pmm.Ram(), regs[i - 1], Now();
      RemoveNode(ram, heap.slabs, head, regs, i);
      ListedNode(ram, heap.slabs, head, regs, i - 1);
      PutField(prev, 3, next, p.f, p.k, Removed(regs, i));
      NodeUsed(v0.regs, i - 1);
      KeptBut(v0, Now(), pml4, {(p.f, p.k)}, {});
    }

    /** `free` of a live object that is not a node of the region list. */
    method SmallFree(addr: U64, ghost f: nat, ghost k: nat)
      requires Core() && S.Live(heap.slabs, f, k) && Unused(regs, f, k)
      requires addr != NULL && addr == S.ObjAddr(f, heap.slabs[f].cls, k)
      modifies heap, pmm.ram
      ensures Core() && SameMapping(old(pmm.Ram()), pmm.Ram(), tree, pml4, backing)
      ensures S.Takes(heap.slabs, old(heap.slabs), f, k) && !S.Live(heap.slabs, f, k)
      ensures S.LiveKept(old(pmm.Ram()), heap.slabs, pmm.Ram(), heap.slabs)
      ensures Kept(old(Now()), Now(), pml4, {})
    {
      hide FreeList, S.HeapOk, TreeOk, Parts, ListOk, Backed, Leaf, SameMapping, Unused, S.LiveKept, Kept;
      ghost var ram, slabs, v0 := pmm.Ram(), heap.slabs, Now();
      SlabFrames();
      heap.Free(addr, f, k);
      hide S.Takes, S.Live;
      PartsSameSlabs(managed, pmm.free, tree, slabs, backing, direct, heap.slabs);
      ListAfterFree(ram, slabs, heap.slabs, head, regs, f, k);
      ListFrame(ram, heap.slabs, pmm.Ram(), heap.slabs, head, regs);
      KeptOutside(ram, heap.slabs, pmm.Ram(), heap.slabs);
      SlabWorkKeeps(ram, heap.slabs, pmm.Ram(), heap.slabs, managed, pmm.free, tree, pml4, pages, backing, direct);
      PartsApart(managed, pmm.free, tree, heap.slabs, backing, direct);
      FreeKept(v0, Now(), pml4, backing, f, k);
    }

    // --- kmalloc, kfree and whole runs ---------------------------------------------------------

    lemma ObjectInRange(f: nat, k: nat)
      requires Core() && S.Live(heap.slabs, f, k)
      ensures NULL < S.ObjAddr(f, heap.slabs[f].cls, k) < U64_SIZE
    {
      S.SlabFacts(pmm.Ram(), heap.cache, heap.slabs, heap.chains, f);
      S.MaskFindsHeader(f, heap.slabs[f].cls, k);
    }

    /** `kmalloc`. Small requests get a slab object, larger ones a region of their own. It halts only
        when there is no free frame left or no gap for a region; nothing other clients hold changes. */
    method KMalloc(size: U64) returns (ok: bool, addr: nat, ghost f: nat, ghost k: nat, ghost i: nat)
      requires Valid() && size <= MAX_REQUEST
      modifies this, heap, pmm, pmm.ram
      ensures !ok ==> pmm.free == [] || (size >= 1024 && NoRoom(regs, size) && Valid() && Now() == old(Now()))
      ensures ok ==> Valid() && direct == old(direct) && Kept(old(Now()), Now(), pml4, {})
      ensures ok && size < 1024 ==>
                regs == old(regs) && f in heap.slabs && heap.slabs[f].cls < S.CACHES
                && addr == S.ObjAddr(f, heap.slabs[f].cls, k) && size <= S.Size(heap.slabs[f].cls)
                && Unused(regs, f, k)
      ensures ok && size >= 1024 ==>
                FirstFit(old(regs), AlignUp(size) + 0x1000, i) && 1 <= i < |old(regs)| && i < |regs|
                && regs == Inserted(old(regs), i, regs[i]) && regs[i].base == addr && regs[i].length == AlignUp(size)
                && regs[i].f == f && regs[i].k == k && addr == old(regs)[i - 1].base + old(regs)[i - 1].length
      ensures ok && size >= 1024 ==>
                RangeBacked(old(pmm.Ram()), old(tree), old(pmm.free), old(backing),
                            pmm.Ram(), tree, backing, pml4, PageOf(addr), AlignUp(size) / 4096, KERNEL_FLAGS)
      ensures ok ==> S.Takes(old(heap.slabs), heap.slabs, f, k) && !S.Live(old(heap.slabs), f, k)
      ensures ok ==> NULL < addr < U64_SIZE
    {
      hide Core, Layout, InRegions, RangeBacked, TreeOk, Leaf, SameMapping, PageOf, GoodFlags, NodeAddr, Inserted, ListOk,
           Parts, Backed, S.HeapOk, FreeList, AlignUpMask, S.Takes, S.Live, Unused, FirstFit, AlignUp, S.LiveKept, Kept;
      i := 0;
      if size < 1024 {
        ok, addr, f, k := SmallAlloc(size);
        if ok {
          TakesIt(old(heap.slabs), heap.slabs, f, k);
          ObjectInRange(f, k);
        }
      } else {
        AlignUpMaskIs(size);
        AlignUpTwice(size);
        KernelFlags();
        ok, addr, i := RegionAlloc(AlignUpMask(size), KERNEL_FLAGS);
        f, k := 0, 0;
        if ok {
          f, k := regs[i].f, regs[i].k;
          CoreList();
          RegionInRange(regs, i, old(regs));
        } else if i == |old(regs)| {
          NoFit(regs, size);
        }
      }
    }

    /** `kfree` of a live small object that is not a region node, or of the base of a region that is
        neither the first nor the last: that object, or that region with its node, its pages and the
        frames behind them, is free again, and nothing other clients hold changes. */
    method KFree(addr: U64, size: nat, ghost f: nat, ghost k: nat, ghost i: nat)
      requires Valid()
      requires addr != NULL && size < 1024 ==>
                 S.Live(heap.slabs, f, k) && Unused(regs, f, k) && addr == S.ObjAddr(f, heap.slabs[f].cls, k)
      requires addr != NULL && size >= 1024 ==>
                 0 < i < |regs| - 1 && regs[i].base == addr && (regs[i].f, regs[i].k) == (f, k)
      modifies this, heap, pmm, pmm.ram
      ensures Valid() && direct == old(direct) && Kept(old(Now()), Now(), pml4, {})
      ensures addr == NULL ==> Now() == old(Now()) && pmm.free == old(pmm.free)
      ensures addr != NULL ==> S.Takes(heap.slabs, old(heap.slabs), f, k) && !S.Live(heap.slabs, f, k)
      ensures addr != NULL && size < 1024 ==>
                regs == old(regs) && pages == old(pages) && tree == old(tree) && pmm.free == old(pmm.free)
      ensures addr != NULL && size >= 1024 ==>
                regs == Removed(old(regs), i) && tree == old(tree)
                && pmm.free == FramesBehind(old(pmm.Ram()), tree, pml4, PageOf(addr), old(regs)[i].length / 4096) + old(pmm.free)
                && RangeReleased(old(pmm.Ram()), pmm.Ram(), tree, pml4, PageOf(addr), old(regs)[i].length / 4096)
    {
      hide Core, InRegions, RangeReleased, TreeOk, Leaf, SameMapping, PageOf, NodeAddr, Removed, FramesBehind, ListOk,
           Parts, Backed, S.HeapOk, FreeList, S.Takes, S.Live, Unused, S.LiveKept, Kept;
      if addr == NULL {
        NothingKept();
      } else if size < 1024 {
        SmallFree(addr, f, k);
      } else {
        BasesDiffer(regs, i);
        var found; ghost var j;
        found, j := RegionDealloc(addr);
      }
    }

    /** `pmm_alloc_singlep` on behalf of the rest of the kernel. */
    method TakeFrame() returns (ok: bool, f: nat)
      requires Valid()
      modifies this`direct, pmm
      ensures Valid() && Kept(old(Now()), Now(), pml4, {})
      ensures !ok ==> direct == old(direct) && pmm.free == old(pmm.free) == []
      ensures ok ==> f !in old(direct) && direct == old(direct) + {f} && old(pmm.free) == [f] + pmm.free
      ensures ok ==> 0 < f < pmm.ram.Length
    {
      hide TreeOk, S.HeapOk, ListOk, Leaf, Backed, FreeList, Layout, InRegions, Kept;
      NothingKept();
      ghost var free, v := pmm.free, Now();
      ok, f := pmm.AllocFrame();
      if ok {
        PartsAfterTake(managed, f, pmm.free, tree, heap.slabs, backing, direct);
        direct := direct + {f};
        KeptMore(v, Now(), pml4);
      }
    }

    /** `pmm_free_singlep` of such a frame. */
    method GiveFrame(f: nat)
      requires Valid() && f in direct && 0 < f < pmm.ram.Length
      modifies this`direct, pmm, pmm.ram
      ensures Valid() && direct == old(direct) - {f} && pmm.free == [f] + old(pmm.free)
      ensures regs == old(regs) && heap.slabs == old(heap.slabs) && Kept(old(Now()), Now(), pml4, {})
    {
      hide TreeOk, S.HeapOk, ListOk, Leaf, Backed, FreeList, Layout, InRegions, Kept;
      ghost var ram, v := pmm.Ram(), Now();
      NothingKept();
      PartsAfterGive(managed, f, pmm.free, tree, heap.slabs, backing, direct);
      pmm.FreeFrame(f);
      direct := direct - {f};
      S.HeapFrame(ram, pmm.Ram(), heap.cache, heap.slabs, heap.chains);
      ListSameSlabs(ram, pmm.Ram(), heap.slabs, head, regs);
      BackedFrame(ram, pmm.Ram(), tree, pml4, pages, backing);
      GivenKept(v, Now(), pml4, f, backing);
    }

    /** A store by a client: into a slab object of its own, a frame behind a region, or a frame it holds. */
    method ClientStore(g: nat, x: nat, w: nat, ghost k: nat)
      requires Valid() && g < pmm.ram.Length && x < 512
      requires g in heap.slabs || g in backing || g in direct
      requires g in heap.slabs ==> S.Live(heap.slabs, g, k) && Unused(regs, g, k) && S.InObject(heap.slabs[g].cls, k, x)
      modifies pmm.ram
      ensures Valid() && pmm.Ram() == Put(old(pmm.Ram()), g, x, w)
      ensures TreeOk(pmm.Ram(), tree) && TreeOk(old(pmm.Ram()), tree)
      ensures forall t: nat, p: nat :: t in tree ==> Leaf(pmm.Ram(), tree, t, p) == Leaf(old(pmm.Ram()), tree, t, p)
    {
      hide TreeOk, S.HeapOk, ListOk, Leaf, Backed, FreeList, Layout, InRegions, S.Live, Unused, Parts;
      ghost var ram := pmm.Ram();
      PartsApart(managed, pmm.free, tree, heap.slabs, backing, direct);
      BackingApart(managed, pmm.free, tree, heap.slabs, backing, direct);
      if g in heap.slabs {
        StoreInObject(ram, heap.cache, heap.slabs, heap.chains, g, k, x, w);
        ListApart(ram, heap.slabs, head, regs, g, k, x, w);
      } else {
        S.HeapFrame(ram, Put(ram, g, x, w), heap.cache, heap.slabs, heap.chains);
        ListSameSlabs(ram, Put(ram, g, x, w), heap.slabs, head, regs);
      }
      BackedFrame(ram, Put(ram, g, x, w), tree, pml4, pages, backing);
      pmm.Store(g, x, w);
    }

    lemma CoreList()
      requires Valid()
      ensures Core() && Layout(regs) && |regs| >= 2 && ListOk(pmm.Ram(), heap.slabs, head, regs)
      ensures TreeOk(pmm.Ram(), tree) && Root(tree, pml4)
    {}

    lemma CoreAll()
      requires Core()
      ensures Backed(pmm.Ram(), tree, pml4, pages, backing) && forall g :: g in heap.slabs ==> g < |pmm.Ram()|
      ensures ListOk(pmm.Ram(), heap.slabs, head, regs)
      ensures TreeOk(pmm.Ram(), tree) && Root(tree, pml4) && |pmm.Ram()| <= MAX_FRAMES
    {}

    /** The success branch of `vmm_region_alloc`. */
    method FillGap(prev: nat, cur: nat, base: nat, length: nat, flags: nat, ghost i: nat, ghost pages0: set<nat>) returns (ok: bool)
      requires Valid() && GoodFlags(flags) && 1 <= i < |regs|
      requires prev == NodeAddr(regs[i - 1]) && cur == NodeAddr(regs[i])
      requires base == regs[i - 1].base + regs[i - 1].length && base + length + 0x1000 <= regs[i].base
      requires length > 0 && length % 4096 == 0
      modifies this, heap, pmm, pmm.ram
      ensures ok ==> Valid() && i < |regs| && regs == Inserted(old(regs), i, regs[i]) && regs[i].base == base && regs[i].length == length
      ensures ok ==> RangeBacked(old(pmm.Ram()), old(tree), old(pmm.free), old(backing),
                                 pmm.Ram(), tree, backing, pml4, PageOf(base), length / 4096, flags)
      ensures ok ==> S.Takes(old(heap.slabs), heap.slabs, regs[i].f, regs[i].k) && !S.Live(old(heap.slabs), regs[i].f, regs[i].k)
      ensures ok ==> Kept(old(Now()), Now(), pml4, {})
      ensures !ok ==> pmm.free == []
      ensures direct == old(direct)
    {
      hide Core, Layout, InRegions, InRegion, RangeBacked, TreeOk, Leaf, SameMapping, PageOf, GoodFlags, NodeAddr,
           ListOk, Parts, Backed, S.HeapOk, FreeList, S.Takes, S.Live, Unused, Kept, Untouched;
      ghost var ram, tree0, free0, backing0, regs0, v0 := pmm.Ram(), tree, pmm.free, backing, regs, Now();
      CoreList();
      var addr; ghost var r;
      ok, addr, r := NewNode(base, length);
      if !ok { return; }
      CoreAll();
      ghost var ram1, v1 := pmm.Ram(), Now();
      LinkNode(addr, prev, cur, i, r);
      CoreAll();
      ghost var ram2, free2, v2, backing2 := pmm.Ram(), pmm.free, Now(), backing;
      SameMappingTrans(ram, ram1, ram2, tree, pml4, backing);
      GapReady(regs0, pages, i, r);
      ok := BackPages(base, length / 4096, flags);
      if !ok { return; }
      CoreAll();
      BackedSince(ram, ram2, tree0, free0, free2, backing0, pmm.Ram(), tree, backing, pml4, PageOf(base), length / 4096, flags);
      GapFilled(regs0, old(pages), i, r);
      MoreBackedKept(v2, Now(), pml4, free2, backing2, backing, PageOf(base), length / 4096, flags);
      GapKept(v0, v1, v2, Now(), pml4, i, r);
    }

    /** One turn of the page loop of `vmm_region_dealloc`: unmap a page and free its frame. */
    method ReleasePage(virt: U64)
      requires Core() && PageOf(virt) in pages
      modifies this`pages, this`backing, pmm, pmm.ram
      ensures Core() && pages == old(pages) - {PageOf(virt)}
      ensures pmm.free == [EntryFrame(Leaf(old(pmm.Ram()), tree, pml4, PageOf(virt)))] + old(pmm.free)
      ensures RangeReleased(old(pmm.Ram()), pmm.Ram(), tree, pml4, PageOf(virt), 1)
      ensures Untouched(old(pmm.Ram()), pmm.Ram(), heap.slabs, direct) && DataKept(old(pmm.Ram()), pmm.Ram(), backing)
      ensures forall g :: g in backing ==> g in old(backing)
    {
      hide FreeList, TreeOk, S.HeapOk, ListOk, Leaf, PageOf, Backed, Parts, Sets, RangeReleased, Untouched, DataKept, Hung, And;
      ghost var ram, p := pmm.Ram(), PageOf(virt);
      PartsApart(managed, pmm.free, tree, heap.slabs, backing, direct);
      BackedRange(ram, tree, pml4, pages, backing, p);
      var entry := Unmap(pmm, pml4, virt, tree);
      FrameMask(entry);
      var f := And(entry, FRAME_MASK) / 4096;
      ghost var ram1 := pmm.Ram();
      BackedAfterUnmap(ram, tree, ram1, pml4, p, pages, backing);
      PartsAfterRelease(managed, f, pmm.free, tree, heap.slabs, backing, direct);
      SetsOutside(ram, tree, ram1, pml4, p);
      pmm.FreeFrame(f);
      assert pmm.free[0] == f;
      ReleasePieces(ram, ram1, pmm.Ram(), p, f, pmm.free);
      pages, backing := pages - {p}, backing - {f};
    }

    /** The ghost half of `ReleasePage`. */
    lemma ReleasePieces(ram: seq<Page>, ram1: seq<Page>, ram': seq<Page>, p: nat, f: nat, free': seq<nat>)
      requires S.HeapOk(ram, heap.cache, heap.slabs, heap.chains) && ListOk(ram, heap.slabs, head, regs)
      requires TreeOk(ram, tree) && TreeOk(ram1, tree) && pml4 in tree
      requires |ram1| == |ram| == |ram'| && f < |ram| && f !in tree && f !in heap.slabs && ram' == ram1[f := ram'[f]]
      requires f in free'
      requires forall g :: 0 <= g < |ram| && g !in tree ==> ram1[g] == ram[g]
      requires Parts(managed, free', tree, heap.slabs, backing - {f}, direct)
      requires Backed(ram1, tree, pml4, pages - {p}, backing - {f})
      requires RangeReleased(ram, ram1, tree, pml4, p, 1)
      ensures S.HeapOk(ram', heap.cache, heap.slabs, heap.chains) && ListOk(ram', heap.slabs, head, regs)
      ensures TreeOk(ram', tree) && Backed(ram', tree, pml4, pages - {p}, backing - {f})
      ensures RangeReleased(ram, ram', tree, pml4, p, 1)
      ensures forall g :: g in heap.slabs ==> g !in free'
      ensures Untouched(ram, ram', heap.slabs, direct) && DataKept(ram, ram', backing - {f})
    {
      hide TreeOk, S.HeapOk, ListOk, Leaf, Backed;
      BackedFrame(ram1, ram', tree, pml4, pages - {p}, backing - {f});
      S.HeapFrame(ram, ram', heap.cache, heap.slabs, heap.chains);
      ListSameSlabs(ram, ram', heap.slabs, head, regs);
    }

    /** The page loop of `vmm_region_dealloc`: every frame behind the region is freed once. */
    method ReleasePages(base: nat, n: nat)
      requires Core()
      requires base >= HHDM && base % 4096 == 0 && base + n * 4096 <= U64_SIZE && PageOf(base) + n <= PAGES
      requires Range(PageOf(base), n) <= pages
      modifies this`pages, this`backing, pmm, pmm.ram
      ensures Core() && pages == old(pages) - Range(PageOf(base), n)
      ensures pmm.free == FramesBehind(old(pmm.Ram()), tree, pml4, PageOf(base), n) + old(pmm.free)
      ensures RangeReleased(old(pmm.Ram()), pmm.Ram(), tree, pml4, PageOf(base), n)
      ensures Untouched(old(pmm.Ram()), pmm.Ram(), heap.slabs, direct) && DataKept(old(pmm.Ram()), pmm.Ram(), backing)
    {
      hide Core, TreeOk, Leaf, PageOf, RangeReleased, EntryFrame, Range, FramesBehind, Untouched, DataKept;
      ghost var ram0, lo, pages0 := pmm.Ram(), PageOf(base), pages;
      AlwaysUntouched(ram0, heap.slabs, direct);
      AlwaysDataKept(ram0, backing);
      CoreTree();
      NothingReleased(ram0, tree, pml4, lo);
      assert Range(lo, 0) == {} && FramesBehind(ram0, tree, pml4, lo, 0) == [] by { EmptyRange(ram0, tree, pml4, lo); }
      for i := 0 to n
        invariant Core() && TreeOk(pmm.Ram(), tree)
        invariant pages == pages0 - Range(lo, i) && Range(lo, n) <= pages0
        invariant pmm.free == FramesBehind(ram0, tree, pml4, lo, i) + old(pmm.free)
        invariant RangeReleased(ram0, pmm.Ram(), tree, pml4, lo, i)
        invariant Untouched(ram0, pmm.Ram(), heap.slabs, direct) && DataKept(ram0, pmm.Ram(), backing)
      {
        var virt := base + i * 4096;
        PageRange(base, i, virt);
        ghost var p := PageOf(virt);
        RangeGrow(pages0, lo, i, n, p);
        ghost var ram1, backing1 := pmm.Ram(), backing;
        ReleasePage(virt);
        CoreTree();
        UntouchedTrans(ram0, ram1, pmm.Ram(), heap.slabs, direct);
        DataKeptTrans(ram0, ram1, pmm.Ram(), backing1, backing);
        ReleaseStep(ram0, ram1, pmm.Ram(), tree, pml4, lo, i, p);
        FramesBehindStep(ram0, tree, pml4, lo, i, p, old(pmm.free));
      }
    }
  }

  lemma EmptyRange(ram: seq<Page>, tree: Tree, r: nat, lo: nat)
    requires TreeOk(ram, tree) && r in tree
    ensures Range(lo, 0) == {} && FramesBehind(ram, tree, r, lo, 0) == []
  {}

  lemma RangeGrow(pages0: set<nat>, lo: nat, i: nat, n: nat, p: nat)
    requires i < n && p == lo + i && Range(lo, n) <= pages0
    ensures p in pages0 - Range(lo, i)
    ensures (pages0 - Range(lo, i)) - {p} == pages0 - Range(lo, i + 1)
  {}

  lemma FramesBehindStep(ram: seq<Page>, tree: Tree, r: nat, lo: nat, i: nat, p: nat, tail: seq<nat>)
    requires TreeOk(ram, tree) && r in tree && p == lo + i
    ensures [EntryFrame(Leaf(ram, tree, r, p))] + (FramesBehind(ram, tree, r, lo, i) + tail)
            == FramesBehind(ram, tree, r, lo, i + 1) + tail
  {
    hide TreeOk, Leaf, EntryFrame;
  }

  ghost function Gap(regs: seq<Region>, i: nat): int
    requires 1 <= i < |regs|
  {
    regs[i].base - (regs[i - 1].base + regs[i - 1].length)
  }

  /** Gap `i` is the first one of at least `need` bytes; `i == |regs|` when there is none. */
  ghost predicate FirstFit(regs: seq<Region>, need: nat, i: nat) {
    && 1 <= i <= |regs|
    && (forall j :: 1 <= j < i && j < |regs| ==> Gap(regs, j) < need)
    && (i < |regs| ==> Gap(regs, i) >= need)
  }

  /** `align_up(n, 4096)` */
  function AlignUpMask(n: U64): nat {
    And((n + 0xFFF) % U64_SIZE, Not(0xFFF))
  }

  lemma AlignUpMaskIs(n: U64)
    requires n + 0xFFF < U64_SIZE
    ensures AlignUpMask(n) == AlignUp(n) && n <= AlignUp(n) < n + 4096
    ensures AlignUp(n) % 4096 == 0
  {
    QuotientIs(n + 0xFFF, U64_SIZE, 0, n + 0xFFF);
    PageMask(n + 0xFFF);
  }

  /** A slab allocation keeps everything else: a new slab's frame came off the free list. */
  lemma PartsAfterSlab(managed: set<nat>, free: seq<nat>, tree: Tree, slabs: map<nat, S.Slab>, backing: map<nat, nat>, direct: set<nat>,
                       free': seq<nat>, slabs': map<nat, S.Slab>, f: nat, k: nat)
    requires Parts(managed, free, tree, slabs, backing, direct) && S.Takes(slabs, slabs', f, k)
    requires if f in slabs then free' == free else free == [f] + free' && f !in free'
    ensures Parts(managed, free', tree, slabs', backing, direct)
  {
    assert f in slabs';
    if f !in slabs {
      assert ([f] + free')[0] == f;
      assert forall g :: g in [f] + free' <==> g == f || g in free';
    }
    assert forall g :: g in slabs' <==> g in slabs || g == f;
  }

  lemma TakesUnused(ram: seq<Page>, slabs: map<nat, S.Slab>, head: nat, regs: seq<Region>, f: nat, k: nat)
    requires ListOk(ram, slabs, head, regs) && !S.Live(slabs, f, k)
    ensures Unused(regs, f, k)
  {
    forall i | 0 <= i < |regs| ensures (regs[i].f, regs[i].k) != (f, k) {
      assert NodeOk(ram, slabs, regs[i], NodeLink(regs, i + 1));
    }
  }

  lemma TakesIt(slabs: map<nat, S.Slab>, slabs': map<nat, S.Slab>, f: nat, k: nat)
    requires S.Takes(slabs, slabs', f, k)
    ensures S.Live(slabs', f, k)
  {}

  lemma FilledNode(ram: seq<Page>, slabs: map<nat, S.Slab>, r: Region, next: nat)
    requires S.Live(slabs, r.f, r.k) && slabs[r.f].cls == REGION_CLASS && r.f < |ram| && NodeWord(r) + 3 < 512
    requires ram[r.f][NodeWord(r)] == r.base && ram[r.f][NodeWord(r) + 1] == r.length
    ensures NodeOk(Put(ram, r.f, NodeWord(r) + 3, next), slabs, r, next)
  {}

  lemma ListedNode(ram: seq<Page>, slabs: map<nat, S.Slab>, head: nat, regs: seq<Region>, i: nat)
    requires ListOk(ram, slabs, head, regs) && i < |regs|
    ensures S.Live(slabs, regs[i].f, regs[i].k) && slabs[regs[i].f].cls == REGION_CLASS
    ensures NodeOk(ram, slabs, regs[i], NodeLink(regs, i + 1))
  {}

  lemma TakesLive(slabs: map<nat, S.Slab>, slabs': map<nat, S.Slab>, f: nat, k: nat)
    requires S.Takes(slabs, slabs', f, k)
    ensures forall f': nat, k': nat :: S.Live(slabs, f', k') ==> S.Live(slabs', f', k') && slabs'[f'].cls == slabs[f'].cls
  {}

  /** The flat map and the data frames are as they were. */
  ghost predicate SameMapping(ram: seq<Page>, ram': seq<Page>, tree: Tree, r: nat, backing: map<nat, nat>)
    requires TreeOk(ram, tree) && TreeOk(ram', tree) && r in tree
  {
    && |ram'| == |ram|
    && (forall q: nat :: Leaf(ram', tree, r, q) == Leaf(ram, tree, r, q))
    && (forall g :: g in backing && g < |ram| ==> ram'[g] == ram[g])
  }

  /** What a store or an allocation inside the slab frames leaves alone. */
  lemma SlabWorkKeeps(ram: seq<Page>, slabs: map<nat, S.Slab>, ram': seq<Page>, slabs': map<nat, S.Slab>, managed: set<nat>, free': seq<nat>,
                      tree: Tree, r: nat, pages: set<nat>, backing: map<nat, nat>, direct: set<nat>)
    requires TreeOk(ram, tree) && r in tree && Backed(ram, tree, r, pages, backing)
    requires Parts(managed, free', tree, slabs', backing, direct)
    requires |ram'| == |ram| && forall f :: 0 <= f < |ram| && f !in slabs' ==> ram'[f] == ram[f]
    ensures TreeOk(ram', tree) && Backed(ram', tree, r, pages, backing)
    ensures SameMapping(ram, ram', tree, r, backing)
  {
    hide TreeOk, Leaf, Backed;
    BackedFrame(ram, ram', tree, r, pages, backing);
  }

  /** A store into an object that is not a listed node leaves the list as it is. */
  lemma ListElsewhere(ram: seq<Page>, slabs: map<nat, S.Slab>, head: nat, regs: seq<Region>, f: nat, k: nat, w: nat, v: nat)
    requires ListOk(ram, slabs, head, regs) && Unused(regs, f, k) && NodeField(slabs, f, k, w) && f < |ram|
    ensures ListOk(Put(ram, f, w, v), slabs, head, regs)
  {
    hide NodeOk, NodeLink;
    forall i | 0 <= i < |regs| ensures NodeOk(Put(ram, f, w, v), slabs, regs[i], NodeLink(regs, i + 1)) {
      NodeElsewhere(ram, slabs, regs[i], NodeLink(regs, i + 1), f, k, w, v);
    }
  }

  lemma NodeFields(ram: seq<Page>, cache: seq<S.Cache>, slabs: map<nat, S.Slab>, chains: seq<seq<nat>>, f: nat, k: nat, j: nat)
    requires S.HeapOk(ram, cache, slabs, chains) && S.Live(slabs, f, k) && slabs[f].cls == REGION_CLASS && j < 4
    ensures f in slabs && f < |ram| && NodeField(slabs, f, k, S.ObjWord(REGION_CLASS, k) + j)
    ensures FrameOf(S.ObjAddr(f, REGION_CLASS, k)) == f
    ensures S.WordOf(S.ObjAddr(f, REGION_CLASS, k)) == S.ObjWord(REGION_CLASS, k)
  {
    hide S.HeapOk, S.SlabOk, S.ObjAddr;
    S.SlabFacts(ram, cache, slabs, chains, f);
    S.ObjectsInside(REGION_CLASS, k);
    S.PointerParts(f, REGION_CLASS, k);
  }

  lemma SameMappingTrans(ram: seq<Page>, ram1: seq<Page>, ram2: seq<Page>, tree: Tree, r: nat, backing: map<nat, nat>)
    requires TreeOk(ram, tree) && TreeOk(ram1, tree) && TreeOk(ram2, tree) && r in tree
    requires SameMapping(ram, ram1, tree, r, backing) && SameMapping(ram1, ram2, tree, r, backing)
    ensures SameMapping(ram, ram2, tree, r, backing)
  {
    hide Leaf, TreeOk;
  }

  lemma KeptOutside(ram: seq<Page>, slabs: map<nat, S.Slab>, ram': seq<Page>, slabs': map<nat, S.Slab>)
    requires S.LiveKept(ram, slabs, ram', slabs')
    ensures |ram'| == |ram| && forall f :: 0 <= f < |ram| && f !in slabs' ==> ram'[f] == ram[f]
  {}

  lemma ClassOf32(c: nat)
    requires c < S.CACHES && 32 <= S.Size(c) && (c == 0 || S.Size(c) < 2 * 32)
    ensures c == REGION_CLASS
  {}

  /** Regions further down the list lie at higher addresses. */
  lemma {:induction false} LayoutOrdered(regs: seq<Region>, a: nat, b: nat)
    requires Layout(regs) && a < b < |regs|
    ensures regs[a].base + regs[a].length <= regs[b].base && regs[b].base >= HHDM && regs[b].base < U64_SIZE
    decreases b - a
  {
    if a + 1 < b {
      LayoutOrdered(regs, a + 1, b);
    }
    BelowLast(regs, b);
  }

  lemma {:induction false} BelowLast(regs: seq<Region>, b: nat)
    requires Layout(regs) && b < |regs|
    ensures regs[b].base <= regs[|regs| - 1].base
    decreases |regs| - b
  {
    if b < |regs| - 1 {
      BelowLast(regs, b + 1);
    }
  }

  lemma LayoutInserted(regs: seq<Region>, i: nat, r: Region)
    requires Layout(regs) && 1 <= i < |regs| && Aligned(r)
    requires r.base == regs[i - 1].base + regs[i - 1].length && r.base + r.length <= regs[i].base
    ensures Layout(Inserted(regs, i, r))
  {
    var s := Inserted(regs, i, r);
    forall j | 0 <= j < |s| - 1 ensures Aligned(s[j]) && s[j].base + s[j].length <= s[j + 1].base {
      assert s[j] == if j < i then regs[j] else if j == i then r else regs[j - 1];
      assert s[j + 1] == if j + 1 < i then regs[j + 1] else if j + 1 == i then r else regs[j];
    }
  }

  lemma LayoutRemoved(regs: seq<Region>, i: nat)
    requires Layout(regs) && 1 <= i < |regs| - 1
    ensures Layout(Removed(regs, i))
  {
    LayoutOrdered(regs, i - 1, i + 1);
  }

  /** The gap a region goes into holds no page of another region. */
  lemma GapIsFree(regs: seq<Region>, i: nat, r: Region, p: nat)
    requires Layout(regs) && 1 <= i < |regs| && Aligned(r)
    requires r.base == regs[i - 1].base + regs[i - 1].length && r.base + r.length <= regs[i].base
    ensures !(InRegions(regs, p) && InRegion(r, p))
    ensures PageOf(r.base) + r.length / 4096 <= PAGES && r.base + r.length <= U64_SIZE
  {
    hide PageOf, Layout, Aligned, InRegion;
    RegionBounds(regs, i, r);
    if InRegions(regs, p) && InRegion(r, p) {
      var j :| 0 < j < |regs| - 1 && InRegion(regs[j], p);
      OutsideGap(regs, i, r, j, p);
    }
  }

  lemma OutsideGap(regs: seq<Region>, i: nat, r: Region, j: nat, p: nat)
    requires Layout(regs) && 1 <= i < |regs| && Aligned(r) && 0 < j < |regs| - 1
    requires r.base == regs[i - 1].base + regs[i - 1].length && r.base + r.length <= regs[i].base
    ensures !(InRegion(regs[j], p) && InRegion(r, p))
  {
    hide PageOf;
    if j < i {
      if j < i - 1 { LayoutOrdered(regs, j, i - 1); }
      LayoutOrdered(regs, i - 1, i);
      PagesOrdered(regs[j], r.base);
    } else {
      if i < j { LayoutOrdered(regs, i, j); }
      LayoutOrdered(regs, j, |regs| - 1);
      PagesOrdered(r, regs[j].base);
    }
  }

  lemma RegionBounds(regs: seq<Region>, i: nat, r: Region)
    requires Layout(regs) && 1 <= i < |regs| && Aligned(r) && r.base + r.length <= regs[i].base
    ensures PageOf(r.base) + r.length / 4096 <= PAGES && r.base + r.length <= U64_SIZE
  {
    LayoutOrdered(regs, 0, i);
    KernelPage(r.base);
  }

  lemma PagesOrdered(r: Region, base: nat)
    requires Aligned(r) && r.base + r.length <= base < U64_SIZE
    ensures PageOf(r.base) + r.length / 4096 <= PageOf(base)
  {
    KernelPage(r.base);
    KernelPage(base);
  }

  lemma PagesInserted(regs: seq<Region>, i: nat, r: Region, p: nat)
    requires 1 <= i < |regs|
    ensures InRegions(Inserted(regs, i, r), p) <==> InRegions(regs, p) || InRegion(r, p)
  {
    var s := Inserted(regs, i, r);
    assert s[i] == r;
    forall j | 0 < j < |regs| - 1 ensures s[if j < i then j else j + 1] == regs[j] {}
    if InRegions(regs, p) {
      var j :| 0 < j < |regs| - 1 && InRegion(regs[j], p);
      assert InRegion(s[if j < i then j else j + 1], p);
    }
    if InRegions(s, p) && !InRegion(r, p) {
      var j :| 0 < j < |s| - 1 && InRegion(s[j], p);
      assert InRegion(regs[if j < i then j else j - 1], p);
    }
  }

  lemma PagesRemoved(regs: seq<Region>, i: nat, p: nat)
    requires Layout(regs) && 1 <= i < |regs| - 1
    ensures InRegions(Removed(regs, i), p) <==> InRegions(regs, p) && !InRegion(regs[i], p)
  {
    hide PageOf, Removed, InRegion, Layout;
    if InRegions(Removed(regs, i), p) {
      var j :| 0 < j < |Removed(regs, i)| - 1 && InRegion(Removed(regs, i)[j], p);
      var x := if j < i then j else j + 1;
      RemovedAt(regs, i, j);
      OtherRegion(regs, x, i, p);
    }
    if InRegions(regs, p) && !InRegion(regs[i], p) {
      var x :| 0 < x < |regs| - 1 && InRegion(regs[x], p);
      var j := if x < i then x else x - 1;
      RemovedAt(regs, i, j);
    }
  }

  lemma OtherRegion(regs: seq<Region>, a: nat, b: nat, p: nat)
    requires Layout(regs) && 0 < a < |regs| - 1 && 0 < b < |regs| - 1 && a != b
    ensures !(InRegion(regs[a], p) && InRegion(regs[b], p))
  {
    hide PageOf;
    var x, y := if a < b then a else b, if a < b then b else a;
    LayoutOrdered(regs, x, y);
    LayoutOrdered(regs, y, |regs| - 1);
    PagesOrdered(regs[x], regs[y].base);
  }

  /** Everything the page loop needs to know about the gap it fills. */
  lemma GapReady(regs: seq<Region>, pages: set<nat>, i: nat, r: Region)
    requires Layout(regs) && 1 <= i < |regs| && r.length > 0 && r.length % 4096 == 0
    requires r.base == regs[i - 1].base + regs[i - 1].length && r.base + r.length <= regs[i].base
    requires forall p :: p in pages <==> InRegions(regs, p)
    ensures Aligned(r)
    ensures PageOf(r.base) + r.length / 4096 <= PAGES && r.base + r.length / 4096 * 4096 <= U64_SIZE
    ensures forall p :: p in pages ==> !(PageOf(r.base) <= p < PageOf(r.base) + r.length / 4096)
  {
    assert Aligned(regs[i - 1]);
    forall p | p in pages ensures !InRegion(r, p) {
      GapIsFree(regs, i, r, p);
    }
    GapIsFree(regs, i, r, 0);
  }

  lemma GapFilled(regs: seq<Region>, pages: set<nat>, i: nat, r: Region)
    requires Layout(regs) && 1 <= i < |regs| && r.length > 0 && r.length % 4096 == 0
    requires r.base == regs[i - 1].base + regs[i - 1].length && r.base + r.length <= regs[i].base
    requires forall p :: p in pages <==> InRegions(regs, p)
    ensures Layout(Inserted(regs, i, r))
    ensures forall p :: p in pages + Range(PageOf(r.base), r.length / 4096) <==> InRegions(Inserted(regs, i, r), p)
  {
    assert Aligned(regs[i - 1]);
    LayoutInserted(regs, i, r);
    forall p: nat ensures p in pages + Range(PageOf(r.base), r.length / 4096) <==> InRegions(Inserted(regs, i, r), p) {
      PagesInserted(regs, i, r, p);
    }
  }

  lemma BackedSince(ram: seq<Page>, ram2: seq<Page>, tree0: Tree, free0: seq<nat>, free2: seq<nat>, backing0: map<nat, nat>,
                    ram': seq<Page>, tree': Tree, backing': map<nat, nat>, r: nat, lo: nat, n: nat, flags: nat)
    requires TreeOk(ram, tree0) && TreeOk(ram2, tree0) && TreeOk(ram', tree') && r in tree0 && r in tree'
    requires SameMapping(ram, ram2, tree0, r, backing0)
    requires forall f :: f in free2 ==> f in free0
    requires RangeBacked(ram2, tree0, free2, backing0, ram', tree', backing', r, lo, n, flags)
    ensures RangeBacked(ram, tree0, free0, backing0, ram', tree', backing', r, lo, n, flags)
  {
    hide TreeOk, Leaf, EntryFrame;
  }

  lemma PartsSameSlabs(managed: set<nat>, free: seq<nat>, tree: Tree, slabs: map<nat, S.Slab>, backing: map<nat, nat>, direct: set<nat>,
                       slabs': map<nat, S.Slab>)
    requires Parts(managed, free, tree, slabs, backing, direct) && forall f :: f in slabs' <==> f in slabs
    ensures Parts(managed, free, tree, slabs', backing, direct)
  {}

  lemma ListAfterFree(ram: seq<Page>, slabs: map<nat, S.Slab>, slabs': map<nat, S.Slab>, head: nat, regs: seq<Region>, f: nat, k: nat)
    requires ListOk(ram, slabs, head, regs) && Unused(regs, f, k) && S.Takes(slabs', slabs, f, k)
    ensures ListOk(ram, slabs', head, regs)
  {
    forall i | 0 <= i < |regs| ensures NodeOk(ram, slabs', regs[i], NodeLink(regs, i + 1)) {
      assert NodeOk(ram, slabs, regs[i], NodeLink(regs, i + 1));
      assert (regs[i].f, regs[i].k) != (f, k);
    }
  }

  /** The pages of a listed region, and what the page loop needs to know to release them. */
  lemma RegionPages(regs: seq<Region>, pages: set<nat>, i: nat)
    requires Layout(regs) && 1 <= i < |regs| - 1
    requires forall p :: p in pages <==> InRegions(regs, p)
    ensures Aligned(regs[i]) && Range(PageOf(regs[i].base), regs[i].length / 4096) <= pages
    ensures regs[i].base + regs[i].length / 4096 * 4096 <= U64_SIZE && PageOf(regs[i].base) + regs[i].length / 4096 <= PAGES
  {
    var r := regs[i];
    LayoutOrdered(regs, i, |regs| - 1);
    PagesOrdered(r, regs[|regs| - 1].base);
    hide PageOf;
    forall p: nat | PageOf(r.base) <= p < PageOf(r.base) + r.length / 4096 ensures p in pages {
      assert InRegion(regs[i], p);
    }
  }

  lemma RegionGone(regs: seq<Region>, pages: set<nat>, i: nat)
    requires Layout(regs) && 1 <= i < |regs| - 1
    requires forall p :: p in pages <==> InRegions(regs, p)
    ensures Layout(Removed(regs, i))
    ensures forall p :: p in pages - Range(PageOf(regs[i].base), regs[i].length / 4096) <==> InRegions(Removed(regs, i), p)
  {
    LayoutRemoved(regs, i);
    forall p: nat
      ensures p in pages - Range(PageOf(regs[i].base), regs[i].length / 4096) <==> InRegions(Removed(regs, i), p)
    {
      PagesRemoved(regs, i, p);
    }
  }

  lemma ReleasedSince(ram: seq<Page>, ram1: seq<Page>, ram2: seq<Page>, ram3: seq<Page>, tree: Tree, r: nat, lo: nat, n: nat,
                      backing1: map<nat, nat>, backing2: map<nat, nat>)
    requires TreeOk(ram, tree) && TreeOk(ram1, tree) && TreeOk(ram2, tree) && TreeOk(ram3, tree) && r in tree
    requires SameMapping(ram, ram1, tree, r, backing1) && SameMapping(ram2, ram3, tree, r, backing2)
    requires RangeReleased(ram1, ram2, tree, r, lo, n)
    ensures RangeReleased(ram, ram3, tree, r, lo, n)
  {
    hide TreeOk, Leaf;
  }

  lemma {:induction false} SameFramesBehind(ram: seq<Page>, ram1: seq<Page>, tree: Tree, r: nat, lo: nat, n: nat, backing: map<nat, nat>)
    requires TreeOk(ram, tree) && TreeOk(ram1, tree) && r in tree && SameMapping(ram, ram1, tree, r, backing)
    ensures FramesBehind(ram, tree, r, lo, n) == FramesBehind(ram1, tree, r, lo, n)
  {
    hide TreeOk, Leaf, EntryFrame;
    if n > 0 {
      SameFramesBehind(ram, ram1, tree, r, lo, n - 1, backing);
    }
  }

  lemma NothingReleased(ram: seq<Page>, tree: Tree, r: nat, lo: nat)
    requires TreeOk(ram, tree) && r in tree
    ensures RangeReleased(ram, ram, tree, r, lo, 0)
  {}

  lemma BackedRange(ram: seq<Page>, tree: Tree, r: nat, pages: set<nat>, backing: map<nat, nat>, p: nat)
    requires TreeOk(ram, tree) && r in tree && Backed(ram, tree, r, pages, backing) && p in pages
    ensures var f := EntryFrame(Leaf(ram, tree, r, p)); f in backing && 0 < f < |ram|
  {}

  lemma SetsOutside(ram: seq<Page>, tree: Tree, ram': seq<Page>, r: nat, p: nat)
    requires Sets(ram, tree, ram', tree, r, p, 0)
    ensures TreeOk(ram', tree) && |ram'| == |ram| && forall g :: 0 <= g < |ram| && g !in tree ==> ram'[g] == ram[g]
  {}
}
