/** Four-level page tables (kernel/src/vmm.c; Intel SDM Volume 3A, section 4.5), and the
    flat map from pages to leaf entries that they stand for. */
module Paging {
  import opened Bits
  import opened Collections
  import opened Pmm

  const PRESENT: nat := 1
  const TABLE_MASK: nat := 0x000F_FFFF_FFFF_F000
  const FRAME_MASK: nat := 0x0007_FFFF_FFFF_F000
  /** Number of 4 KiB pages of a 48-bit virtual address. */
  const PAGES: nat := 0x10_0000_0000

  ghost predicate Present(w: nat) { w % 2 == 1 }

  /** The frame a table entry points to. */
  ghost function Child(w: nat): nat { w / 4096 % 0x100_0000_0000 }

  /** The page a virtual address lies in: bits 12..47. */
  ghost function PageOf(virt: nat): (p: nat)
    ensures p < PAGES
  {
    virt / 4096 % 0x10_0000_0000
  }

  /** The index a level-`level` table is entered with on the way to page `p`. */
  ghost function Index(level: nat, p: nat): (i: nat)
    ensures i < 512
  {
    if level == 1 then p % 512
    else if level == 2 then p / 512 % 512
    else if level == 3 then p / 0x4_0000 % 512
    else p / 0x800_0000 % 512
  }

  /** Flags that leave the address bits of an entry alone and mark it present. */
  ghost predicate GoodFlags(flags: nat) {
    flags < U64_SIZE && flags / 4096 % 0x100_0000_0000 == 0 && Present(flags)
  }

  // --- The tree of tables ----------------------------------------------------------------------

  /** Where a table hangs: its level, and the table and slot that lead to it (roots: level 4). */
  datatype Node = Node(level: nat, parent: nat, slot: nat)
  type Tree = map<nat, Node>

  /** A present entry of table `t` leads to a table one level down that hangs in that very slot.
      Only the kernel half of the roots may be shared. */
  ghost predicate EntryOk(tree: Tree, t: nat, i: nat, w: nat)
    requires t in tree
  {
    Present(w) ==>
      var c := Child(w);
      && c in tree
      && tree[c].level + 1 == tree[t].level
      && tree[c].slot == i
      && (tree[c].parent == t || (tree[t].level == 4 && i >= 256))
  }

  ghost predicate TableOk(ram: seq<Page>, tree: Tree, t: nat)
    requires t in tree && t < |ram|
  {
    tree[t].level >= 2 ==> forall i :: 0 <= i < 512 ==> EntryOk(tree, t, i, ram[t][i])
  }

  ghost predicate TreeOk(ram: seq<Page>, tree: Tree) {
    && |ram| <= MAX_FRAMES
    && (forall t :: t in tree ==> 0 < t < |ram| && 1 <= tree[t].level <= 4)
    && (forall t :: t in tree ==> t < |ram| ==> TableOk(ram, tree, t))
  }

  /** The level-1 table that serves page `p` below table `t`, if there is one. */
  ghost function Reach(ram: seq<Page>, tree: Tree, t: nat, p: nat): (r: nat)
    requires TreeOk(ram, tree) && t in tree
    ensures r != 0 ==> r in tree && tree[r].level == 1
    decreases tree[t].level
  {
    if tree[t].level == 1 then t
    else
      var w := ram[t][Index(tree[t].level, p)];
      assert TableOk(ram, tree, t);
      assert EntryOk(tree, t, Index(tree[t].level, p), w);
      if Present(w) then Reach(ram, tree, Child(w), p) else 0
  }

  /** The flat map: the leaf entry of page `p`, 0 where there is none. */
  ghost function Leaf(ram: seq<Page>, tree: Tree, t: nat, p: nat): nat
    requires TreeOk(ram, tree) && t in tree
  {
    var c := Reach(ram, tree, t, p);
    if c == 0 then 0 else ram[c][Index(1, p)]
  }

  /** Two walks that end in the same level-1 table took the same slots all the way, and
      started at the same root unless they went through the shared kernel half. */
  lemma {:induction false} ReachInjective(ram: seq<Page>, tree: Tree, t: nat, p: nat, t': nat, p': nat)
    requires TreeOk(ram, tree) && t in tree && t' in tree && tree[t].level == tree[t'].level
    requires Reach(ram, tree, t, p) == Reach(ram, tree, t', p') != 0
    ensures tree[t].level >= 2 ==> Index(2, p) == Index(2, p')
    ensures tree[t].level >= 3 ==> Index(3, p) == Index(3, p')
    ensures tree[t].level >= 4 ==> Index(4, p) == Index(4, p')
    ensures t == t' || (tree[t].level == 4 && Index(4, p) >= 256)
    decreases tree[t].level
  {
    var l := tree[t].level;
    if l > 1 {
      assert TableOk(ram, tree, t) && TableOk(ram, tree, t');
      var w, w' := ram[t][Index(l, p)], ram[t'][Index(l, p')];
      assert EntryOk(tree, t, Index(l, p), w) && EntryOk(tree, t', Index(l, p'), w');
      ReachInjective(ram, tree, Child(w), p, Child(w'), p');
    }
  }

  lemma Quotients(p: nat)
    requires p < PAGES
    ensures p / 512 / 512 == p / 0x4_0000 && p / 0x4_0000 / 512 == p / 0x800_0000 < 512
  {}

  lemma Digits(p: nat)
    requires p < PAGES
    ensures p == Index(1, p) + 512 * (Index(2, p) + 512 * (Index(3, p) + 512 * Index(4, p)))
  {
    Quotients(p);
    var q, r := p / 512, p / 0x4_0000;
    assert p == 512 * q + Index(1, p);
    assert q == 512 * r + Index(2, p);
    assert r == 512 * (p / 0x800_0000) + Index(3, p);
  }

  /** The four indices determine the page. */
  lemma IndicesDeterminePage(p: nat, p': nat)
    requires p < PAGES && p' < PAGES
    requires Index(1, p) == Index(1, p') && Index(2, p) == Index(2, p')
    requires Index(3, p) == Index(3, p') && Index(4, p) == Index(4, p')
    ensures p == p'
  {
    hide Index;
    Digits(p);
    Digits(p');
  }

  /** Distinct pages of one root, and user pages of distinct roots, have distinct leaf slots. */
  lemma LeafSlotInjective(ram: seq<Page>, tree: Tree, r: nat, p: nat, r': nat, p': nat)
    requires TreeOk(ram, tree) && r in tree && r' in tree && tree[r].level == 4 == tree[r'].level
    requires p < PAGES && p' < PAGES
    requires Reach(ram, tree, r, p) == Reach(ram, tree, r', p') != 0 && Index(1, p) == Index(1, p')
    ensures p == p' && (r == r' || Index(4, p) >= 256)
  {
    ReachInjective(ram, tree, r, p, r', p');
    IndicesDeterminePage(p, p');
  }

  // --- Effect of the two kinds of store --------------------------------------------------------

  /** A store to a level-1 table moves no table... */
  lemma LeafStoreKeepsTree(ram: seq<Page>, tree: Tree, c: nat, i: nat, w: nat)
    requires TreeOk(ram, tree) && c in tree && tree[c].level == 1 && i < 512
    ensures TreeOk(ram[c := ram[c][i := w]], tree)
  {
    var ram' := ram[c := ram[c][i := w]];
    forall t | t in tree && t < |ram'| ensures TableOk(ram', tree, t) {
      assert TableOk(ram, tree, t);
    }
  }

  /** ... so every walk ends where it did... */
  lemma {:induction false} LeafStoreKeepsReach(ram: seq<Page>, tree: Tree, c: nat, i: nat, w: nat, t: nat, p: nat)
    requires TreeOk(ram, tree) && c in tree && tree[c].level == 1 && i < 512 && t in tree
    requires TreeOk(ram[c := ram[c][i := w]], tree)
    ensures Reach(ram[c := ram[c][i := w]], tree, t, p) == Reach(ram, tree, t, p)
    decreases tree[t].level
  {
    if tree[t].level > 1 {
      var e := ram[t][Index(tree[t].level, p)];
      assert TableOk(ram, tree, t) && EntryOk(tree, t, Index(tree[t].level, p), e);
      if Present(e) {
        LeafStoreKeepsReach(ram, tree, c, i, w, Child(e), p);
      }
    }
  }

  ghost function LeafStoreRam(ram: seq<Page>, tree: Tree, r: nat, p: nat, w: nat): (ram': seq<Page>)
    requires TreeOk(ram, tree) && r in tree && Reach(ram, tree, r, p) != 0
    ensures |ram'| == |ram|
  {
    var c := Reach(ram, tree, r, p);
    ram[c := ram[c][Index(1, p) := w]]
  }

  /** ... and the flat map changes exactly at the stored slot. */
  lemma LeafStore(ram: seq<Page>, tree: Tree, r: nat, p: nat, w: nat, r': nat, p': nat)
    requires TreeOk(ram, tree) && r in tree && r' in tree && tree[r].level == 4 == tree[r'].level
    requires p < PAGES && p' < PAGES && Reach(ram, tree, r, p) != 0
    ensures var ram' := LeafStoreRam(ram, tree, r, p, w);
            && TreeOk(ram', tree)
            && Leaf(ram', tree, r, p) == w
            && ((r', p') != (r, p) && (r' == r || p' != p || Index(4, p) < 256) ==>
                  Leaf(ram', tree, r', p') == Leaf(ram, tree, r', p'))
  {
    var c := Reach(ram, tree, r, p);
    LeafStoreKeepsTree(ram, tree, c, Index(1, p), w);
    LeafStoreKeepsReach(ram, tree, c, Index(1, p), w, r, p);
    LeafStoreKeepsReach(ram, tree, c, Index(1, p), w, r', p');
    if Reach(ram, tree, r', p') == c && Index(1, p) == Index(1, p') {
      LeafSlotInjective(ram, tree, r, p, r', p');
    }
  }

  /** Hanging a fresh zeroed table `n` into an absent slot keeps the tree. */
  lemma AddTableKeepsTree(ram: seq<Page>, tree: Tree, t: nat, i: nat, n: nat, e: nat)
    requires TreeOk(ram, tree) && t in tree && tree[t].level >= 2 && i < 512
    requires n !in tree && 0 < n < |ram| && !Present(ram[t][i])
    requires Present(e) && Child(e) == n
    ensures TreeOk(AddTableRam(ram, t, i, n, e), AddTableTree(tree, t, i, n))
  {
    var ram', tree' := AddTableRam(ram, t, i, n, e), AddTableTree(tree, t, i, n);
    forall u | u in tree' && u < |ram'| ensures TableOk(ram', tree', u) {
      if u != n {
        assert TableOk(ram, tree, u);
        forall j | 0 <= j < 512 && tree[u].level >= 2 ensures EntryOk(tree', u, j, ram'[u][j]) {
          assert EntryOk(tree, u, j, ram[u][j]);
        }
      }
    }
  }

  ghost function AddTableRam(ram: seq<Page>, t: nat, i: nat, n: nat, e: nat): (ram': seq<Page>)
    requires t < |ram| && n < |ram| && t != n && i < 512
    ensures |ram'| == |ram|
  {
    ram[n := ZeroPage()][t := ram[t][i := e]]
  }

  ghost function AddTableTree(tree: Tree, t: nat, i: nat, n: nat): Tree
    requires t in tree && tree[t].level >= 1
  {
    tree[n := Node(tree[t].level - 1, t, i)]
  }

  /** Below a table of absent entries every page is absent. */
  lemma ZeroTableLeaf(ram: seq<Page>, tree: Tree, n: nat, p: nat)
    requires TreeOk(ram, tree) && n in tree && ram[n] == ZeroPage()
    ensures Leaf(ram, tree, n, p) == 0
  {}

  /** ... and leaves the flat map as it was. */
  lemma {:induction false} AddTableKeepsLeaf(ram: seq<Page>, tree: Tree, t: nat, i: nat, n: nat, e: nat, u: nat, p: nat)
    requires TreeOk(ram, tree) && t in tree && tree[t].level >= 2 && i < 512
    requires n !in tree && 0 < n < |ram| && !Present(ram[t][i])
    requires Present(e) && Child(e) == n && u in tree
    requires TreeOk(AddTableRam(ram, t, i, n, e), AddTableTree(tree, t, i, n))
    ensures Leaf(AddTableRam(ram, t, i, n, e), AddTableTree(tree, t, i, n), u, p) == Leaf(ram, tree, u, p)
    decreases tree[u].level
  {
    var ram', tree' := AddTableRam(ram, t, i, n, e), AddTableTree(tree, t, i, n);
    if tree[u].level > 1 {
      var j := Index(tree[u].level, p);
      assert TableOk(ram, tree, u) && EntryOk(tree, u, j, ram[u][j]);
      if u == t && i == j {
        ZeroTableLeaf(ram', tree', n, p);
      } else if Present(ram[u][j]) {
        AddTableKeepsLeaf(ram, tree, t, i, n, e, Child(ram[u][j]), p);
      }
    }
  }

  // --- Access rights ---------------------------------------------------------------------------

  /** What an entry allows: writing (bit 1), user mode (bit 2), and fetching instructions unless bit 63 is
      set (Intel SDM Volume 3A, section 4.6). */
  datatype Rights = Rights(write: bool, user: bool, fetch: bool)

  const XD: nat := 0x8000_0000_0000_0000

  ghost function RightsOf(w: nat): Rights {
    Rights(w / 2 % 2 == 1, w / 4 % 2 == 1, w / XD % 2 == 0)
  }

  const NO_RIGHTS := Rights(false, false, false)
  const ALL_RIGHTS := Rights(true, true, true)

  function Both(a: Rights, b: Rights): Rights {
    Rights(a.write && b.write, a.user && b.user, a.fetch && b.fetch)
  }

  predicate Within(a: Rights, b: Rights) {
    (a.write ==> b.write) && (a.user ==> b.user) && (a.fetch ==> b.fetch)
  }

  /** The rights that the tables on the way to page `p` leave. */
  ghost function WayRights(ram: seq<Page>, tree: Tree, t: nat, p: nat): Rights
    requires TreeOk(ram, tree) && t in tree
    decreases tree[t].level
  {
    if tree[t].level == 1 then ALL_RIGHTS
    else
      var w := ram[t][Index(tree[t].level, p)];
      assert TableOk(ram, tree, t);
      assert EntryOk(tree, t, Index(tree[t].level, p), w);
      if Present(w) then Both(RightsOf(w), WayRights(ram, tree, Child(w), p)) else NO_RIGHTS
  }

  /** The rights of a page: what all four entries allow; none if it is not mapped. */
  ghost function PageRights(ram: seq<Page>, tree: Tree, r: nat, p: nat): Rights
    requires TreeOk(ram, tree) && r in tree
  {
    if Present(Leaf(ram, tree, r, p)) then Both(WayRights(ram, tree, r, p), RightsOf(Leaf(ram, tree, r, p))) else NO_RIGHTS
  }

  /** Every entry that is present on the way to page `p`, above its level-1 table, allows `a`. */
  ghost predicate WayAllows(ram: seq<Page>, tree: Tree, t: nat, p: nat, a: Rights)
    requires TreeOk(ram, tree) && t in tree
    decreases tree[t].level
  {
    if tree[t].level == 1 then true
    else
      var w := ram[t][Index(tree[t].level, p)];
      assert TableOk(ram, tree, t);
      assert EntryOk(tree, t, Index(tree[t].level, p), w);
      Present(w) ==> Within(a, RightsOf(w)) && WayAllows(ram, tree, Child(w), p, a)
  }

  /** Table entries that are present stay as they are, and those that become present lead to tables that
      are new and allow what `a` does. */
  ghost predicate Hung(ram: seq<Page>, tree: Tree, ram': seq<Page>, tree': Tree, a: Rights) {
    && |ram'| == |ram| && (forall t :: t in tree ==> t in tree' && tree'[t] == tree[t])
    && (forall t, i :: t in tree && t < |ram| && tree[t].level >= 2 && 0 <= i < 512 && Present(ram[t][i]) ==> ram'[t][i] == ram[t][i])
    && (forall t, i :: t in tree' && t < |ram| && tree'[t].level >= 2 && 0 <= i < 512 && Present(ram'[t][i]) ==>
          (t in tree && Present(ram[t][i])) || (RightsOf(ram'[t][i]) == a && Child(ram'[t][i]) !in tree))
  }

  lemma HungNothing(ram: seq<Page>, tree: Tree, a: Rights)
    ensures Hung(ram, tree, ram, tree, a)
  {}

  lemma HungTrans(ram: seq<Page>, tree: Tree, ram1: seq<Page>, tree1: Tree, ram2: seq<Page>, tree2: Tree, a: Rights)
    requires Hung(ram, tree, ram1, tree1, a) && Hung(ram1, tree1, ram2, tree2, a)
    ensures Hung(ram, tree, ram2, tree2, a)
  {
    hide RightsOf, Child, Present;
  }

  lemma HungTable(ram: seq<Page>, tree: Tree, t: nat, i: nat, n: nat, e: nat)
    requires t in tree && tree[t].level >= 2 && i < 512 && n !in tree && n < |ram| && t < |ram| && !Present(ram[t][i]) && Child(e) == n
    ensures Hung(ram, tree, AddTableRam(ram, t, i, n, e), AddTableTree(tree, t, i, n), RightsOf(e))
  {
    hide RightsOf, Child;
  }

  /** A store in a level-1 table hangs no table. */
  lemma HungStore(ram: seq<Page>, tree: Tree, ram1: seq<Page>, tree1: Tree, c: nat, i: nat, w: nat, a: Rights)
    requires Hung(ram, tree, ram1, tree1, a) && c in tree1 && tree1[c].level == 1 && c < |ram1| && i < 512
    ensures Hung(ram, tree, ram1[c := ram1[c][i := w]], tree1, a)
  {
    hide RightsOf, Child, Present;
  }

  /** Bit `k` of `x | y`. */
  lemma OrBitAt(x: nat, y: nat, k: nat, d: nat)
    requires d == Pow2(k)
    ensures d > 0 && (Or(x, y) / d % 2 == 1 <==> x / d % 2 == 1 || y / d % 2 == 1)
  {
    hide Or, Shr, Low, Pow2;
    OrSplit(x, y, k);
    ShiftIsDivision(x, k, d);
    ShiftIsDivision(y, k, d);
    ShiftIsDivision(Or(x, y), k, d);
    OrBit(x / d, y / d);
  }

  /** An address without flags of its own keeps those of the flags. */
  lemma FlagRights(x: nat, flags: nat)
    requires x % 4096 == 0 && x < XD
    ensures RightsOf(Or(x, flags)) == RightsOf(flags)
  {
    hide Or;
    assert Pow2(1) == 2 && Pow2(2) == 4;
    TopBit();
    OrBitAt(x, flags, 1, 2);
    OrBitAt(x, flags, 2, 4);
    OrBitAt(x, flags, 63, XD);
    assert x / 2 % 2 == 0 && x / 4 % 2 == 0;
  }

  lemma TopBit()
    ensures Pow2(63) == XD
  {
    Powers();
    PowSum(40, 12);
    PowSum(52, 11);
    assert Pow2(11) == 2048;
  }

  // --- The table walk --------------------------------------------------------------------------

  /** The table tree may only grow: no table moves, no present entry and no page outside the
      tables changes, and the flat map stays the same. */
  ghost predicate Extends(ram: seq<Page>, tree: Tree, ram': seq<Page>, tree': Tree) {
    && TreeOk(ram, tree) && TreeOk(ram', tree') && |ram'| == |ram|
    && (forall t :: t in tree ==> t in tree' && tree'[t] == tree[t])
    && (forall t, i :: t in tree && 0 <= i < 512 && Present(ram[t][i]) ==> ram'[t][i] == ram[t][i])
    && (forall f :: 0 <= f < |ram| && f !in tree' ==> ram'[f] == ram[f])
    && (forall t: nat, p: nat :: t in tree ==> Leaf(ram', tree', t, p) == Leaf(ram, tree, t, p))
  }

  lemma ExtendsTrans(ram: seq<Page>, tree: Tree, ram1: seq<Page>, tree1: Tree, ram2: seq<Page>, tree2: Tree)
    requires Extends(ram, tree, ram1, tree1) && Extends(ram1, tree1, ram2, tree2)
    ensures Extends(ram, tree, ram2, tree2)
  {
    forall t, p | t in tree ensures Leaf(ram2, tree2, t, p) == Leaf(ram, tree, t, p) {
      assert Leaf(ram1, tree1, t, p) == Leaf(ram, tree, t, p);
    }
  }

  lemma AddTableExtends(ram: seq<Page>, tree: Tree, t: nat, i: nat, n: nat, e: nat)
    requires TreeOk(ram, tree) && t in tree && tree[t].level >= 2 && i < 512
    requires n !in tree && 0 < n < |ram| && !Present(ram[t][i])
    requires Present(e) && Child(e) == n
    ensures Extends(ram, tree, AddTableRam(ram, t, i, n, e), AddTableTree(tree, t, i, n))
  {
    AddTableKeepsTree(ram, tree, t, i, n, e);
    var ram', tree' := AddTableRam(ram, t, i, n, e), AddTableTree(tree, t, i, n);
    forall u, p | u in tree ensures Leaf(ram', tree', u, p) == Leaf(ram, tree, u, p) {
      AddTableKeepsLeaf(ram, tree, t, i, n, e, u, p);
    }
  }

  /** The tables and the free frames are apart. */
  ghost predicate Apart(tree: Tree, free: seq<nat>) {
    forall f :: f in free ==> f !in tree
  }

  /** Frames only move from the free list to the tables. */
  ghost predicate FramesKept(tree: Tree, free: seq<nat>, tree': Tree, free': seq<nat>) {
    && (forall f :: f in tree || f in free <==> f in tree' || f in free')
    && (forall f :: f in free' ==> f in free)
  }

  lemma TreeFrames(ram: seq<Page>, tree: Tree, t: nat)
    requires TreeOk(ram, tree) && t in tree
    ensures |ram| <= MAX_FRAMES && 0 < t < |ram| && 1 <= tree[t].level <= 4
  {}

  lemma ExtendsRefl(ram: seq<Page>, tree: Tree)
    requires TreeOk(ram, tree)
    ensures Extends(ram, tree, ram, tree)
  {}

  /** The entry that points to frame `n` with the given flags. */
  lemma NewEntry(n: nat, flags: nat)
    requires n < MAX_FRAMES && GoodFlags(flags)
    ensures Present(Or(4096 * n, flags)) && Child(Or(4096 * n, flags)) == n && RightsOf(Or(4096 * n, flags)) == RightsOf(flags)
  {
    hide Or, RightsOf, Child, Present, GoodFlags;
    PointsTo(n, flags);
    FlagRights(4096 * n, flags);
  }

  lemma PointsTo(n: nat, flags: nat)
    requires n < MAX_FRAMES && GoodFlags(flags)
    ensures Present(Or(4096 * n, flags)) && Child(Or(4096 * n, flags)) == n
  {
    hide Or;
    var a := 4096 * n;
    assert a / 4096 == n && a % 2 == 0;
    QuotientIs(n, 0x100_0000_0000, 0, n);
    OrAddress(a, flags);
  }

  /** The absent case of `get_next_table`: allocate a frame, zero it, hang it into the slot. */
  method MakeTable(pmm: Allocator, t: nat, i: nat, flags: nat, ghost tree: Tree)
    returns (ok: bool, entry: nat, ghost tree': Tree)
    requires pmm.Valid() && TreeOk(pmm.Ram(), tree) && Apart(tree, pmm.free)
    requires t in tree && tree[t].level >= 2 && i < 512 && GoodFlags(flags) && !Present(pmm.Ram()[t][i])
    modifies pmm, pmm.ram
    ensures pmm.Valid() && Apart(tree', pmm.free)
    ensures Extends(old(pmm.Ram()), tree, pmm.Ram(), tree')
    ensures FramesKept(tree, old(pmm.free), tree', pmm.free)
    ensures !ok ==> tree' == tree && pmm.Ram() == old(pmm.Ram()) && pmm.free == old(pmm.free) == []
    ensures ok ==> pmm.Ram()[t][i] == entry && Leads(pmm.Ram(), tree', t, i, Child(entry))
    ensures Hung(old(pmm.Ram()), tree, pmm.Ram(), tree', RightsOf(flags))
  {
    hide Extends, TreeOk, FreeList, GoodFlags, Reach, Leaf, Hung, RightsOf, Or, Child, Present;
    ghost var ram := pmm.Ram();
    tree' := tree;
    TreeFrames(ram, tree, t);
    ExtendsRefl(ram, tree);
    HungNothing(ram, tree, RightsOf(flags));
    var n;
    ok, n := pmm.AllocFrame();
    if !ok {
      entry := 0;
      return;
    }
    pmm.Zero(n);
    entry := Or(4096 * n, flags);
    NewEntry(n, flags);
    pmm.Store(t, i, entry);
    assert pmm.Ram() == AddTableRam(ram, t, i, n, entry);
    AddTableExtends(ram, tree, t, i, n, entry);
    HungTable(ram, tree, t, i, n, entry);
    tree' := AddTableTree(tree, t, i, n);
  }

  /** `get_next_table`: follow the entry, making a zeroed table first where there is none. */
  method GetNextTable(pmm: Allocator, t: nat, i: nat, flags: nat, ghost tree: Tree)
    returns (ok: bool, next: nat, ghost tree': Tree)
    requires pmm.Valid() && TreeOk(pmm.Ram(), tree) && Apart(tree, pmm.free)
    requires t in tree && tree[t].level >= 2 && i < 512 && GoodFlags(flags)
    modifies pmm, pmm.ram
    ensures pmm.Valid() && Apart(tree', pmm.free)
    ensures Extends(old(pmm.Ram()), tree, pmm.Ram(), tree')
    ensures FramesKept(tree, old(pmm.free), tree', pmm.free)
    ensures !ok ==> tree' == tree && pmm.Ram() == old(pmm.Ram()) && pmm.free == old(pmm.free) == []
    ensures ok ==> next % 4096 == 0 && Leads(pmm.Ram(), tree', t, i, next / 4096)
    ensures Hung(old(pmm.Ram()), tree, pmm.Ram(), tree', RightsOf(flags))
  {
    hide Extends, FreeList, Reach, Leaf, GoodFlags, Hung, RightsOf;
    var w := pmm.ram[t][i];
    PresentMask(w);
    tree' := tree;
    if And(w, PRESENT) == 0 {
      ok, w, tree' := MakeTable(pmm, t, i, flags, tree);
    } else {
      ExtendsRefl(pmm.Ram(), tree);
      HungNothing(pmm.Ram(), tree, RightsOf(flags));
      assert TableOk(pmm.Ram(), tree, t) && EntryOk(tree, t, i, w);
      ok := true;
    }
    TableMask(w);
    next := And(w, TABLE_MASK);
  }

  lemma Splits(q: nat, d: nat, e: nat)
    requires d > 0 && e > 0
    ensures d * e > 0 && q % (d * e) / d == q / d % e
    ensures q % (d * e) % d == q % d
  {
    var m := d * e;
    var a, p := q / m, q % m;
    var b, c := p / d, p % d;
    Regroup(d, e, a, b);
    QuotientIs(q, d, e * a + b, c);
    QuotientIs(e * a + b, e, a, b);
  }

  lemma Regroup(d: nat, e: nat, a: nat, b: nat)
    ensures (d * e) * a + d * b == d * (e * a + b)
  {}

  /** The kernel's shifts and masks compute the indices of the page. */
  lemma WalkIndices(virt: nat)
    ensures And(Shr(virt, 39), 0x1FF) == Index(4, PageOf(virt))
    ensures And(Shr(virt, 30), 0x1FF) == Index(3, PageOf(virt))
    ensures And(Shr(virt, 21), 0x1FF) == Index(2, PageOf(virt))
    ensures And(Shr(virt, 12), 0x1FF) == Index(1, PageOf(virt))
  {
    OneIndex(virt, 39, 0x800_0000);
    OneIndex(virt, 30, 0x4_0000);
    OneIndex(virt, 21, 512);
    OneIndex(virt, 12, 1);
  }

  lemma OneIndex(virt: nat, k: nat, d: nat)
    requires (k, d) in {(39, 0x800_0000), (30, 0x4_0000), (21, 512), (12, 1)}
    ensures And(Shr(virt, k), 0x1FF) == PageOf(virt) / d % 512
  {
    var q := virt / 4096;
    IndexMask(Shr(virt, k));
    Powers();
    ShiftIsDivision(virt, 12, 4096);
    ShiftIsDivision(q, k - 12, d) by { assert Pow2(27) == 0x800_0000 && Pow2(18) == 0x4_0000; }
    ShrShr(virt, 12, k - 12);
    DropHigh(q, d);
  }

  lemma DropHigh(q: nat, d: nat)
    requires d in {0x800_0000, 0x4_0000, 512, 1}
    ensures q % PAGES / d % 512 == q / d % 512
  {
    var e := if d == 0x800_0000 then 512 else if d == 0x4_0000 then 0x4_0000 else if d == 512 then 0x800_0000 else PAGES;
    Splits(q, d, e);
    Splits(q / d, 512, e / 512);
  }

  // --- map, unmap, virt_to_phys ----------------------------------------------------------------

  ghost predicate Root(tree: Tree, r: nat) {
    r in tree && tree[r].level == 4
  }

  /** Going from `(ram, tree)` to `(ram', tree')` sets the leaf entry of page `p` under root `r`
      to `w` and no other: every other page of every root keeps its entry, and so does page `p`
      itself under the other roots when it lies in the user half. */
  ghost predicate Sets(ram: seq<Page>, tree: Tree, ram': seq<Page>, tree': Tree, r: nat, p: nat, w: nat) {
    && TreeOk(ram, tree) && TreeOk(ram', tree') && |ram'| == |ram| && Root(tree, r)
    && (forall t :: t in tree ==> t in tree' && tree'[t] == tree[t])
    && (forall f :: 0 <= f < |ram| && f !in tree' ==> ram'[f] == ram[f])
    && Leaf(ram', tree', r, p) == w
    && (forall r': nat, p': nat :: Root(tree, r') && p' < PAGES && (r' == r || p' != p || Index(4, p) < 256) && (r', p') != (r, p)
          ==> Leaf(ram', tree', r', p') == Leaf(ram, tree, r', p'))
  }

  lemma LeafStoreSets(ram: seq<Page>, tree: Tree, ram1: seq<Page>, tree1: Tree, r: nat, p: nat, w: nat)
    requires Extends(ram, tree, ram1, tree1) && Root(tree, r) && p < PAGES
    requires Reach(ram1, tree1, r, p) != 0
    ensures Sets(ram, tree, LeafStoreRam(ram1, tree1, r, p, w), tree1, r, p, w)
  {
    hide Leaf, Reach, Index, TableOk;
    var ram' := LeafStoreRam(ram1, tree1, r, p, w);
    LeafStore(ram1, tree1, r, p, w, r, p);
    forall r': nat, p': nat | Root(tree, r') && p' < PAGES && (r' == r || p' != p || Index(4, p) < 256) && (r', p') != (r, p)
      ensures Leaf(ram', tree1, r', p') == Leaf(ram, tree, r', p')
    {
      LeafStore(ram1, tree1, r, p, w, r', p');
    }
    LeafStoreOutside(ram1, tree1, r, p, w);
  }

  lemma LeafStoreOutside(ram: seq<Page>, tree: Tree, r: nat, p: nat, w: nat)
    requires TreeOk(ram, tree) && r in tree && Reach(ram, tree, r, p) != 0
    ensures forall f :: 0 <= f < |ram| && f !in tree ==> LeafStoreRam(ram, tree, r, p, w)[f] == ram[f]
  {}

  lemma ReachTable(ram: seq<Page>, tree: Tree, t: nat, p: nat)
    requires TreeOk(ram, tree) && t in tree && Reach(ram, tree, t, p) != 0
    ensures var c := Reach(ram, tree, t, p); c in tree && tree[c].level == 1 && 0 < c < |ram|
  {}

  /** `map`: walk down making tables as needed, then store `phys | flags` in the leaf slot.
      Running out of frames half-way may leave new empty tables but maps nothing. */
  method Map(pmm: Allocator, pml4: nat, virt: U64, phys: nat, flags: nat, ghost tree: Tree)
    returns (ok: bool, ghost tree': Tree)
    requires pmm.Valid() && TreeOk(pmm.Ram(), tree) && Apart(tree, pmm.free)
    requires Root(tree, pml4) && GoodFlags(flags)
    modifies pmm, pmm.ram
    ensures pmm.Valid() && Apart(tree', pmm.free)
    ensures FramesKept(tree, old(pmm.free), tree', pmm.free)
    ensures ok ==> Sets(old(pmm.Ram()), tree, pmm.Ram(), tree', pml4, PageOf(virt), Or(phys, flags))
    ensures !ok ==> Extends(old(pmm.Ram()), tree, pmm.Ram(), tree') && pmm.free == []
    ensures Hung(old(pmm.Ram()), tree, pmm.Ram(), tree', RightsOf(flags))
  {
    hide TreeOk, Extends, FreeList, Reach, Leaf, Index, GoodFlags, PageOf, Hung, RightsOf;
    ghost var p, ram := PageOf(virt), pmm.Ram();
    var t;
    ok, t, tree' := WalkDown(pmm, pml4, virt, flags, tree);
    if ok {
      WalkIndices(virt);
      var i := And(Shr(virt, 12), 0x1FF);
      ExtendsTree(ram, tree, pmm.Ram(), tree');
      ReachTable(pmm.Ram(), tree', pml4, p);
      LeafStoreSets(ram, tree, pmm.Ram(), tree', pml4, p, Or(phys, flags));
      HungStore(ram, tree, pmm.Ram(), tree', t / 4096, i, Or(phys, flags), RightsOf(flags));
      pmm.Store(t / 4096, i, Or(phys, flags));
    }
  }

  /** The level-1 table found by following one present entry. */
  ghost predicate Leads(ram: seq<Page>, tree: Tree, t: nat, i: nat, c: nat) {
    && t in tree && t < |ram| && i < 512 && tree[t].level >= 2 && Present(ram[t][i]) && Child(ram[t][i]) == c
    && c in tree && tree[c].level + 1 == tree[t].level
  }

  lemma KeptLead(ram: seq<Page>, tree: Tree, ram': seq<Page>, tree': Tree, t: nat, i: nat, c: nat)
    requires Extends(ram, tree, ram', tree') && Leads(ram, tree, t, i, c)
    ensures Leads(ram', tree', t, i, c)
  {}

  lemma ThreeLeads(ram: seq<Page>, tree: Tree, r: nat, t3: nat, t2: nat, t1: nat, p: nat)
    requires TreeOk(ram, tree) && Root(tree, r)
    requires Leads(ram, tree, r, Index(4, p), t3) && Leads(ram, tree, t3, Index(3, p), t2)
    requires Leads(ram, tree, t2, Index(2, p), t1)
    ensures Reach(ram, tree, r, p) == t1 != 0
  {
    assert Reach(ram, tree, t1, p) == t1;
    assert Reach(ram, tree, t2, p) == t1;
    assert Reach(ram, tree, t3, p) == t1;
  }

  lemma ExtendsTree(ram: seq<Page>, tree: Tree, ram': seq<Page>, tree': Tree)
    requires Extends(ram, tree, ram', tree')
    ensures TreeOk(ram', tree') && forall r :: Root(tree, r) ==> Root(tree', r)
  {}

  /** The three `get_next_table` calls of `map`. */
  method WalkDown(pmm: Allocator, pml4: nat, virt: U64, flags: nat, ghost tree: Tree)
    returns (ok: bool, table: nat, ghost tree': Tree)
    requires pmm.Valid() && TreeOk(pmm.Ram(), tree) && Apart(tree, pmm.free)
    requires Root(tree, pml4) && GoodFlags(flags)
    modifies pmm, pmm.ram
    ensures pmm.Valid() && Apart(tree', pmm.free)
    ensures FramesKept(tree, old(pmm.free), tree', pmm.free)
    ensures Extends(old(pmm.Ram()), tree, pmm.Ram(), tree')
    ensures ok ==> table == 4096 * Reach(pmm.Ram(), tree', pml4, PageOf(virt)) != 0
    ensures !ok ==> pmm.free == []
    ensures Hung(old(pmm.Ram()), tree, pmm.Ram(), tree', RightsOf(flags))
  {
    hide TreeOk, Extends, FreeList, Reach, Leaf, Index, GoodFlags, PageOf, Hung, RightsOf;
    ghost var p, ram := PageOf(virt), pmm.Ram();
    WalkIndices(virt);
    ok, table, tree' := GetNextTable(pmm, pml4, And(Shr(virt, 39), 0x1FF), flags, tree);
    if !ok { return; }
    ghost var ram3, tree3, t3 := pmm.Ram(), tree', table / 4096;
    ExtendsTree(ram, tree, ram3, tree3);
    ok, table, tree' := GetNextTable(pmm, table / 4096, And(Shr(virt, 30), 0x1FF), flags, tree3);
    ExtendsTrans(ram, tree, ram3, tree3, pmm.Ram(), tree');
    HungTrans(ram, tree, ram3, tree3, pmm.Ram(), tree', RightsOf(flags));
    KeptLead(ram3, tree3, pmm.Ram(), tree', pml4, Index(4, p), t3);
    if !ok { return; }
    ghost var ram2, tree2, t2 := pmm.Ram(), tree', table / 4096;
    ExtendsTree(ram, tree, ram2, tree2);
    ok, table, tree' := GetNextTable(pmm, table / 4096, And(Shr(virt, 21), 0x1FF), flags, tree2);
    ExtendsTrans(ram, tree, ram2, tree2, pmm.Ram(), tree');
    HungTrans(ram, tree, ram2, tree2, pmm.Ram(), tree', RightsOf(flags));
    KeptLead(ram2, tree2, pmm.Ram(), tree', pml4, Index(4, p), t3);
    KeptLead(ram2, tree2, pmm.Ram(), tree', t3, Index(3, p), t2);
    if !ok { return; }
    ExtendsTree(ram, tree, pmm.Ram(), tree');
    ThreeLeads(pmm.Ram(), tree', pml4, t3, t2, table / 4096, p);
  }

  /** `get_next_table_unmap`: follow a present entry, NULL otherwise. */
  method GetNextTableUnmap(pmm: Allocator, t: nat, i: nat, ghost tree: Tree) returns (next: nat)
    requires TreeOk(pmm.Ram(), tree) && t in tree && tree[t].level >= 2 && i < 512
    ensures next % 4096 == 0
    ensures next == 0 <==> !Present(pmm.Ram()[t][i])
    ensures next != 0 ==> Leads(pmm.Ram(), tree, t, i, next / 4096)
  {
    var w := pmm.ram[t][i];
    PresentMask(w);
    if And(w, PRESENT) == 1 {
      assert TableOk(pmm.Ram(), tree, t) && EntryOk(tree, t, i, w);
      TableMask(w);
      next := And(w, TABLE_MASK);
    } else {
      next := NULL;
    }
  }

  lemma ReachAbsent(ram: seq<Page>, tree: Tree, t: nat, p: nat)
    requires TreeOk(ram, tree) && t in tree && tree[t].level >= 2
    requires !Present(ram[t][Index(tree[t].level, p)])
    ensures Reach(ram, tree, t, p) == 0
  {}

  lemma ReachLead(ram: seq<Page>, tree: Tree, t: nat, p: nat, c: nat)
    requires TreeOk(ram, tree) && t in tree && Leads(ram, tree, t, Index(tree[t].level, p), c)
    ensures Reach(ram, tree, t, p) == Reach(ram, tree, c, p)
    ensures tree[c].level == 1 ==> Reach(ram, tree, t, p) == c
  {}

  /** The walk of `virt_to_phys` and `unmap`: the level-1 table of the page, or NULL. */
  method FindLeafTable(pmm: Allocator, pml4: nat, virt: U64, ghost tree: Tree) returns (table: nat)
    requires TreeOk(pmm.Ram(), tree) && Root(tree, pml4)
    ensures table == 4096 * Reach(pmm.Ram(), tree, pml4, PageOf(virt))
  {
    hide TreeOk, Reach, Index, PageOf;
    ghost var p, ram := PageOf(virt), pmm.Ram();
    WalkIndices(virt);
    table := GetNextTableUnmap(pmm, pml4, And(Shr(virt, 39), 0x1FF), tree);
    if table == NULL {
      ReachAbsent(ram, tree, pml4, p);
      return;
    }
    ReachLead(ram, tree, pml4, p, table / 4096);
    ghost var t3 := table / 4096;
    table := GetNextTableUnmap(pmm, table / 4096, And(Shr(virt, 30), 0x1FF), tree);
    if table == NULL {
      ReachAbsent(ram, tree, t3, p);
      return;
    }
    ReachLead(ram, tree, t3, p, table / 4096);
    ghost var t2 := table / 4096;
    table := GetNextTableUnmap(pmm, table / 4096, And(Shr(virt, 21), 0x1FF), tree);
    if table == NULL {
      ReachAbsent(ram, tree, t2, p);
    } else {
      ReachLead(ram, tree, t2, p, table / 4096);
    }
  }

  /** `virt_to_phys` as a function of the flat map. */
  ghost function Translate(ram: seq<Page>, tree: Tree, r: nat, p: nat): nat
    requires TreeOk(ram, tree) && r in tree
  {
    4096 * (Leaf(ram, tree, r, p) / 4096 % 0x80_0000_0000)
  }

  /** `virt_to_phys` */
  method VirtToPhys(pmm: Allocator, pml4: nat, virt: U64, ghost tree: Tree) returns (phys: nat)
    requires TreeOk(pmm.Ram(), tree) && Root(tree, pml4)
    ensures phys == Translate(pmm.Ram(), tree, pml4, PageOf(virt))
  {
    hide PageOf, TreeOk;
    var entry := 0;
    var table := FindLeafTable(pmm, pml4, virt, tree);
    if table != NULL {
      WalkIndices(virt);
      ReachTable(pmm.Ram(), tree, pml4, PageOf(virt));
      var i := And(Shr(virt, 12), 0x1FF);
      if pmm.ram[table / 4096][i] != 0 {
        entry := pmm.ram[table / 4096][i];
      }
    }
    FrameMask(entry);
    phys := And(entry, FRAME_MASK);
  }

  /** `unmap`: clear the leaf entry, returning what it was. */
  method Unmap(pmm: Allocator, pml4: nat, virt: U64, ghost tree: Tree) returns (entry: nat)
    requires pmm.Valid() && TreeOk(pmm.Ram(), tree) && Apart(tree, pmm.free) && Root(tree, pml4)
    modifies pmm.ram
    ensures pmm.Valid()
    ensures entry == Leaf(old(pmm.Ram()), tree, pml4, PageOf(virt))
    ensures Sets(old(pmm.Ram()), tree, pmm.Ram(), tree, pml4, PageOf(virt), 0)
    ensures Hung(old(pmm.Ram()), tree, pmm.Ram(), tree, NO_RIGHTS)
  {
    hide PageOf, TreeOk, Reach, Index, FreeList, Hung;
    HungNothing(pmm.Ram(), tree, NO_RIGHTS);
    ghost var p, ram := PageOf(virt), pmm.Ram();
    entry := 0;
    var table := FindLeafTable(pmm, pml4, virt, tree);
    if table != NULL {
      WalkIndices(virt);
      ReachTable(ram, tree, pml4, p);
      var i := And(Shr(virt, 12), 0x1FF);
      if pmm.ram[table / 4096][i] != 0 {
        entry := pmm.ram[table / 4096][i];
      }
      ExtendsRefl(ram, tree);
      LeafStoreSets(ram, tree, ram, tree, pml4, p, 0);
      HungStore(ram, tree, ram, tree, table / 4096, i, 0, NO_RIGHTS);
      pmm.Store(table / 4096, i, 0);
    }
  }

  // --- The flat map ----------------------------------------------------------------------------

  /** What `virt_to_phys` gets back out of an entry `map` made: the mapped address, exactly when
      that address is page-aligned and below 2^51, since the mask stops at bit 50. */
  lemma EntryRoundTrip(phys: nat, flags: nat)
    requires GoodFlags(flags)
    ensures 4096 * (Or(phys, flags) / 4096 % 0x80_0000_0000) == phys
            <==> phys % 4096 == 0 && phys < 0x8_0000_0000_0000
  {
    OrAddress(phys, flags);
    var o, f := Or(phys, flags) / 4096, phys / 4096;
    Narrow(o);
    Narrow(f);
    if phys < 0x8_0000_0000_0000 {
      QuotientIs(f, 0x80_0000_0000, 0, f);
    }
  }

  lemma Narrow(x: nat)
    ensures x % 0x100_0000_0000 % 0x80_0000_0000 == x % 0x80_0000_0000
  {
    Splits(x, 0x80_0000_0000, 2);
  }

  /** Mapping a page: it now translates to the mapped frame, and no other page of any address
      space translates differently, unless it is the same kernel-half page of another one. */
  lemma MapTranslates(ram: seq<Page>, tree: Tree, ram': seq<Page>, tree': Tree, r: nat, p: nat, phys: nat, flags: nat)
    requires Sets(ram, tree, ram', tree', r, p, Or(phys, flags)) && GoodFlags(flags)
    ensures Translate(ram', tree', r, p) == phys <==> phys % 4096 == 0 && phys < 0x8_0000_0000_0000
    ensures forall r': nat, p': nat ::
              (Root(tree, r') && p' < PAGES && (r', p') != (r, p) && (r' == r || p' != p || Index(4, p) < 256)) ==>
                Translate(ram', tree', r', p') == Translate(ram, tree, r', p')
  {
    EntryRoundTrip(phys, flags);
  }

  /** A user-half store in one address space changes nothing in any other. */
  lemma UserMapIsPrivate(ram: seq<Page>, tree: Tree, ram': seq<Page>, tree': Tree, r: nat, p: nat, w: nat, r': nat, p': nat)
    requires Sets(ram, tree, ram', tree', r, p, w) && Index(4, p) < 256
    requires Root(tree, r') && r' != r && p' < PAGES
    ensures Translate(ram', tree', r', p') == Translate(ram, tree, r', p')
  {}

  /** `unmap` undoes `map`: mapping an absent page and unmapping it again returns every page to
      the entry it had, and the unmapped entry is the one that was stored. */
  lemma UnmapUndoesMap(ram: seq<Page>, tree: Tree, ram1: seq<Page>, tree1: Tree, ram2: seq<Page>, tree2: Tree,
                       r: nat, p: nat, w: nat, r': nat, p': nat)
    requires Sets(ram, tree, ram1, tree1, r, p, w) && Sets(ram1, tree1, ram2, tree2, r, p, 0)
    requires Leaf(ram, tree, r, p) == 0
    requires Root(tree, r') && p' < PAGES && (r' == r || p' != p || Index(4, p) < 256)
    ensures Leaf(ram1, tree1, r, p) == w
    ensures Leaf(ram2, tree2, r', p') == Leaf(ram, tree, r', p')
  {}

  // --- What becomes of access rights -----------------------------------------------------------

  lemma {:induction false} WayKept(ram: seq<Page>, tree: Tree, ram': seq<Page>, tree': Tree, t: nat, p: nat, a: Rights)
    requires TreeOk(ram, tree) && TreeOk(ram', tree') && Hung(ram, tree, ram', tree', a) && t in tree
    requires Reach(ram, tree, t, p) != 0
    ensures WayRights(ram', tree', t, p) == WayRights(ram, tree, t, p)
    decreases tree[t].level
  {
    if tree[t].level > 1 {
      var i := Index(tree[t].level, p);
      assert TableOk(ram, tree, t) && EntryOk(tree, t, i, ram[t][i]);
      hide Index, RightsOf;
      assert ram'[t][i] == ram[t][i];
      WayKept(ram, tree, ram', tree', Child(ram[t][i]), p, a);
    }
  }

  /** Below a table that is new every entry on the way allows just `a`. */
  lemma {:induction false} WayNew(ram: seq<Page>, tree: Tree, ram': seq<Page>, tree': Tree, t: nat, p: nat, a: Rights)
    requires TreeOk(ram, tree) && TreeOk(ram', tree') && Hung(ram, tree, ram', tree', a) && t in tree' && t !in tree
    requires Reach(ram', tree', t, p) != 0
    ensures WayRights(ram', tree', t, p) == if tree'[t].level == 1 then ALL_RIGHTS else a
    decreases tree'[t].level
  {
    if tree'[t].level > 1 {
      var i := Index(tree'[t].level, p);
      assert TableOk(ram', tree', t) && EntryOk(tree', t, i, ram'[t][i]);
      hide Index, RightsOf;
      WayNew(ram, tree, ram', tree', Child(ram'[t][i]), p, a);
    }
  }

  /** The tables on the way to a page that is reached now leave exactly what `a` allows, cut down by the
      entries that were there before; all of it if and only if those allow it. */
  lemma {:induction false} WayAfter(ram: seq<Page>, tree: Tree, ram': seq<Page>, tree': Tree, t: nat, p: nat, a: Rights)
    requires TreeOk(ram, tree) && TreeOk(ram', tree') && Hung(ram, tree, ram', tree', a) && t in tree
    requires Reach(ram', tree', t, p) != 0
    ensures Within(a, WayRights(ram', tree', t, p)) <==> WayAllows(ram, tree, t, p, a)
    decreases tree[t].level
  {
    if tree[t].level > 1 {
      var i := Index(tree[t].level, p);
      assert TableOk(ram, tree, t) && EntryOk(tree, t, i, ram[t][i]);
      assert TableOk(ram', tree', t) && EntryOk(tree', t, i, ram'[t][i]);
      hide Index, RightsOf;
      if Present(ram[t][i]) {
        assert ram'[t][i] == ram[t][i];
        WayAfter(ram, tree, ram', tree', Child(ram[t][i]), p, a);
      } else {
        WayNew(ram, tree, ram', tree', Child(ram'[t][i]), p, a);
      }
    }
  }

  /** A mapped page has all the rights of the flags if and only if each table entry that was on its way
      before allows them, since entries that exist are never widened; if there was none, it has exactly
      those of the flags. */
  lemma MapRights(ram: seq<Page>, tree: Tree, ram': seq<Page>, tree': Tree, r: nat, p: nat, phys: nat, flags: nat)
    requires Sets(ram, tree, ram', tree', r, p, Or(phys, flags)) && Hung(ram, tree, ram', tree', RightsOf(flags))
    requires GoodFlags(flags) && phys % 4096 == 0 && phys < XD
    ensures Within(PageRights(ram', tree', r, p), RightsOf(flags))
    ensures PageRights(ram', tree', r, p) == RightsOf(flags) <==> WayAllows(ram, tree, r, p, RightsOf(flags))
    ensures r < |ram| && (!Present(ram[r][Index(4, p)]) ==> PageRights(ram', tree', r, p) == RightsOf(flags))
  {
    FlagRights(phys, flags);
    OrAddress(phys, flags);
    hide Or, RightsOf, Index;
    assert Present(Leaf(ram', tree', r, p));
    WayAfter(ram, tree, ram', tree', r, p, RightsOf(flags));
  }

  /** No other page of any address space gains or loses a right, the same kernel page of another one apart. */
  lemma OthersKeepRights(ram: seq<Page>, tree: Tree, ram': seq<Page>, tree': Tree, r: nat, p: nat, w: nat, a: Rights, r': nat, p': nat)
    requires Sets(ram, tree, ram', tree', r, p, w) && Hung(ram, tree, ram', tree', a)
    requires Root(tree, r') && p' < PAGES && (r' == r || p' != p || Index(4, p) < 256) && (r', p') != (r, p)
    ensures r' in tree' && PageRights(ram', tree', r', p') == PageRights(ram, tree, r', p')
  {
    hide Index, RightsOf, WayRights;
    if Present(Leaf(ram, tree, r', p')) {
      WayKept(ram, tree, ram', tree', r', p', a);
    }
  }

  /** An unmapped page has none. */
  lemma UnmapRights(ram: seq<Page>, tree: Tree, ram': seq<Page>, r: nat, p: nat)
    requires Sets(ram, tree, ram', tree, r, p, 0)
    ensures PageRights(ram', tree, r, p) == NO_RIGHTS
  {
    hide Leaf;
  }

  /** The tables of a first mapping in a 512 GiB slot keep what it lacked from all later ones there: after
      one with bit 63, no page of the slot is mapped for instructions. */
  lemma FirstFlagsStay(ram: seq<Page>, tree: Tree, ram1: seq<Page>, tree1: Tree, ram2: seq<Page>, tree2: Tree,
                       r: nat, p: nat, phys: nat, flags: nat, p': nat, phys': nat, flags': nat)
    requires Sets(ram, tree, ram1, tree1, r, p, Or(phys, flags)) && Hung(ram, tree, ram1, tree1, RightsOf(flags))
    requires Sets(ram1, tree1, ram2, tree2, r, p', Or(phys', flags')) && Hung(ram1, tree1, ram2, tree2, RightsOf(flags'))
    requires GoodFlags(flags) && GoodFlags(flags') && phys' % 4096 == 0 && phys' < XD
    requires r < |ram| && !Present(ram[r][Index(4, p)]) && Index(4, p') == Index(4, p)
    ensures PageRights(ram2, tree2, r, p') == RightsOf(flags') ==> Within(RightsOf(flags'), RightsOf(flags))
  {
    hide Index, RightsOf;
    MapRights(ram1, tree1, ram2, tree2, r, p', phys', flags');
    OrAddress(phys, flags);
    hide Or;
    FirstEntry(ram, tree, ram1, tree1, r, p, RightsOf(flags));
    assert Within(RightsOf(flags'), RightsOf(flags)) <== WayAllows(ram1, tree1, r, p', RightsOf(flags'));
  }

  lemma FirstEntry(ram: seq<Page>, tree: Tree, ram1: seq<Page>, tree1: Tree, r: nat, p: nat, a: Rights)
    requires TreeOk(ram, tree) && TreeOk(ram1, tree1) && Hung(ram, tree, ram1, tree1, a) && Root(tree, r) && r < |ram|
    requires !Present(ram[r][Index(4, p)]) && Present(Leaf(ram1, tree1, r, p))
    ensures Present(ram1[r][Index(4, p)]) && RightsOf(ram1[r][Index(4, p)]) == a
  {
    hide RightsOf, Index;
    assert Reach(ram1, tree1, r, p) != 0;
  }

  // --- new_pagemap -----------------------------------------------------------------------------

  ghost function NewRootRam(ram: seq<Page>, k: nat, n: nat): (ram': seq<Page>)
    requires k < |ram| && n < |ram|
    ensures |ram'| == |ram|
  {
    ram[n := ram[n][..256] + ram[k][256..]]
  }

  /** A new root shares the kernel half of `k` and starts with an empty user half. */
  lemma {:induction false} NewRootTree(ram: seq<Page>, tree: Tree, k: nat, n: nat)
    requires TreeOk(ram, tree) && Root(tree, k) && n !in tree && 0 < n < |ram|
    requires forall i :: 0 <= i < 256 ==> !Present(ram[n][i])
    ensures TreeOk(NewRootRam(ram, k, n), tree[n := Node(4, 0, 0)])
  {
    var ram', tree' := NewRootRam(ram, k, n), tree[n := Node(4, 0, 0)];
    forall u | u in tree' && u < |ram'| ensures TableOk(ram', tree', u) {
      var v := if u == n then k else u;
      assert TableOk(ram, tree, v);
      forall i | 0 <= i < 512 && tree'[u].level >= 2 ensures EntryOk(tree', u, i, ram'[u][i]) {
        assert EntryOk(tree, v, i, ram[v][i]);
      }
    }
  }

  lemma {:induction false} NewRootKeeps(ram: seq<Page>, tree: Tree, k: nat, n: nat, u: nat, p: nat)
    requires TreeOk(ram, tree) && Root(tree, k) && n !in tree && 0 < n < |ram| && u in tree
    requires TreeOk(NewRootRam(ram, k, n), tree[n := Node(4, 0, 0)])
    ensures Leaf(NewRootRam(ram, k, n), tree[n := Node(4, 0, 0)], u, p) == Leaf(ram, tree, u, p)
    decreases tree[u].level
  {
    if tree[u].level > 1 {
      var j := Index(tree[u].level, p);
      assert TableOk(ram, tree, u) && EntryOk(tree, u, j, ram[u][j]);
      if Present(ram[u][j]) {
        NewRootKeeps(ram, tree, k, n, Child(ram[u][j]), p);
      }
    }
  }

  lemma NewRootLeaf(ram: seq<Page>, tree: Tree, k: nat, n: nat, p: nat)
    requires TreeOk(ram, tree) && Root(tree, k) && n !in tree && 0 < n < |ram| && p < PAGES
    requires forall i :: 0 <= i < 256 ==> !Present(ram[n][i])
    requires TreeOk(NewRootRam(ram, k, n), tree[n := Node(4, 0, 0)])
    ensures Leaf(NewRootRam(ram, k, n), tree[n := Node(4, 0, 0)], n, p)
            == if Index(4, p) >= 256 then Leaf(ram, tree, k, p) else 0
  {
    var ram', tree' := NewRootRam(ram, k, n), tree[n := Node(4, 0, 0)];
    var j := Index(4, p);
    assert TableOk(ram, tree, k) && EntryOk(tree, k, j, ram[k][j]);
    if j >= 256 {
      assert ram'[n][j] == ram[k][j];
      if Present(ram[k][j]) {
        NewRootKeeps(ram, tree, k, n, Child(ram[k][j]), p);
      }
    } else {
      assert ram'[n][j] == ram[n][j];
    }
  }

  /** No word of the user half reads as a present entry. */
  ghost predicate EmptyUserHalf(page: Page) {
    forall i :: 0 <= i < 256 ==> !Present(page[i])
  }

  lemma OtherPage(ram: seq<Page>, tree: Tree, n: nat, page: Page)
    requires TreeOk(ram, tree) && n !in tree && n < |ram|
    ensures TreeOk(ram[n := page], tree)
  {
    forall u | u in tree && u < |ram| ensures TableOk(ram[n := page], tree, u) {
      assert TableOk(ram, tree, u);
    }
  }

  lemma {:induction false} OtherPageLeaf(ram: seq<Page>, tree: Tree, n: nat, page: Page, u: nat, p: nat)
    requires TreeOk(ram, tree) && n !in tree && n < |ram| && u in tree && TreeOk(ram[n := page], tree)
    ensures Leaf(ram[n := page], tree, u, p) == Leaf(ram, tree, u, p)
    decreases tree[u].level
  {
    if tree[u].level > 1 {
      var j := Index(tree[u].level, p);
      assert TableOk(ram, tree, u) && EntryOk(tree, u, j, ram[u][j]);
      if Present(ram[u][j]) {
        OtherPageLeaf(ram, tree, n, page, Child(ram[u][j]), p);
      }
    }
  }

  /** The page-table part of `new_pagemap`. The user half of the new PML4 is not cleared there: it holds
      what the frame held on the free list. If that has no present entry, the new root is an address
      space of its own; either way no other one changes. */
  method NewPml4(pmm: Allocator, kernel: nat, ghost tree: Tree) returns (ok: bool, pml4: nat, ghost tree': Tree)
    requires pmm.Valid() && TreeOk(pmm.Ram(), tree) && Apart(tree, pmm.free) && Root(tree, kernel)
    modifies pmm, pmm.ram
    ensures pmm.Valid() && TreeOk(pmm.Ram(), tree') && TreeOk(pmm.Ram(), tree)
    ensures ok <==> old(pmm.free) != []
    ensures !ok ==> tree' == tree && pmm.Ram() == old(pmm.Ram()) && pmm.free == old(pmm.free)
    ensures ok ==> pml4 !in tree && old(pmm.free) == [pml4] + pmm.free && pml4 < |pmm.Ram()|
    ensures ok ==> pmm.Ram()[pml4] == old(pmm.Ram())[pml4][..256] + old(pmm.Ram())[kernel][256..]
    ensures ok ==> tree' == if EmptyUserHalf(old(pmm.Ram())[pml4]) then tree[pml4 := Node(4, 0, 0)] else tree
    ensures forall u: nat, p: nat :: u in tree && p < PAGES ==> Leaf(pmm.Ram(), tree', u, p) == Leaf(old(pmm.Ram()), tree, u, p)
    ensures ok && EmptyUserHalf(old(pmm.Ram())[pml4]) ==>
              Apart(tree', pmm.free)
              && forall p: nat :: p < PAGES ==>
                   Leaf(pmm.Ram(), tree', pml4, p) == if Index(4, p) >= 256 then Leaf(old(pmm.Ram()), tree, kernel, p) else 0
  {
    hide TreeOk, Leaf, Index, FreeList, Present;
    tree' := tree;
    ok, pml4 := pmm.AllocFrame();
    if ok {
      ghost var ram := pmm.Ram();
      assert old(pmm.free)[0] == pml4;
      TreeFrames(ram, tree, kernel);
      ghost var page := ram[pml4][..256] + ram[kernel][256..];
      pmm.StorePage(pml4, pmm.ram[pml4][..256] + pmm.ram[kernel][256..]);
      assert pmm.Ram() == NewRootRam(ram, kernel, pml4) == ram[pml4 := page];
      OtherPage(ram, tree, pml4, page);
      if EmptyUserHalf(ram[pml4]) {
        tree' := tree[pml4 := Node(4, 0, 0)];
        NewRoot(ram, tree, kernel, pml4);
      } else {
        forall u: nat, p: nat | u in tree && p < PAGES ensures Leaf(pmm.Ram(), tree, u, p) == Leaf(ram, tree, u, p) {
          OtherPageLeaf(ram, tree, pml4, page, u, p);
        }
      }
    }
  }

  /** A new root with an empty user half, next to the others. */
  lemma NewRoot(ram: seq<Page>, tree: Tree, k: nat, n: nat)
    requires TreeOk(ram, tree) && Root(tree, k) && n !in tree && 0 < n < |ram| && k < |ram| && EmptyUserHalf(ram[n])
    ensures var ram', tree' := NewRootRam(ram, k, n), tree[n := Node(4, 0, 0)];
            && TreeOk(ram', tree')
            && (forall u: nat, p: nat :: u in tree && p < PAGES ==> Leaf(ram', tree', u, p) == Leaf(ram, tree, u, p))
            && (forall p: nat :: p < PAGES ==> Leaf(ram', tree', n, p) == if Index(4, p) >= 256 then Leaf(ram, tree, k, p) else 0)
  {
    hide TreeOk, Leaf, Index;
    TreeFrames(ram, tree, k);
    var ram', tree' := NewRootRam(ram, k, n), tree[n := Node(4, 0, 0)];
    NewRootTree(ram, tree, k, n);
    forall u: nat, p: nat | u in tree && p < PAGES ensures Leaf(ram', tree', u, p) == Leaf(ram, tree, u, p) {
      NewRootKeeps(ram, tree, k, n, u, p);
    }
    forall p: nat | p < PAGES ensures Leaf(ram', tree', n, p) == if Index(4, p) >= 256 then Leaf(ram, tree, k, p) else 0 {
      NewRootLeaf(ram, tree, k, n, p);
    }
  }

  /** For example, a frame at 2^51 is lost on the way back. */
  lemma EntryLosesBit51()
    ensures 4096 * (Or(0x8_0000_0000_0000, 3) / 4096 % 0x80_0000_0000) == 0
  {
    hide Or;
    OrAddress(0x8_0000_0000_0000, 3);
    Narrow(Or(0x8_0000_0000_0000, 3) / 4096);
  }
}
