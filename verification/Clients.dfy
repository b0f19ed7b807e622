/** The kernel allocators as their clients see them: every run of `kmalloc`, `kfree` and frame requests
    (kernel/src/pmm.c, kernel/src/vmm.c) behaves like a set of separate arrays. */
module Clients {
  import opened Bits
  import opened Collections
  import opened Pmm
  import opened Paging
  import opened Vmm
  import S = Slab

  /** What a client holds: memory from `kmalloc` below and above the size where regions begin, or a frame. */
  datatype Item = Small(addr: U64, size: U64) | Big(addr: U64, size: U64) | Frame(f: nat)

  /** The slab object behind an item: its own, or that of its region's node. */
  type Object = (nat, nat)

  ghost predicate RegionAt(regs: seq<Region>, i: nat, addr: nat, size: nat, o: Object) {
    i < |regs| && regs[i] == Region(addr, AlignUp(size), o.0, o.1)
  }

  ghost predicate RegionOf(regs: seq<Region>, addr: nat, size: nat, o: Object) {
    exists i: nat :: 0 < i < |regs| - 1 && RegionAt(regs, i, addr, size, o)
  }

  /** The item is its client's to use and to give back, and at least as large as asked for. */
  ghost predicate ItemOk(v: View, it: Item, o: Object) {
    match it
    case Small(addr, size) =>
      && addr != NULL && size < 1024 && S.Live(v.slabs, o.0, o.1) && Unused(v.regs, o.0, o.1)
      && addr == S.ObjAddr(o.0, v.slabs[o.0].cls, o.1) && size <= S.Size(v.slabs[o.0].cls)
    case Big(addr, size) =>
      addr != NULL && size >= 1024 && S.Live(v.slabs, o.0, o.1) && RegionOf(v.regs, addr, size, o)
    case Frame(f) => f in v.direct && o == (f, 0) && 0 < f < |v.ram|
  }

  /** What the kernel's invariant says about a view. */
  ghost predicate WellMapped(v: View, r: nat, backing: map<nat, nat>) {
    && TreeOk(v.ram, v.tree) && r in v.tree && Backed(v.ram, v.tree, r, v.pages, backing)
    && Layout(v.regs) && (forall p :: p in v.pages <==> InRegions(v.regs, p))
    && (forall g :: g in v.slabs ==> g < |v.ram| && g !in backing && g !in v.direct)
    && (forall g :: g in backing ==> g !in v.direct) && |v.ram| <= MAX_FRAMES
  }

  /** The frames that are used through the direct map lie inside its region. */
  ghost predicate Clear(v: View) {
    |v.regs| > 0 && forall g :: g in v.slabs || g in v.direct ==> Virt(g) < v.regs[0].base + v.regs[0].length
  }

  ghost predicate Sound(v: View, r: nat, backing: map<nat, nat>) {
    WellMapped(v, r, backing) && Clear(v)
  }

  // --- Where an item lies ----------------------------------------------------------------------

  /** Its size in words of 64 bits. */
  ghost function Words(v: View, it: Item, o: Object): nat {
    match it
    case Small(_, _) => if o.0 in v.slabs && v.slabs[o.0].cls < S.CACHES then S.Words(v.slabs[o.0].cls) else 0
    case Big(_, size) => AlignUp(size) / 4096 * 512
    case Frame(_) => 512
  }

  /** The frame and the word in it that word `w` of an item should be: in the object, in the frame behind
      a page of the region, in the frame itself. */
  ghost function Home(v: View, r: nat, it: Item, o: Object, w: nat): (nat, nat)
    requires TreeOk(v.ram, v.tree) && r in v.tree
  {
    match it
    case Small(_, _) => (o.0, if o.0 in v.slabs && v.slabs[o.0].cls < S.CACHES then S.ObjWord(v.slabs[o.0].cls, o.1) + w else w)
    case Big(addr, _) => (EntryFrame(Leaf(v.ram, v.tree, r, PageOf(addr) + w / 512)), w % 512)
    case Frame(f) => (f, w)
  }

  /** The address its client has of an item. */
  function AddressOf(it: Item): nat {
    match it
    case Small(addr, _) => addr
    case Big(addr, _) => addr
    case Frame(f) => Virt(f)
  }

  /** The frame and the word in it that the machine reaches at an address: what the page tables say for the
      pages of the regions, also for those laid over the direct map, and the direct map for the others. */
  ghost function Reached(v: View, r: nat, a: nat): (nat, nat)
    requires TreeOk(v.ram, v.tree) && r in v.tree
  {
    (if PageOf(a) in v.pages then EntryFrame(Leaf(v.ram, v.tree, r, PageOf(a))) else if a >= HHDM then FrameOf(a) else 0, a % 4096 / 8)
  }

  /** Where the machine finds word `w` of an item. */
  ghost function Place(v: View, r: nat, it: Item, w: nat): (nat, nat)
    requires TreeOk(v.ram, v.tree) && r in v.tree
  {
    Reached(v, r, AddressOf(it) + 8 * w)
  }

  /** An item is at least as large as what was asked for. */
  lemma ItemFits(v: View, it: Item, o: Object)
    requires ItemOk(v, it, o) && !it.Frame? && it.size < U64_SIZE - 0x1000
    ensures 8 * Words(v, it, o) >= it.size
  {
    hide RegionOf, Unused, S.ObjAddr;
    if it.Big? {
      var n := AlignUp(it.size) / 4096;
      assert AlignUp(it.size) == n * 4096 && AlignUp(it.size) >= it.size;
    }
  }

  /** A word of a small item. */
  lemma SmallHome(v: View, r: nat, backing: map<nat, nat>, it: Item, o: Object, w: nat)
    requires WellMapped(v, r, backing) && ItemOk(v, it, o) && it.Small? && w < Words(v, it, o)
    ensures var x := Home(v, r, it, o, w);
            x.0 == o.0 && x.0 in v.slabs && x.0 < |v.ram| && x.1 < 512 && S.InObject(v.slabs[o.0].cls, o.1, x.1)
            && it.addr + 8 * w == Virt(o.0) + 8 * x.1
  {
    S.ObjectsInside(v.slabs[o.0].cls, o.1);
    hide TreeOk, Leaf, Backed, Layout;
  }

  /** A word of a region lies in the frame behind one of its pages. */
  lemma BigHome(v: View, r: nat, backing: map<nat, nat>, it: Item, o: Object, w: nat)
    requires WellMapped(v, r, backing) && ItemOk(v, it, o) && it.Big? && w < Words(v, it, o)
    ensures var x, p := Home(v, r, it, o, w), PageOf(it.addr) + w / 512;
            p in v.pages && x.0 in backing && backing[x.0] == p && x.0 < |v.ram| && x.1 < 512
  {
    hide TreeOk, Leaf, S.Live, PageOf, EntryFrame, AlignUp;
    var i :| 0 < i < |v.regs| - 1 && RegionAt(v.regs, i, it.addr, it.size, o);
    assert InRegion(v.regs[i], PageOf(it.addr) + w / 512);
    hide Layout;
  }

  lemma NotInRegions(regs: seq<Region>, p: nat)
    requires forall i: nat | 0 < i < |regs| - 1 :: !InRegion(regs[i], p)
    ensures !InRegions(regs, p)
  {
    hide InRegion;
  }

  lemma PageBefore(r: Region, f: nat, a: nat)
    requires f < MAX_FRAMES && HHDM <= r.base < U64_SIZE && r.base % 4096 == 0 && Virt(f) < r.base && PageOf(a) == PageOf(Virt(f))
    ensures !InRegion(r, PageOf(a))
  {
    KernelPage(Virt(f));
    KernelPage(r.base);
  }

  lemma FramePage(f: nat, x: nat)
    requires f < MAX_FRAMES && x < 512
    ensures var a := Virt(f) + 8 * x;
            PageOf(a) == PageOf(Virt(f)) && FrameOf(a) == f && a % 4096 / 8 == x
  {
    KernelPage(Virt(f));
    KernelPage(Virt(f) + 8 * x);
  }

  /** An address in the direct map, of a frame inside its region, is in no other region. */
  lemma DirectPage(v: View, f: nat, x: nat, a: nat)
    requires Layout(v.regs) && (forall p :: p in v.pages <==> InRegions(v.regs, p)) && f < MAX_FRAMES
    requires Virt(f) < v.regs[0].base + v.regs[0].length && x < 512 && a == Virt(f) + 8 * x
    ensures PageOf(a) !in v.pages && FrameOf(a) == f && a % 4096 / 8 == x
  {
    FramePage(f, x);
    hide PageOf, InRegions;
    forall i: nat | 0 < i < |v.regs| - 1 ensures !InRegion(v.regs[i], PageOf(a)) {
      LayoutOrdered(v.regs, 0, i);
      PageBefore(v.regs[i], f, a);
    }
    NotInRegions(v.regs, PageOf(a));
  }

  /** An address in a region. */
  lemma RegionWord(addr: nat, w: nat, a: nat)
    requires addr % 4096 == 0 && addr >= HHDM && a == addr + 8 * w && a < U64_SIZE
    ensures PageOf(a) == PageOf(addr) + w / 512 && a % 4096 / 8 == w % 512
  {
    KernelPage(addr);
    KernelPage(a);
  }

  /** The page of a region that word `w` of it is in. */
  lemma RegionAddress(v: View, it: Item, o: Object, w: nat)
    requires Layout(v.regs) && ItemOk(v, it, o) && it.Big? && w < Words(v, it, o)
    ensures PageOf(it.addr + 8 * w) == PageOf(it.addr) + w / 512 && (it.addr + 8 * w) % 4096 / 8 == w % 512
  {
    hide S.Live, PageOf;
    var i: nat :| 0 < i < |v.regs| - 1 && RegionAt(v.regs, i, it.addr, it.size, o);
    LayoutOrdered(v.regs, i, |v.regs| - 1);
    assert Aligned(v.regs[i]);
    hide Layout;
    RegionWord(it.addr, w, it.addr + 8 * w);
  }

  /** The machine finds every word of an item where it should be. */
  lemma PlaceIsHome(v: View, r: nat, backing: map<nat, nat>, it: Item, o: Object, w: nat)
    requires Sound(v, r, backing) && ItemOk(v, it, o) && w < Words(v, it, o)
    ensures Place(v, r, it, w) == Home(v, r, it, o, w)
  {
    hide TreeOk, Leaf, Backed, Layout, InRegions, RegionOf, PageOf, EntryFrame, AlignUp, Unused, S.ObjAddr, S.Live;
    match it {
      case Small(addr, _) =>
        SmallHome(v, r, backing, it, o, w);
        DirectPage(v, o.0, Home(v, r, it, o, w).1, addr + 8 * w);
      case Big(_, _) =>
        BigHome(v, r, backing, it, o, w);
        RegionAddress(v, it, o, w);
      case Frame(f) =>
        DirectPage(v, f, w, Virt(f) + 8 * w);
    }
  }

  /** Words of different items, and different words of an item, never share a place. */
  lemma PlacesApart(v: View, r: nat, backing: map<nat, nat>, it: Item, o: Object, w: nat, it': Item, o': Object, w': nat)
    requires Sound(v, r, backing) && ItemOk(v, it, o) && ItemOk(v, it', o')
    requires w < Words(v, it, o) && w' < Words(v, it', o') && (o != o' || (it == it' && w != w'))
    ensures Place(v, r, it, w) != Place(v, r, it', w')
  {
    PlaceIsHome(v, r, backing, it, o, w);
    PlaceIsHome(v, r, backing, it', o', w');
    HomesApart(v, r, backing, it, o, w, it', o', w');
    hide *;
  }

  lemma HomesApart(v: View, r: nat, backing: map<nat, nat>, it: Item, o: Object, w: nat, it': Item, o': Object, w': nat)
    requires WellMapped(v, r, backing) && ItemOk(v, it, o) && ItemOk(v, it', o')
    requires w < Words(v, it, o) && w' < Words(v, it', o') && (o != o' || (it == it' && w != w'))
    ensures Home(v, r, it, o, w) != Home(v, r, it', o', w')
  {
    hide TreeOk, Leaf, Backed, Layout, RegionOf, PageOf, EntryFrame, AlignUp, Unused, S.ObjAddr, InRegions;
    HomeOwner(v, r, backing, it, o, w);
    HomeOwner(v, r, backing, it', o', w');
    hide S.Live, WellMapped, Words;
    if it.Small? && it'.Small? {
      if o.0 == o'.0 && o.1 != o'.1 {
        S.WordsApart(v.slabs[o.0].cls, o.1, o'.1, Home(v, r, it, o, w).1);
      }
    } else if it.Big? && it'.Big? && o != o' {
      PagesApart(v, r, backing, it, o, w, it', o', w');
    } else if it.Big? && it'.Big? {
      SamePageWord(w, w');
    }
  }

  lemma SamePageWord(w: nat, w': nat)
    ensures w / 512 == w' / 512 && w % 512 == w' % 512 ==> w == w'
  {}

  /** Which kind of frame the home of a word is in. */
  lemma HomeOwner(v: View, r: nat, backing: map<nat, nat>, it: Item, o: Object, w: nat)
    requires WellMapped(v, r, backing) && ItemOk(v, it, o) && w < Words(v, it, o)
    ensures var x := Home(v, r, it, o, w);
            && x.0 < |v.ram| && x.1 < 512
            && (it.Small? <==> x.0 in v.slabs) && (it.Big? <==> x.0 in backing) && (it.Frame? <==> x.0 in v.direct)
            && (it.Small? ==> x.0 == o.0 && S.InObject(v.slabs[o.0].cls, o.1, x.1))
            && (it.Big? ==> backing[x.0] == PageOf(it.addr) + w / 512)
  {
    hide TreeOk, Leaf, Backed, Layout, RegionOf, PageOf, EntryFrame, AlignUp, Unused, S.ObjAddr, S.Live, InRegions;
    if it.Small? {
      SmallHome(v, r, backing, it, o, w);
    } else if it.Big? {
      BigHome(v, r, backing, it, o, w);
    }
  }

  lemma PlaceOwner(v: View, r: nat, backing: map<nat, nat>, it: Item, o: Object, w: nat)
    requires Sound(v, r, backing) && ItemOk(v, it, o) && w < Words(v, it, o)
    ensures var x := Place(v, r, it, w);
            && x.0 < |v.ram| && x.1 < 512 && (x.0 in v.slabs || x.0 in backing || x.0 in v.direct)
            && (x.0 in v.slabs ==> it.Small? && x.0 == o.0 && S.InObject(v.slabs[o.0].cls, o.1, x.1))
  {
    hide Place, Home, WellMapped, ItemOk, Words;
    PlaceIsHome(v, r, backing, it, o, w);
    HomeOwner(v, r, backing, it, o, w);
  }

  lemma PagesApart(v: View, r: nat, backing: map<nat, nat>, it: Item, o: Object, w: nat, it': Item, o': Object, w': nat)
    requires WellMapped(v, r, backing) && ItemOk(v, it, o) && ItemOk(v, it', o') && it.Big? && it'.Big? && o != o'
    requires w < Words(v, it, o) && w' < Words(v, it', o')
    ensures PageOf(it.addr) + w / 512 != PageOf(it'.addr) + w' / 512
  {
    hide TreeOk, Leaf, Backed, Layout, PageOf, EntryFrame, AlignUp, S.Live, InRegions;
    var i :| 0 < i < |v.regs| - 1 && RegionAt(v.regs, i, it.addr, it.size, o);
    var i' :| 0 < i' < |v.regs| - 1 && RegionAt(v.regs, i', it'.addr, it'.size, o');
    assert InRegion(v.regs[i], PageOf(it.addr) + w / 512) && InRegion(v.regs[i'], PageOf(it'.addr) + w' / 512);
    hide InRegion;
    OtherRegion(v.regs, i, i', PageOf(it.addr) + w / 512);
  }

  // --- What an item contains -------------------------------------------------------------------

  /** The words of the item are `d`. */
  ghost predicate Contains(v: View, r: nat, it: Item, o: Object, d: seq<nat>)
    requires TreeOk(v.ram, v.tree) && r in v.tree
  {
    |d| == Words(v, it, o) && forall w: nat :: w < |d| ==> WordAt(v.ram, Place(v, r, it, w)) == d[w]
  }

  ghost function WordAt(ram: seq<Page>, x: (nat, nat)): nat {
    if x.0 < |ram| && x.1 < 512 then ram[x.0][x.1] else 0
  }

  /** What everyone else does leaves an item where it is, with what it contains. */
  lemma ContentsKept(v: View, v': View, r: nat, backing: map<nat, nat>, backing': map<nat, nat>, it: Item, o: Object, d: seq<nat>)
    requires Sound(v, r, backing) && Sound(v', r, backing') && Kept(v, v', r, {})
    requires ItemOk(v, it, o) && ItemOk(v', it, o) && Contains(v, r, it, o, d)
    ensures Contains(v', r, it, o, d)
  {
    hide TreeOk, Leaf, PageOf, EntryFrame, AlignUp, Backed, Layout, InRegions, RegionOf, S.ObjAddr;
    if it.Small? {
      assert ObjectKept(v, v', o.0, o.1);
    }
    hide ObjectsKept, Unused, S.Live;
    forall w: nat | w < |d| ensures WordAt(v'.ram, Place(v', r, it, w)) == d[w] {
      WordKept(v, v', r, backing, backing', it, o, w);
      assert WordAt(v.ram, Place(v, r, it, w)) == d[w];
    }
  }

  lemma WordKept(v: View, v': View, r: nat, backing: map<nat, nat>, backing': map<nat, nat>, it: Item, o: Object, w: nat)
    requires Sound(v, r, backing) && Sound(v', r, backing') && Kept(v, v', r, {})
    requires ItemOk(v, it, o) && ItemOk(v', it, o) && w < Words(v, it, o) == Words(v', it, o)
    requires it.Small? ==> ObjectKept(v, v', o.0, o.1)
    ensures Place(v', r, it, w) == Place(v, r, it, w)
    ensures WordAt(v'.ram, Place(v', r, it, w)) == WordAt(v.ram, Place(v, r, it, w))
  {
    hide TreeOk, Leaf, PageOf, EntryFrame, AlignUp, Backed, Layout, InRegions, RegionOf, S.ObjAddr, ObjectsKept, Unused, S.Live, Place, Clear;
    PlaceIsHome(v, r, backing, it, o, w);
    PlaceIsHome(v', r, backing', it, o, w);
    if it.Small? {
      SmallHome(v, r, backing, it, o, w);
    } else if it.Big? {
      BigHome(v, r, backing, it, o, w);
      BigHome(v', r, backing', it, o, w);
      assert PageKept(v, v', r, PageOf(it.addr) + w / 512);
    }
  }

  /** What an item contains. */
  ghost function Snapshot(v: View, r: nat, it: Item, o: Object): (d: seq<nat>)
    requires TreeOk(v.ram, v.tree) && r in v.tree
    ensures Contains(v, r, it, o, d)
  {
    hide TreeOk, Leaf, Words, Place;
    seq<nat>(Words(v, it, o), w requires 0 <= w => WordAt(v.ram, Place(v, r, it, w)))
  }

  // --- Everything clients hold -----------------------------------------------------------------

  ghost predicate Items(v: View, held: seq<Item>, objs: seq<Object>) {
    |held| == |objs| && Distinct(objs) && forall j :: 0 <= j < |held| ==> ItemOk(v, held[j], objs[j])
  }

  /** The items are their clients', and contain `data`. */
  ghost predicate Holding(v: View, r: nat, held: seq<Item>, objs: seq<Object>, data: seq<seq<nat>>)
    requires TreeOk(v.ram, v.tree) && r in v.tree
  {
    Items(v, held, objs) && |data| == |held| && forall j :: 0 <= j < |held| ==> Contains(v, r, held[j], objs[j], data[j])
  }

  /** Nothing is lost: what is in use is held by a client or is a node of the region list. */
  ghost predicate Balanced(v: View, objs: seq<Object>) {
    && (forall f: nat, k: nat :: S.Live(v.slabs, f, k) ==> (f, k) in objs || !Unused(v.regs, f, k))
    && (forall g :: g in v.direct ==> (g, 0) in objs)
    && (forall i :: 0 < i < |v.regs| - 1 ==> (v.regs[i].f, v.regs[i].k) in objs)
  }

  /** When everything has been given back, no frame is held, only the two fixed regions are left, and
      the only live objects are their nodes. */
  lemma NothingHeldNothingLost(v: View)
    requires Balanced(v, []) && Layout(v.regs)
    ensures v.direct == {} && |v.regs| == 2
    ensures forall f: nat, k: nat :: S.Live(v.slabs, f, k) ==> (f, k) == (v.regs[0].f, v.regs[0].k) || (f, k) == (v.regs[1].f, v.regs[1].k)
  {
    hide S.Live;
    assert (v.regs[1].f, v.regs[1].k) !in [];
  }

  function Without<T>(s: seq<T>, j: nat): (s': seq<T>)
    requires j < |s|
    ensures |s'| == |s| - 1
    ensures forall l :: 0 <= l < |s'| ==> s'[l] == if l < j then s[l] else s[l + 1]
  {
    s[..j] + s[j + 1..]
  }

  lemma WithoutHas<T>(s: seq<T>, j: nat)
    requires j < |s| && Distinct(s)
    ensures Distinct(Without(s, j)) && forall x :: x in Without(s, j) <==> x in s && x != s[j]
  {
    var s' := Without(s, j);
    forall x ensures x in s' <==> x in s && x != s[j] {
      if x in s && x != s[j] {
        var l :| 0 <= l < |s| && s[l] == x;
        assert s'[if l < j then l else l - 1] == x;
      }
      if x in s' {
        var l :| 0 <= l < |s'| && s'[l] == x;
        assert x == s[if l < j then l else l + 1];
      }
    }
  }

  /** Two different items never share a byte of memory: the places of all their words are different. */
  lemma ItemsDisjoint(v: View, r: nat, backing: map<nat, nat>, held: seq<Item>, objs: seq<Object>, i: nat, w: nat, j: nat, w': nat)
    requires Sound(v, r, backing) && Items(v, held, objs) && i < |held| && j < |held| && (i, w) != (j, w')
    requires w < Words(v, held[i], objs[i]) && w' < Words(v, held[j], objs[j])
    ensures Place(v, r, held[i], w) != Place(v, r, held[j], w')
  {
    hide Sound, ItemOk, Words, Place;
    assert i != j ==> objs[i] != objs[j] by {
      if i < j { assert objs[i] != objs[j]; } else if j < i { assert objs[j] != objs[i]; }
    }
    PlacesApart(v, r, backing, held[i], objs[i], w, held[j], objs[j], w');
  }

  lemma AddItem(v: View, v': View, r: nat, backing: map<nat, nat>, backing': map<nat, nat>,
                held: seq<Item>, objs: seq<Object>, data: seq<seq<nat>>, it: Item, o: Object)
    requires Sound(v, r, backing) && Sound(v', r, backing') && Kept(v, v', r, {}) && Holding(v, r, held, objs, data)
    requires forall j :: 0 <= j < |held| ==> ItemOk(v', held[j], objs[j])
    requires ItemOk(v', it, o) && o !in objs
    ensures Holding(v', r, held + [it], objs + [o], data + [Snapshot(v', r, it, o)])
  {
    hide ItemOk, Contains, TreeOk, Kept, Snapshot, Backed, Layout, InRegions;
    DistinctConcat(objs, [o]);
    forall j | 0 <= j < |held| ensures Contains(v', r, held[j], objs[j], data[j]) {
      ContentsKept(v, v', r, backing, backing', held[j], objs[j], data[j]);
    }
  }

  lemma DropItem(v: View, v': View, r: nat, backing: map<nat, nat>, backing': map<nat, nat>,
                 held: seq<Item>, objs: seq<Object>, data: seq<seq<nat>>, j: nat)
    requires Sound(v, r, backing) && Sound(v', r, backing') && Kept(v, v', r, {}) && Holding(v, r, held, objs, data)
    requires j < |held| && forall l :: 0 <= l < |held| && l != j ==> ItemOk(v', held[l], objs[l])
    ensures Holding(v', r, Without(held, j), Without(objs, j), Without(data, j))
  {
    hide ItemOk, Contains, TreeOk, Kept, Backed, Layout, InRegions;
    WithoutHas(objs, j);
    forall l | 0 <= l < |held| && l != j ensures Contains(v', r, held[l], objs[l], data[l]) {
      ContentsKept(v, v', r, backing, backing', held[l], objs[l], data[l]);
    }
  }

  function Stored(d: seq<nat>, w: nat, x: nat): (d': seq<nat>)
    ensures |d'| == |d|
  {
    if w < |d| then d[w := x] else d
  }

  /** A client's store changes that word of that item and nothing else. */
  lemma StoreItem(v: View, v': View, r: nat, backing: map<nat, nat>, held: seq<Item>, objs: seq<Object>, data: seq<seq<nat>>,
                  j: nat, w: nat, x: nat)
    requires Sound(v, r, backing) && Sound(v', r, backing) && Holding(v, r, held, objs, data) && j < |held| && w < |data[j]|
    requires v'.tree == v.tree && TreeOk(v'.ram, v.tree)
    requires forall t: nat, p: nat :: t in v.tree ==> Leaf(v'.ram, v.tree, t, p) == Leaf(v.ram, v.tree, t, p)
    requires var at := Place(v, r, held[j], w);
             at.0 < |v.ram| && at.1 < 512 && v' == v.(ram := Put(v.ram, at.0, at.1, x))
    ensures Holding(v', r, held, objs, data[j := Stored(data[j], w, x)])
  {
    assert TreeOk(v.ram, v.tree) && r in v.tree;
    hide TreeOk, Leaf, Backed, Layout, InRegions, ItemOk, Words, Sound;
    forall l | 0 <= l < |held| ensures ItemOk(v', held[l], objs[l]) {
      SameItem(v, v', held[l], objs[l]);
    }
    forall l, u: nat | 0 <= l < |held| && u < |data[l]|
      ensures WordAt(v'.ram, Place(v', r, held[l], u)) == data[j := Stored(data[j], w, x)][l][u]
    {
      SamePlace(v, v', r, held[l], objs[l], u);
      assert WordAt(v.ram, Place(v, r, held[l], u)) == data[l][u];
      if (l, u) != (j, w) {
        ItemsDisjoint(v, r, backing, held, objs, l, u, j, w);
      }
    }
    forall l | 0 <= l < |held| ensures Words(v', held[l], objs[l]) == Words(v, held[l], objs[l]) {
      SamePlace(v, v', r, held[l], objs[l], 0);
    }
  }

  lemma SameItem(v: View, v': View, it: Item, o: Object)
    requires ItemOk(v, it, o) && v' == v.(ram := v'.ram) && |v'.ram| == |v.ram|
    ensures ItemOk(v', it, o)
  {
    hide S.Live, RegionOf, Unused;
  }

  lemma SamePlace(v: View, v': View, r: nat, it: Item, o: Object, u: nat)
    requires TreeOk(v.ram, v.tree) && TreeOk(v'.ram, v.tree) && r in v.tree && v' == v.(ram := v'.ram)
    requires forall t: nat, p: nat :: t in v.tree ==> Leaf(v'.ram, v.tree, t, p) == Leaf(v.ram, v.tree, t, p)
    ensures Place(v', r, it, u) == Place(v, r, it, u) && Words(v', it, o) == Words(v, it, o)
  {
    hide TreeOk, Leaf;
  }

  // --- What the operations do to the items -----------------------------------------------------

  /** The region list stays as it is, or a region with node `o` comes in. */
  ghost predicate RegionsGrow(regs: seq<Region>, regs': seq<Region>, o: Object) {
    regs' == regs || exists i: nat :: InsertedAt(regs, regs', o, i)
  }

  ghost predicate InsertedAt(regs: seq<Region>, regs': seq<Region>, o: Object, i: nat) {
    1 <= i < |regs| && i < |regs'| && regs' == Inserted(regs, i, regs'[i]) && (regs'[i].f, regs'[i].k) == o
  }

  lemma TakenKeepsItem(v: View, v': View, it: Item, o: Object, f: nat, k: nat)
    requires ItemOk(v, it, o) && S.Takes(v.slabs, v'.slabs, f, k) && !S.Live(v.slabs, f, k)
    requires v'.direct == v.direct && |v'.ram| == |v.ram| && RegionsGrow(v.regs, v'.regs, (f, k))
    ensures ItemOk(v', it, o)
  {
    hide S.ObjAddr;
    TakesLive(v.slabs, v'.slabs, f, k);
    hide S.Live, S.Takes;
    if v'.regs != v.regs && !it.Frame? {
      var i: nat :| InsertedAt(v.regs, v'.regs, (f, k), i);
      if it.Small? {
        UnusedInserted(v.regs, i, v'.regs[i]);
      } else {
        var x: nat :| 0 < x < |v.regs| - 1 && RegionAt(v.regs, x, it.addr, it.size, o);
        assert RegionAt(v'.regs, if x < i then x else x + 1, it.addr, it.size, o);
      }
    }
  }

  /** The region list stays as it is, or a region with node `o` goes. */
  ghost predicate RegionsShrink(regs: seq<Region>, regs': seq<Region>, o: Object) {
    regs' == regs || exists i: nat :: RemovedAtNode(regs, regs', o, i)
  }

  ghost predicate RemovedAtNode(regs: seq<Region>, regs': seq<Region>, o: Object, i: nat) {
    0 < i < |regs| - 1 && regs' == Removed(regs, i) && (regs[i].f, regs[i].k) == o
  }

  lemma GivenKeepsItem(v: View, v': View, it: Item, o: Object, f: nat, k: nat)
    requires ItemOk(v, it, o) && S.Takes(v'.slabs, v.slabs, f, k) && o != (f, k)
    requires v'.direct == v.direct && |v'.ram| == |v.ram| && RegionsShrink(v.regs, v'.regs, (f, k))
    ensures ItemOk(v', it, o)
  {
    hide S.ObjAddr;
    StaysLive(v.slabs, v'.slabs, f, k);
    hide S.Live, S.Takes;
    if v'.regs != v.regs && !it.Frame? {
      var i: nat :| RemovedAtNode(v.regs, v'.regs, (f, k), i);
      if it.Small? {
        UnusedRemoved(v.regs, i);
      } else {
        var x: nat :| 0 < x < |v.regs| - 1 && RegionAt(v.regs, x, it.addr, it.size, o);
        assert x != i;
        assert RegionAt(v'.regs, if x < i then x else x - 1, it.addr, it.size, o);
      }
    }
  }

  lemma StaysLive(slabs: map<nat, S.Slab>, slabs': map<nat, S.Slab>, f: nat, k: nat)
    requires S.Takes(slabs', slabs, f, k)
    ensures forall f': nat, k': nat :: S.Live(slabs, f', k') && (f', k') != (f, k) ==> S.Live(slabs', f', k') && slabs'[f'].cls == slabs[f'].cls
  {}

  lemma FramesKeepItem(v: View, v': View, it: Item, o: Object)
    requires ItemOk(v, it, o) && v'.slabs == v.slabs && v'.regs == v.regs && |v'.ram| == |v.ram|
    requires it.Frame? ==> it.f in v'.direct
    ensures ItemOk(v', it, o)
  {
    hide S.Live, RegionOf, Unused;
  }

  /** The object of a new item is no one's. */
  lemma NewObject(v: View, v': View, r: nat, backing': map<nat, nat>, held: seq<Item>, objs: seq<Object>, f: nat, k: nat)
    requires Items(v, held, objs) && !S.Live(v.slabs, f, k) && S.Live(v'.slabs, f, k) && Sound(v', r, backing') && v'.direct == v.direct
    ensures (f, k) !in objs
  {
    hide TreeOk, Leaf, Backed, Layout, InRegions, RegionOf, Unused, S.ObjAddr;
    forall j | 0 <= j < |objs| ensures objs[j] != (f, k) {
      assert ItemOk(v, held[j], objs[j]);
    }
  }

  lemma NewFrame(v: View, v': View, r: nat, backing': map<nat, nat>, held: seq<Item>, objs: seq<Object>, f: nat)
    requires Items(v, held, objs) && f !in v.direct && f in v'.direct && v'.slabs == v.slabs && Sound(v', r, backing')
    ensures (f, 0) !in objs
  {
    hide TreeOk, Leaf, Backed, Layout, InRegions, RegionOf, Unused, S.ObjAddr;
    forall j | 0 <= j < |objs| ensures objs[j] != (f, 0) {
      assert ItemOk(v, held[j], objs[j]);
    }
  }

  lemma TakenBalanced(v: View, v': View, objs: seq<Object>, f: nat, k: nat)
    requires Balanced(v, objs) && S.Takes(v.slabs, v'.slabs, f, k) && v'.direct == v.direct && RegionsGrow(v.regs, v'.regs, (f, k))
    ensures Balanced(v', objs + [(f, k)])
  {
    var o := (f, k);
    assert (objs + [o])[|objs|] == o;
    assert forall x :: x in objs ==> x in objs + [o];
    OthersLive(v.slabs, v'.slabs, f, k);
    hide S.Live, S.Takes;
    if v'.regs != v.regs {
      var i: nat :| InsertedAt(v.regs, v'.regs, o, i);
      UsedInserted(v.regs, i, v'.regs[i]);
      forall x | 0 < x < |v'.regs| - 1 ensures (v'.regs[x].f, v'.regs[x].k) in objs + [o] {
        assert v'.regs[x] == if x < i then v.regs[x] else if x == i then v'.regs[i] else v.regs[x - 1];
        if x < i {
          assert (v.regs[x].f, v.regs[x].k) in objs;
        } else if x > i {
          assert (v.regs[x - 1].f, v.regs[x - 1].k) in objs;
        }
      }
    }
  }

  lemma OthersLive(slabs: map<nat, S.Slab>, slabs': map<nat, S.Slab>, f: nat, k: nat)
    requires S.Takes(slabs, slabs', f, k)
    ensures forall f': nat, k': nat :: S.Live(slabs', f', k') && (f', k') != (f, k) ==> S.Live(slabs, f', k')
  {}

  lemma UsedInserted(regs: seq<Region>, i: nat, r: Region)
    requires i <= |regs|
    ensures forall f: nat, k: nat :: !Unused(regs, f, k) ==> !Unused(Inserted(regs, i, r), f, k)
  {
    var s := Inserted(regs, i, r);
    forall f: nat, k: nat | !Unused(regs, f, k) ensures !Unused(s, f, k) {
      var x :| 0 <= x < |regs| && (regs[x].f, regs[x].k) == (f, k);
      assert s[if x < i then x else x + 1] == regs[x];
    }
  }

  lemma GivenBalanced(v: View, v': View, objs: seq<Object>, j: nat)
    requires Balanced(v, objs) && Distinct(objs) && j < |objs| && v'.direct == v.direct
    requires S.Takes(v'.slabs, v.slabs, objs[j].0, objs[j].1) && !S.Live(v'.slabs, objs[j].0, objs[j].1)
    requires RegionsShrink(v.regs, v'.regs, objs[j]) && (forall g :: g in v.direct ==> g !in v.slabs) && NodesDistinct(v.regs)
    requires Unused(v'.regs, objs[j].0, objs[j].1)
    ensures Balanced(v', Without(objs, j))
  {
    var o := objs[j];
    WithoutHas(objs, j);
    StillLive(v.slabs, v'.slabs, o.0, o.1);
    hide S.Live, S.Takes, Without;
    if v'.regs != v.regs {
      var i: nat :| RemovedAtNode(v.regs, v'.regs, o, i);
      UsedRemoved(v.regs, i);
    }
    forall i | 0 < i < |v'.regs| - 1 ensures (v'.regs[i].f, v'.regs[i].k) in Without(objs, j) {
      assert (v'.regs[i].f, v'.regs[i].k) != o;
    }
  }

  lemma StillLive(slabs: map<nat, S.Slab>, slabs': map<nat, S.Slab>, f: nat, k: nat)
    requires S.Takes(slabs', slabs, f, k)
    ensures f in slabs
    ensures forall f': nat, k': nat :: S.Live(slabs', f', k') && (f', k') != (f, k) ==> S.Live(slabs, f', k')
  {}

  lemma UsedRemoved(regs: seq<Region>, i: nat)
    requires i < |regs|
    ensures forall f: nat, k: nat :: !Unused(regs, f, k) && (f, k) != (regs[i].f, regs[i].k) ==> !Unused(Removed(regs, i), f, k)
  {
    var s := Removed(regs, i);
    forall f: nat, k: nat | !Unused(regs, f, k) && (f, k) != (regs[i].f, regs[i].k) ensures !Unused(s, f, k) {
      var x :| 0 <= x < |regs| && (regs[x].f, regs[x].k) == (f, k);
      assert s[if x < i then x else x - 1] == regs[x];
    }
  }

  // --- Runs ------------------------------------------------------------------------------------

  /** What clients may do; `n` counts what they hold. */
  datatype Op = Malloc(size: U64) | TakeFrame | Release(n: nat) | Store(n: nat, w: nat, x: U64)

  /** The ideal memory: separate arrays. A new one holds `first`. */
  function IdealStep(blocks: seq<seq<nat>>, op: Op, first: seq<nat>): seq<seq<nat>> {
    match op
    case Malloc(_) => blocks + [first]
    case TakeFrame => blocks + [first]
    case Release(n) => if n < |blocks| then Without(blocks, n) else blocks
    case Store(n, w, x) => if n < |blocks| then blocks[n := Stored(blocks[n], w, x)] else blocks
  }

  function Ideal(ops: seq<Op>, first: seq<seq<nat>>): seq<seq<nat>>
    requires |first| == |ops|
  {
    if ops == [] then []
    else
      var n := |ops| - 1;
      IdealStep(Ideal(ops[..n], first[..n]), ops[n], first[n])
  }

  lemma IdealNext(ops: seq<Op>, first: seq<seq<nat>>, n: nat, d: seq<nat>)
    requires n < |ops| && |first| == n
    ensures Ideal(ops[..n + 1], first + [d]) == IdealStep(Ideal(ops[..n], first), ops[n], d)
  {
    assert ops[..n + 1][..n] == ops[..n] && (first + [d])[..n] == first;
  }

  /** New memory is as large as asked for, and zero if it is a region. */
  ghost predicate FreshOk(op: Op, d: seq<nat>) {
    match op
    case Malloc(size) => 8 * |d| >= size && (size >= 1024 ==> forall w :: 0 <= w < |d| ==> d[w] == 0)
    case TakeFrame => |d| == 512
    case _ => true
  }

  lemma NodesInSlabs(ram: seq<Page>, slabs: map<nat, S.Slab>, head: nat, regs: seq<Region>)
    requires ListOk(ram, slabs, head, regs)
    ensures NodesDistinct(regs) && forall i :: 0 <= i < |regs| ==> regs[i].f in slabs
  {
    forall i | 0 <= i < |regs| ensures regs[i].f in slabs {
      ListedNode(ram, slabs, head, regs, i);
    }
  }

  lemma MappedNow(k: Kernel)
    requires k.Valid()
    ensures WellMapped(k.Now(), k.pml4, k.backing) && Root(k.tree, k.pml4) && NodesDistinct(k.regs)
    ensures |k.pmm.Ram()| == k.pmm.ram.Length && TreeOk(k.pmm.Ram(), k.tree)
    ensures forall i :: 0 <= i < |k.regs| ==> k.regs[i].f in k.heap.slabs
    ensures forall g :: g in k.heap.slabs || g in k.direct ==> g in k.managed
  {
    hide TreeOk, Leaf, Backed, Layout, InRegions, FreeList, S.HeapOk, Parts;
    k.SlabFrames();
    NodesInSlabs(k.pmm.Ram(), k.heap.slabs, k.head, k.regs);
    PartsApart(k.managed, k.pmm.free, k.tree, k.heap.slabs, k.backing, k.direct);
    PartsManaged(k.managed, k.pmm.free, k.tree, k.heap.slabs, k.backing, k.direct);
    k.CoreAll();
  }

  lemma PartsManaged(managed: set<nat>, free: seq<nat>, tree: Tree, slabs: map<nat, S.Slab>, backing: map<nat, nat>, direct: set<nat>)
    requires Parts(managed, free, tree, slabs, backing, direct)
    ensures forall g :: g in slabs || g in direct ==> g in managed
  {}

  lemma SoundNow(k: Kernel)
    requires k.Valid() && Covers(k.regs, k.managed)
    ensures Sound(k.Now(), k.pml4, k.backing) && Root(k.tree, k.pml4) && NodesDistinct(k.regs)
    ensures |k.pmm.Ram()| == k.pmm.ram.Length && TreeOk(k.pmm.Ram(), k.tree)
    ensures forall i :: 0 <= i < |k.regs| ==> k.regs[i].f in k.heap.slabs
  {
    hide TreeOk, Leaf, Backed, Layout, InRegions, FreeList, S.HeapOk, Parts, WellMapped, Kernel.Valid;
    MappedNow(k);
  }

  /** Regions have the sizes of requests. */
  ghost predicate SizesOk(held: seq<Item>) {
    forall j :: 0 <= j < |held| && held[j].Big? ==> held[j].size <= MAX_REQUEST
  }

  lemma SizesWithout(held: seq<Item>, j: nat)
    requires SizesOk(held) && j < |held|
    ensures SizesOk(Without(held, j))
  {}

  /** Everything about the clients of a kernel whose direct map covers the managed frames. */
  ghost predicate Served(k: Kernel, held: seq<Item>, objs: seq<Object>, data: seq<seq<nat>>)
    reads k, k.heap, k.pmm, k.pmm.ram
  {
    && k.Valid() && Covers(k.regs, k.managed) && TreeOk(k.pmm.Ram(), k.tree) && k.pml4 in k.tree
    && Holding(k.Now(), k.pml4, held, objs, data) && Balanced(k.Now(), objs) && SizesOk(held)
  }

  /** Nothing held yet. */
  lemma ServedNone(k: Kernel)
    requires k.Valid() && Covers(k.regs, k.managed) && Balanced(k.Now(), [])
    ensures Served(k, [], [], [])
  {
    hide TreeOk, Leaf, Backed, Layout, InRegions, FreeList, S.HeapOk, Parts, ListOk, Balanced;
    SoundNow(k);
  }

  /** What `kmalloc` has done, for the new item. */
  ghost predicate Granted(v: View, v': View, it: Item, f: nat, k: nat, i: nat) {
    && S.Takes(v.slabs, v'.slabs, f, k) && !S.Live(v.slabs, f, k) && v'.direct == v.direct && |v'.ram| == |v.ram|
    && !it.Frame? && it.addr != NULL
    && (it.Small? ==> v'.regs == v.regs && it.size < 1024 && f in v'.slabs && v'.slabs[f].cls < S.CACHES
                      && it.addr == S.ObjAddr(f, v'.slabs[f].cls, k) && it.size <= S.Size(v'.slabs[f].cls) && Unused(v'.regs, f, k))
    && (it.Big? ==> it.size >= 1024 && 1 <= i < |v.regs| && i < |v'.regs| && v'.regs == Inserted(v.regs, i, v'.regs[i])
                    && v'.regs[i] == Region(it.addr, AlignUp(it.size), f, k))
  }

  lemma GrantedItem(v: View, v': View, it: Item, f: nat, k: nat, i: nat)
    requires Granted(v, v', it, f, k, i)
    ensures ItemOk(v', it, (f, k)) && RegionsGrow(v.regs, v'.regs, (f, k))
  {
    hide S.ObjAddr, Unused, AlignUp;
    TakesIt(v.slabs, v'.slabs, f, k);
    hide S.Live, S.Takes;
    if it.Big? {
      InsertedSize(v.regs, i, v'.regs[i]);
      hide Inserted;
      assert RegionAt(v'.regs, i, it.addr, it.size, (f, k));
      assert InsertedAt(v.regs, v'.regs, (f, k), i);
    }
  }

  lemma InsertedSize(regs: seq<Region>, i: nat, r: Region)
    requires i <= |regs|
    ensures |Inserted(regs, i, r)| == |regs| + 1
  {}

  lemma Allocated(v: View, v': View, r: nat, backing: map<nat, nat>, backing': map<nat, nat>,
                  held: seq<Item>, objs: seq<Object>, data: seq<seq<nat>>, it: Item, f: nat, k: nat, i: nat)
    requires Sound(v, r, backing) && Sound(v', r, backing') && Kept(v, v', r, {}) && Holding(v, r, held, objs, data)
    requires Balanced(v, objs) && Granted(v, v', it, f, k, i)
    ensures Holding(v', r, held + [it], objs + [(f, k)], data + [Snapshot(v', r, it, (f, k))]) && Balanced(v', objs + [(f, k)])
    ensures ItemOk(v', it, (f, k))
  {
    GrantedItem(v, v', it, f, k, i);
    assert TreeOk(v'.ram, v'.tree) && r in v'.tree;
    assert S.Takes(v.slabs, v'.slabs, f, k) && !S.Live(v.slabs, f, k) && v'.direct == v.direct && |v'.ram| == |v.ram|;
    TakesIt(v.slabs, v'.slabs, f, k);
    hide Sound, Kept, Balanced, ItemOk, RegionsGrow, S.Takes, S.Live, Contains, TreeOk, Snapshot, Granted;
    forall j | 0 <= j < |held| ensures ItemOk(v', held[j], objs[j]) {
      TakenKeepsItem(v, v', held[j], objs[j], f, k);
    }
    NewObject(v, v', r, backing', held, objs, f, k);
    TakenBalanced(v, v', objs, f, k);
    hide Holding;
    AddItem(v, v', r, backing, backing', held, objs, data, it, (f, k));
  }

  /** A new region contains zeros. */
  lemma FreshZero(v': View, r: nat, it: Item, o: Object, ram0: seq<Page>, tree0: Tree, free0: seq<nat>, backing0: map<nat, nat>, backing': map<nat, nat>)
    requires Sound(v', r, backing') && TreeOk(ram0, tree0) && r in tree0 && ItemOk(v', it, o) && it.Big?
    requires RangeBacked(ram0, tree0, free0, backing0, v'.ram, v'.tree, backing', r, PageOf(it.addr), AlignUp(it.size) / 4096, KERNEL_FLAGS)
    ensures forall w :: 0 <= w < |Snapshot(v', r, it, o)| ==> Snapshot(v', r, it, o)[w] == 0
  {
    assert TreeOk(v'.ram, v'.tree) && r in v'.tree;
    hide TreeOk, Leaf, PageOf, AlignUp, Sound, Place, ItemOk;
    var d := Snapshot(v', r, it, o);
    forall w: nat | w < |d| ensures d[w] == 0 {
      PlaceIsHome(v', r, backing', it, o, w);
      var q := PageOf(it.addr) + w / 512;
      assert Fresh(v'.ram, Leaf(v'.ram, v'.tree, r, q), KERNEL_FLAGS, free0, backing');
      assert WordAt(v'.ram, Place(v', r, it, w)) == d[w];
    }
  }

  /** `kmalloc` by a client. */
  method RunMalloc(k: Kernel, size: U64, held: seq<Item>, ghost objs: seq<Object>, ghost data: seq<seq<nat>>)
    returns (ok: bool, held': seq<Item>, ghost objs': seq<Object>, ghost d: seq<nat>)
    requires Served(k, held, objs, data) && size <= MAX_REQUEST
    modifies k, k.heap, k.pmm, k.pmm.ram
    ensures ok ==> Served(k, held', objs', data + [d]) && FreshOk(Malloc(size), d)
    ensures !ok ==> k.pmm.free == [] || (size >= 1024 && NoRoom(k.regs, size))
  {
    hide Kept, Sound, ItemOk, Items, Holding, Balanced, S.Takes, S.Live, FirstFit, AlignUp, Unused, Inserted, RangeBacked, NoRoom, TreeOk,
         PageOf, S.ObjAddr, Snapshot, Kernel.Valid, Covers;
    ghost var v, backing, ram0, tree0, free0 := k.Now(), k.backing, k.pmm.Ram(), k.tree, k.pmm.free;
    SoundNow(k);
    var addr; ghost var f, o, i;
    ok, addr, f, o, i := k.KMalloc(size);
    held', objs', d := held, objs, [];
    if ok {
      if size >= 1024 {
        CoversInserted(v.regs, k.managed, i, k.regs[i]);
      }
      SoundNow(k);
      KeptSize(v, k.Now(), k.pml4);
      var it := if size < 1024 then Small(addr, size) else Big(addr, size);
      assert Granted(v, k.Now(), it, f, o, i);
      Allocated(v, k.Now(), k.pml4, backing, k.backing, held, objs, data, it, f, o, i);
      held', objs', d := held + [it], objs + [(f, o)], Snapshot(k.Now(), k.pml4, it, (f, o));
      ItemFits(k.Now(), it, (f, o));
      if size >= 1024 {
        FreshZero(k.Now(), k.pml4, it, (f, o), ram0, tree0, free0, backing, k.backing);
      }
    }
  }

  lemma KeptSize(v: View, v': View, r: nat)
    requires Kept(v, v', r, {})
    ensures |v'.ram| == |v.ram|
  {}

  /** A heap item that is given back. */
  lemma Released(v: View, v': View, r: nat, backing: map<nat, nat>, backing': map<nat, nat>,
                 held: seq<Item>, objs: seq<Object>, data: seq<seq<nat>>, j: nat)
    requires Sound(v, r, backing) && Sound(v', r, backing') && Kept(v, v', r, {}) && Holding(v, r, held, objs, data)
    requires Balanced(v, objs) && j < |held| && NodesDistinct(v.regs)
    requires S.Takes(v'.slabs, v.slabs, objs[j].0, objs[j].1) && !S.Live(v'.slabs, objs[j].0, objs[j].1)
    requires RegionsShrink(v.regs, v'.regs, objs[j]) && v'.direct == v.direct && Unused(v'.regs, objs[j].0, objs[j].1)
    ensures Holding(v', r, Without(held, j), Without(objs, j), Without(data, j)) && Balanced(v', Without(objs, j))
  {
    KeptSize(v, v', r);
    assert TreeOk(v'.ram, v'.tree) && r in v'.tree;
    assert forall g :: g in v.direct ==> g !in v.slabs;
    hide Sound, Kept, Balanced, ItemOk, RegionsShrink, S.Takes, S.Live, Contains, TreeOk, NodesDistinct, Unused, Without;
    forall l | 0 <= l < |held| && l != j ensures ItemOk(v', held[l], objs[l]) {
      assert objs[l] != objs[j] by { if l < j { assert objs[l] != objs[j]; } else { assert objs[j] != objs[l]; } }
      GivenKeepsItem(v, v', held[l], objs[l], objs[j].0, objs[j].1);
    }
    GivenBalanced(v, v', objs, j);
    hide Holding;
    DropItem(v, v', r, backing, backing', held, objs, data, j);
  }

  /** A frame that is given back. */
  lemma FrameReleased(v: View, v': View, r: nat, backing: map<nat, nat>, backing': map<nat, nat>,
                      held: seq<Item>, objs: seq<Object>, data: seq<seq<nat>>, j: nat)
    requires Sound(v, r, backing) && Sound(v', r, backing') && Kept(v, v', r, {}) && Holding(v, r, held, objs, data)
    requires Balanced(v, objs) && j < |held| && held[j].Frame? && forall i :: 0 <= i < |v.regs| ==> v.regs[i].f in v.slabs
    requires v'.slabs == v.slabs && v'.regs == v.regs && v'.direct == v.direct - {held[j].f}
    ensures Holding(v', r, Without(held, j), Without(objs, j), Without(data, j)) && Balanced(v', Without(objs, j))
  {
    KeptSize(v, v', r);
    var f := held[j].f;
    assert objs[j] == (f, 0) && f in v.direct && f !in v.slabs by { assert ItemOk(v, held[j], objs[j]); }
    assert TreeOk(v'.ram, v'.tree) && r in v'.tree;
    hide Sound, Kept, Contains, TreeOk, Without;
    forall l | 0 <= l < |held| && l != j ensures ItemOk(v', held[l], objs[l]) {
      assert objs[l] != objs[j] by { if l < j { assert objs[l] != objs[j]; } else { assert objs[j] != objs[l]; } }
      FramesKeepItem(v, v', held[l], objs[l]);
    }
    WithoutHas(objs, j);
    FrameBalanced(v, v', objs, j, f);
    hide Holding, ItemOk, Balanced;
    DropItem(v, v', r, backing, backing', held, objs, data, j);
  }

  lemma FrameBalanced(v: View, v': View, objs: seq<Object>, j: nat, f: nat)
    requires Balanced(v, objs) && j < |objs| && objs[j] == (f, 0) && f !in v.slabs && Distinct(objs)
    requires v'.slabs == v.slabs && v'.regs == v.regs && v'.direct == v.direct - {f}
    requires forall i :: 0 <= i < |v.regs| ==> v.regs[i].f in v.slabs
    ensures Balanced(v', Without(objs, j))
  {
    WithoutHas(objs, j);
    hide Without, Unused;
  }

  /** `kfree`, or `pmm_free_singlep`, by the client that holds the item. */
  method RunRelease(k: Kernel, j: nat, held: seq<Item>, ghost objs: seq<Object>, ghost data: seq<seq<nat>>)
    returns (held': seq<Item>, ghost objs': seq<Object>, ghost data': seq<seq<nat>>)
    requires Served(k, held, objs, data) && j < |held|
    modifies k, k.heap, k.pmm, k.pmm.ram
    ensures Served(k, held', objs', data') && data' == Without(data, j)
  {
    hide Kept, Sound, Balanced, S.Takes, S.Live, AlignUp, Unused, Removed, TreeOk, PageOf, S.ObjAddr, Contains, Kernel.Valid, Without,
         NodesDistinct, FramesBehind, RangeReleased, Covers;
    ghost var v, backing := k.Now(), k.backing;
    SoundNow(k);
    ghost var o := objs[j];
    assert ItemOk(v, held[j], o);
    held', objs', data' := Without(held, j), Without(objs, j), Without(data, j);
    SizesWithout(held, j);
    hide SizesOk;
    match held[j] {
      case Frame(f) =>
        k.GiveFrame(f);
        SoundNow(k);
        FrameReleased(v, k.Now(), k.pml4, backing, k.backing, held, objs, data, j);
      case Small(addr, size) =>
        k.KFree(addr, size, o.0, o.1, 0);
        SoundNow(k);
        Released(v, k.Now(), k.pml4, backing, k.backing, held, objs, data, j);
      case Big(addr, size) =>
        ghost var i: nat :| 0 < i < |k.regs| - 1 && RegionAt(k.regs, i, addr, size, o);
        k.KFree(addr, size, o.0, o.1, i);
        CoversRemoved(v.regs, k.managed, i);
        SoundNow(k);
        assert RemovedAtNode(v.regs, k.regs, o, i);
        NodeNotSelf(v.regs, i);
        Released(v, k.Now(), k.pml4, backing, k.backing, held, objs, data, j);
    }
  }

  /** `pmm_alloc_singlep` by a client. */
  method RunTake(k: Kernel, held: seq<Item>, ghost objs: seq<Object>, ghost data: seq<seq<nat>>)
    returns (ok: bool, held': seq<Item>, ghost objs': seq<Object>, ghost d: seq<nat>)
    requires Served(k, held, objs, data)
    modifies k, k.heap, k.pmm, k.pmm.ram
    ensures ok ==> Served(k, held', objs', data + [d]) && |d| == 512
    ensures !ok ==> k.pmm.free == []
  {
    hide Kept, Sound, S.Takes, S.Live, Unused, TreeOk, Contains, Kernel.Valid, Snapshot, Covers;
    ghost var v, backing := k.Now(), k.backing;
    SoundNow(k);
    var f;
    ok, f := k.TakeFrame();
    held', objs', d := held, objs, [];
    if ok {
      SoundNow(k);
      KeptSize(v, k.Now(), k.pml4);
      held', objs', d := held + [Frame(f)], objs + [(f, 0)], Snapshot(k.Now(), k.pml4, Frame(f), (f, 0));
      FrameTaken(v, k.Now(), k.pml4, backing, k.backing, held, objs, data, f);
    }
  }

  lemma FrameTaken(v: View, v': View, r: nat, backing: map<nat, nat>, backing': map<nat, nat>,
                   held: seq<Item>, objs: seq<Object>, data: seq<seq<nat>>, f: nat)
    requires Sound(v, r, backing) && Sound(v', r, backing') && Kept(v, v', r, {}) && Holding(v, r, held, objs, data)
    requires Balanced(v, objs) && f !in v.direct && 0 < f < |v.ram|
    requires v'.slabs == v.slabs && v'.regs == v.regs && v'.direct == v.direct + {f}
    ensures Holding(v', r, held + [Frame(f)], objs + [(f, 0)], data + [Snapshot(v', r, Frame(f), (f, 0))]) && Balanced(v', objs + [(f, 0)])
    ensures |Snapshot(v', r, Frame(f), (f, 0))| == 512
  {
    KeptSize(v, v', r);
    assert TreeOk(v'.ram, v'.tree) && r in v'.tree;
    hide Sound, Kept, TreeOk, S.Live, Unused, Snapshot, Place;
    assert Contains(v', r, Frame(f), (f, 0), Snapshot(v', r, Frame(f), (f, 0)));
    forall j | 0 <= j < |held| ensures ItemOk(v', held[j], objs[j]) {
      FramesKeepItem(v, v', held[j], objs[j]);
    }
    NewFrame(v, v', r, backing', held, objs, f);
    assert (objs + [(f, 0)])[|objs|] == (f, 0);
    assert forall x :: x in objs ==> x in objs + [(f, 0)];
    assert Balanced(v', objs + [(f, 0)]);
    hide Holding, Balanced, Contains;
    AddItem(v, v', r, backing, backing', held, objs, data, Frame(f), (f, 0));
  }

  /** The size of an item in words, as the kernel can tell it: from the slab header, or by rounding up. */
  method Capacity(k: Kernel, it: Item, ghost o: Object) returns (n: nat)
    requires k.Valid() && ItemOk(k.Now(), it, o) && (it.Big? ==> it.size <= MAX_REQUEST)
    ensures n == Words(k.Now(), it, o)
  {
    hide TreeOk, Leaf, Backed, Layout, InRegions, FreeList, S.HeapOk, ListOk, Parts, AlignUpMask, AlignUp;
    match it {
      case Frame(_) => n := 512;
      case Small(addr, _) =>
        ghost var c := k.heap.slabs[o.0].cls;
        S.SlabFacts(k.pmm.Ram(), k.heap.cache, k.heap.slabs, k.heap.chains, o.0);
        S.SizeInHeader(k.pmm.ram[o.0], o.0, c, k.heap.slabs[o.0].free);
        S.PointerParts(o.0, c, o.1);
        n := k.pmm.ram[FrameOf(addr)][0] / 8;
      case Big(_, size) =>
        AlignUpMaskIs(size);
        n := AlignUpMask(size) / 4096 * 512;
    }
  }

  /** Where the machine finds word `w` of an item: in the direct map, or through the page tables. */
  method Locate(k: Kernel, it: Item, w: nat, ghost o: Object) returns (g: nat, x: nat)
    requires k.Valid() && Covers(k.regs, k.managed) && ItemOk(k.Now(), it, o) && w < Words(k.Now(), it, o)
    requires TreeOk(k.pmm.Ram(), k.tree) && k.pml4 in k.tree
    ensures (g, x) == Place(k.Now(), k.pml4, it, w)
  {
    hide TreeOk, Leaf, Backed, Layout, InRegions, FreeList, S.HeapOk, ListOk, Parts, AlignUp, PageOf, S.ObjAddr, Place, Sound;
    SoundNow(k);
    PlaceIsHome(k.Now(), k.pml4, k.backing, it, o, w);
    match it {
      case Frame(f) => g, x := f, w;
      case Small(addr, _) =>
        S.PointerParts(o.0, k.heap.slabs[o.0].cls, o.1);
        SmallAddress(addr, o, k.heap.slabs[o.0].cls);
        g, x := FrameOf(addr), S.WordOf(addr) + w;
      case Big(addr, size) =>
        ghost var i: nat :| 0 < i < |k.regs| - 1 && RegionAt(k.regs, i, addr, size, o);
        BigAddress(k.regs, i, addr, size, o, w);
        var phys := VirtToPhys(k.pmm, k.pml4, addr + w / 512 * 4096, k.tree);
        g, x := phys / 4096, w % 512;
    }
  }

  lemma SmallAddress(addr: nat, o: Object, c: nat)
    requires c < S.CACHES && addr == S.ObjAddr(o.0, c, o.1)
    ensures addr >= HHDM
  {}

  lemma BigAddress(regs: seq<Region>, i: nat, addr: nat, size: nat, o: Object, w: nat)
    requires Layout(regs) && 0 < i < |regs| - 1 && RegionAt(regs, i, addr, size, o) && w < AlignUp(size) / 4096 * 512
    ensures addr + w / 512 * 4096 < U64_SIZE && PageOf(addr + w / 512 * 4096) == PageOf(addr) + w / 512
  {
    LayoutOrdered(regs, i, |regs| - 1);
    assert Aligned(regs[i]);
    hide AlignUp;
    assert w / 512 < AlignUp(size) / 4096 && AlignUp(size) % 4096 == 0;
    assert w / 512 * 4096 < AlignUp(size);
    PageRange(addr, w / 512, addr + w / 512 * 4096);
  }

  /** A client's store of one word; beyond the end of the item it is not done. */
  method RunStore(k: Kernel, j: nat, w: nat, x: nat, held: seq<Item>, ghost objs: seq<Object>, ghost data: seq<seq<nat>>)
    returns (ghost data': seq<seq<nat>>)
    requires Served(k, held, objs, data) && j < |held|
    modifies k.pmm.ram
    ensures Served(k, held, objs, data') && data' == data[j := Stored(data[j], w, x)]
  {
    hide TreeOk, S.Live, Unused, PageOf, S.ObjAddr, Kernel.Valid, Sound, S.InObject, Leaf, Place, Words, AlignUp, Covers;
    ghost var v := k.Now();
    SoundNow(k);
    ghost var o := objs[j];
    assert ItemOk(v, held[j], o) && Contains(v, k.pml4, held[j], o, data[j]);
    data' := data[j := Stored(data[j], w, x)];
    var n := Capacity(k, held[j], o);
    if w < n {
      PlaceOwner(v, k.pml4, k.backing, held[j], o, w);
      var g, y := Locate(k, held[j], w, o);
      SmallOwner(v, held[j], o);
      hide ItemOk, Contains;
      k.ClientStore(g, y, x, o.1);
      SoundNow(k);
      StoreItem(v, k.Now(), k.pml4, k.backing, held, objs, data, j, w, x);
      hide Holding;
    } else {
      assert data' == data;
    }
  }

  lemma SmallOwner(v: View, it: Item, o: Object)
    requires ItemOk(v, it, o)
    ensures it.Small? ==> S.Live(v.slabs, o.0, o.1) && Unused(v.regs, o.0, o.1)
  {}

  /** The sizes of requests the page loops can count. */
  ghost predicate Requests(ops: seq<Op>) {
    forall n :: 0 <= n < |ops| && ops[n].Malloc? ==> ops[n].size <= MAX_REQUEST
  }

  /** The only reasons for the source to halt: no free frame is left, or no gap takes the region asked for. */
  ghost predicate HaltsRightly(k: Kernel, op: Op)
    reads k, k.pmm
  {
    k.pmm.free == [] || (op.Malloc? && op.size >= 1024 && NoRoom(k.regs, op.size))
  }

  /** One request. */
  method Serve(k: Kernel, op: Op, held: seq<Item>, ghost objs: seq<Object>, ghost data: seq<seq<nat>>)
    returns (ok: bool, held': seq<Item>, ghost objs': seq<Object>, ghost d: seq<nat>)
    requires Served(k, held, objs, data) && (op.Malloc? ==> op.size <= MAX_REQUEST)
    modifies k, k.heap, k.pmm, k.pmm.ram
    ensures ok ==> Served(k, held', objs', IdealStep(data, op, d)) && FreshOk(op, d)
    ensures !ok ==> HaltsRightly(k, op)
  {
    hide Served, NoRoom;
    ok, held', objs', d := true, held, objs, [];
    SameLength(k, held, objs, data);
    match op {
      case Malloc(size) =>
        ok, held', objs', d := RunMalloc(k, size, held, objs, data);
      case TakeFrame =>
        ok, held', objs', d := RunTake(k, held, objs, data);
      case Release(n) =>
        if n < |held| {
          ghost var data';
          held', objs', data' := RunRelease(k, n, held, objs, data);
        }
      case Store(n, w, x) =>
        if n < |held| {
          ghost var data' := RunStore(k, n, w, x, held, objs, data);
        }
    }
  }

  lemma SameLength(k: Kernel, held: seq<Item>, objs: seq<Object>, data: seq<seq<nat>>)
    requires Served(k, held, objs, data)
    ensures |held| == |objs| == |data|
  {
    hide Kernel.Valid;
  }

  /** Any run of requests, up to the first halt, on a kernel whose direct map covers the managed frames. The kernel's invariant is kept, so every managed frame
      has exactly one owner; every item its clients hold is theirs, at least as large as asked for, and
      contains what they last stored there; what nobody holds is free. In other words, the memory of the
      clients behaves like separate arrays, whatever order they come and go in. */
  method Run(k: Kernel, ops: seq<Op>)
    returns (done: nat, held: seq<Item>, ghost objs: seq<Object>, ghost data: seq<seq<nat>>, ghost first: seq<seq<nat>>)
    requires k.Valid() && Covers(k.regs, k.managed) && Balanced(k.Now(), []) && Requests(ops)
    modifies k, k.heap, k.pmm, k.pmm.ram
    ensures done <= |ops| && |first| == done && forall n :: 0 <= n < done ==> FreshOk(ops[n], first[n])
    ensures done < |ops| ==> HaltsRightly(k, ops[done])
    ensures done == |ops| ==> Served(k, held, objs, data) && data == Ideal(ops, first)
  {
    hide Served, FreshOk, IdealStep, Kernel.Valid, Balanced, HaltsRightly, Covers;
    ServedNone(k);
    done, held, objs, data, first := 0, [], [], [], [];
    while done < |ops|
      invariant done <= |ops| && |first| == done && forall n :: 0 <= n < done ==> FreshOk(ops[n], first[n])
      invariant Served(k, held, objs, data) && data == Ideal(ops[..done], first)
    {
      var ok; ghost var d;
      ok, held, objs, d := Serve(k, ops[done], held, objs, data);
      if !ok { return; }
      IdealNext(ops, first, done, d);
      data, first, done := IdealStep(data, ops[done], d), first + [d], done + 1;
    }
    assert ops[..done] == ops;
  }

  /** From boot on: the frame list, the slabs, the kernel's page tables and its two regions are set up,
      and then clients run. Usable memory must end no higher than what `vmm_init` counts. */
  method BootAndRun(memory: array<Page>, entries: seq<MapEntry>, kernelBase: nat, kernelBytes: nat, ops: seq<Op>)
    returns (up: bool, k: Kernel, done: nat, held: seq<Item>, ghost objs: seq<Object>, ghost data: seq<seq<nat>>, ghost first: seq<seq<nat>>)
    requires Bootable(memory.Length, entries, kernelBase) && Requests(ops)
    requires TopUsable(entries) <= CountedFrames(entries)
    modifies memory
    ensures k.managed == Elems(UsableFrames(entries))
    ensures !up ==> k.pmm.free == []
    ensures done <= |ops| && |first| == done && forall n :: 0 <= n < done ==> FreshOk(ops[n], first[n])
    ensures up && done < |ops| ==> HaltsRightly(k, ops[done])
    ensures up && done == |ops| ==> Served(k, held, objs, data) && data == Ideal(ops, first)
  {
    hide Served, FreshOk, Kernel.Valid, HaltsRightly, Ideal, UsableFrames, Elems, Covers, TopUsable, CountedFrames, Requests, Bootable;
    up, k := Boot(memory, entries, kernelBase, kernelBytes);
    done, held, objs, data, first := 0, [], [], [], [];
    if up {
      done, held, objs, data, first := Run(k, ops);
    }
  }

  /** What the boot loader hands over. */
  ghost predicate Bootable(frames: nat, entries: seq<MapEntry>, kernelBase: nat) {
    && frames <= MAX_FRAMES && GoodMap(entries, frames) && |UsableFrames(entries)| >= S.CACHES + 1
    && HHDM + 4096 * CountedFrames(entries) <= kernelBase < U64_SIZE
  }

  /** `pmm_init` and `vmm_init`. The first region is the direct map; it covers the managed frames exactly
      if usable memory ends no higher than what has been counted. */
  method Boot(memory: array<Page>, entries: seq<MapEntry>, kernelBase: nat, kernelBytes: nat) returns (up: bool, k: Kernel)
    requires Bootable(memory.Length, entries, kernelBase)
    modifies memory
    ensures fresh(k) && fresh(k.heap) && fresh(k.pmm) && k.pmm.ram == memory && k.managed == Elems(UsableFrames(entries))
    ensures !up ==> k.pmm.free == []
    ensures up ==> k.Valid() && Balanced(k.Now(), []) && |k.regs| == 2 && k.regs[0].length == 4096 * CountedFrames(entries)
    ensures up ==> k.regs[1].base == kernelBase
    ensures up ==> (Covers(k.regs, k.managed) <==> TopUsable(entries) <= CountedFrames(entries))
  {
    hide Kernel.Valid, Kernel.Core, FreeList, S.Live, UsableFrames, Elems, Covers, TopUsable, CountedFrames;
    var pmm := new Allocator(memory, entries);
    k := new Kernel(pmm);
    up := k.InitRegions(entries, kernelBase, kernelBytes);
    if up {
      assert Balanced(k.Now(), []);
      FirstBase(k);
      CoversUsable(entries, k.regs, k.managed);
    }
  }

  lemma FirstBase(k: Kernel)
    requires k.Valid()
    ensures |k.regs| >= 2 && k.regs[0].base == HHDM
  {}

  // --- Addresses -------------------------------------------------------------------------------

  /** The addresses of two items do not overlap either. */
  lemma AddressesDisjoint(v: View, r: nat, backing: map<nat, nat>, held: seq<Item>, objs: seq<Object>, i: nat, j: nat)
    requires Sound(v, r, backing) && Items(v, held, objs) && i < |held| && j < |held| && i != j
    ensures var a, b := AddressOf(held[i]), AddressOf(held[j]);
            a + 8 * Words(v, held[i], objs[i]) <= b || b + 8 * Words(v, held[j], objs[j]) <= a
  {
    hide TreeOk, Leaf, Backed, InRegions, Words;
    assert objs[i] != objs[j] by {
      if i < j { assert objs[i] != objs[j]; } else { assert objs[j] != objs[i]; }
    }
    hide ItemOk;
    Extent(v, r, backing, held[i], objs[i]);
    Extent(v, r, backing, held[j], objs[j]);
    if held[i].Big? && held[j].Big? {
      BigsApart(v, held[i], objs[i], held[j], objs[j]);
    } else if !held[i].Big? && !held[j].Big? {
      DirectsApart(v, r, backing, held[i], objs[i], held[j], objs[j]);
    }
  }

  /** Small items and frames lie inside the direct map's region, the others behind it. */
  lemma Extent(v: View, r: nat, backing: map<nat, nat>, it: Item, o: Object)
    requires Sound(v, r, backing) && ItemOk(v, it, o)
    ensures !it.Big? ==> Virt(o.0) <= AddressOf(it) && AddressOf(it) + 8 * Words(v, it, o) <= Virt(o.0 + 1) <= v.regs[0].base + v.regs[0].length
    ensures it.Big? ==> it.addr >= v.regs[0].base + v.regs[0].length
  {
    hide TreeOk, Leaf, Backed, InRegions, AlignUp, Unused;
    if it.Big? {
      var i: nat :| 0 < i < |v.regs| - 1 && RegionAt(v.regs, i, it.addr, it.size, o);
      LayoutOrdered(v.regs, 0, i);
    } else {
      if it.Small? {
        S.ObjectsInside(v.slabs[o.0].cls, o.1);
      }
      assert Aligned(v.regs[0]);
      hide Layout, S.Live;
      WholeFrame(v.regs[0], o.0);
    }
  }

  lemma WholeFrame(r: Region, f: nat)
    requires Aligned(r) && Virt(f) < r.base + r.length
    ensures Virt(f + 1) <= r.base + r.length
  {}

  lemma DirectsApart(v: View, r: nat, backing: map<nat, nat>, it: Item, o: Object, it': Item, o': Object)
    requires Sound(v, r, backing) && ItemOk(v, it, o) && ItemOk(v, it', o') && !it.Big? && !it'.Big? && o != o'
    ensures AddressOf(it) + 8 * Words(v, it, o) <= AddressOf(it') || AddressOf(it') + 8 * Words(v, it', o') <= AddressOf(it)
  {
    Extent(v, r, backing, it, o);
    Extent(v, r, backing, it', o');
    hide TreeOk, Leaf, Backed, InRegions, Unused, Words;
    if it.Small? && it'.Small? {
      S.LiveObjectsDisjoint(v.slabs, o.0, o.1, o'.0, o'.1);
      SmallSize(v, it, o);
      SmallSize(v, it', o');
    }
  }

  lemma SmallSize(v: View, it: Item, o: Object)
    requires ItemOk(v, it, o) && it.Small?
    ensures o.0 in v.slabs && v.slabs[o.0].cls < S.CACHES && 8 * Words(v, it, o) == S.Size(v.slabs[o.0].cls)
  {
    hide Unused, S.ObjAddr;
  }

  lemma BigsApart(v: View, it: Item, o: Object, it': Item, o': Object)
    requires ItemOk(v, it, o) && ItemOk(v, it', o') && it.Big? && it'.Big? && o != o' && Layout(v.regs)
    ensures it.addr + 8 * Words(v, it, o) <= it'.addr || it'.addr + 8 * Words(v, it', o') <= it.addr
  {
    hide S.Live, Layout;
    var i: nat :| 0 < i < |v.regs| - 1 && RegionAt(v.regs, i, it.addr, it.size, o);
    var j: nat :| 0 < j < |v.regs| - 1 && RegionAt(v.regs, j, it'.addr, it'.size, o');
    if i < j {
      LayoutOrdered(v.regs, i, j);
    } else {
      LayoutOrdered(v.regs, j, i);
    }
  }

  // --- A direct map that is too short ----------------------------------------------------------

  /** Without that condition, for every boot: the first region of 1024 bytes or more starts where what has
      been counted ends. That is the address of a frame in the direct map if and only if there is memory
      beyond, and of the managed frames exactly those that lie in its range are hidden behind it. */
  method BootAndAllocate(memory: array<Page>, entries: seq<MapEntry>, kernelBase: nat, kernelBytes: nat, size: U64)
    returns (up: bool, ok: bool, addr: nat, k: Kernel)
    requires Bootable(memory.Length, entries, kernelBase) && 1024 <= size <= MAX_REQUEST
    modifies memory
    ensures k.managed == Elems(UsableFrames(entries)) && (ok ==> up)
    ensures up && !ok ==> k.pmm.free == [] || HHDM + 4096 * CountedFrames(entries) + AlignUp(size) + 0x1000 > kernelBase
    ensures ok ==> addr == Virt(CountedFrames(entries))
    ensures ok ==> ((exists f: nat :: f < memory.Length && addr == Virt(f)) <==> CountedFrames(entries) < memory.Length)
    ensures ok ==> forall f :: f in k.managed ==>
                     (PageOf(Virt(f)) in k.pages <==> CountedFrames(entries) <= f < CountedFrames(entries) + AlignUp(size) / 4096)
  {
    hide Kernel.Valid, UsableFrames, Elems, Covers, TopUsable, Balanced, NoRoom, PageOf, S.Takes, S.Live, Unused, Kept,
         RangeBacked, TreeOk, CountedFrames, GoodMap;
    up, k := Boot(memory, entries, kernelBase, kernelBytes);
    ok, addr := false, NULL;
    if up {
      ghost var regs, c, n := k.regs, CountedFrames(entries), AlignUp(size) / 4096;
      FirstBase(k);
      ghost var f, o, i;
      ok, addr, f, o, i := k.KMalloc(size);
      if ok {
        FirstGap(regs, k.regs, i, c);
        assert addr == Virt(c);
        assert AlignUp(size) == 4096 * n;
        hide AlignUp;
        UsableSmall(entries, k.managed, memory.Length);
        AllHidden(k, k.managed, c, n);
        IsVirt(addr, c, memory.Length);
      } else if k.pmm.free != [] {
        OnlyGap(k.regs, size);
      }
    }
  }

  lemma FirstGap(regs: seq<Region>, regs': seq<Region>, i: nat, c: nat)
    requires |regs| == 2 && regs[0].base == HHDM && regs[0].length == 4096 * c
    requires 1 <= i < |regs| && i < |regs'| && regs' == Inserted(regs, i, regs'[i])
    ensures i == 1 && |regs'| == 3
  {}

  lemma AllHidden(k: Kernel, managed: set<nat>, c: nat, n: nat)
    requires k.Valid() && |k.regs| == 3 && k.regs[1].base == Virt(c) && k.regs[1].length == 4096 * n
    requires forall f :: f in managed ==> f < MAX_FRAMES
    ensures forall f :: f in managed ==> (PageOf(Virt(f)) in k.pages <==> c <= f < c + n)
  {
    hide Kernel.Core, Layout, InRegions, PageOf, Virt;
    forall f | f in managed ensures PageOf(Virt(f)) in k.pages <==> c <= f < c + n {
      HiddenFrames(k.regs, k.pages, c, n, f);
    }
  }

  lemma UsableSmall(entries: seq<MapEntry>, all: set<nat>, frames: nat)
    requires GoodMap(entries, frames) && frames <= MAX_FRAMES && all == Elems(UsableFrames(entries))
    ensures forall f :: f in all ==> f < MAX_FRAMES
  {
    UsableFramesDistinct(entries, frames);
    forall f | f in all ensures f < MAX_FRAMES {
      assert f in UsableFrames(entries);
    }
  }

  lemma IsVirt(addr: nat, c: nat, frames: nat)
    requires addr == Virt(c)
    ensures (exists f: nat :: f < frames && addr == Virt(f)) <==> c < frames
  {}

  lemma OnlyGap(regs: seq<Region>, size: nat)
    requires |regs| == 2 && NoRoom(regs, size)
    ensures regs[0].base + regs[0].length + AlignUp(size) + 0x1000 > regs[1].base
  {
    assert Gap(regs, 1) < AlignUp(size) + 0x1000;
  }

  /** The frames whose pages of the direct map belong to the one region between the first and the last. */
  lemma HiddenFrames(regs: seq<Region>, pages: set<nat>, c: nat, n: nat, f: nat)
    requires Layout(regs) && |regs| == 3 && regs[1].base == Virt(c) && regs[1].length == 4096 * n && f < MAX_FRAMES
    requires forall p :: p in pages <==> InRegions(regs, p)
    ensures PageOf(Virt(f)) in pages <==> c <= f < c + n
  {
    LayoutOrdered(regs, 1, 2);
    assert Aligned(regs[1]);
    OverlaidPage(regs[1], f);
    hide Layout, InRegion, PageOf;
    assert InRegions(regs, PageOf(Virt(f))) <==> InRegion(regs[1], PageOf(Virt(f)));
  }

  /** What that does: a frame and a region share words, through the page of the region, if and only if the
      region is laid over the frame. */
  lemma OverlaidShares(v: View, r: nat, backing: map<nat, nat>, f: nat, o: Object, it: Item, o': Object)
    requires WellMapped(v, r, backing) && ItemOk(v, Frame(f), o) && ItemOk(v, it, o') && it.Big?
    ensures Overlaid(Region(it.addr, AlignUp(it.size), o'.0, o'.1), f) <==>
            exists x: nat, w: nat :: x < 512 && w < Words(v, it, o') && Place(v, r, Frame(f), x) == Place(v, r, it, w)
  {
    hide TreeOk, Leaf, Backed, Layout, InRegions, PageOf, EntryFrame, AlignUp, S.Live, Place;
    var i: nat :| 0 < i < |v.regs| - 1 && RegionAt(v.regs, i, it.addr, it.size, o');
    var reg := v.regs[i];
    RegionRange(v.regs, i);
    if Overlaid(reg, f) {
      var w := (Virt(f) - it.addr) / 8;
      Eighths(it.addr, Virt(f), w, AlignUp(it.size));
      SameAddress(v, r, f, it, w);
      assert Place(v, r, Frame(f), 0) == Place(v, r, it, w);
    }
    forall x: nat, w: nat | x < 512 && w < Words(v, it, o') && Place(v, r, Frame(f), x) == Place(v, r, it, w) ensures Overlaid(reg, f) {
      FrameUnder(v, r, backing, f, o, it, o', x, w);
      OverlaidPage(reg, f);
    }
  }

  lemma RegionRange(regs: seq<Region>, i: nat)
    requires Layout(regs) && i < |regs| - 1
    ensures Aligned(regs[i]) && regs[i].base + regs[i].length < U64_SIZE
  {
    LayoutOrdered(regs, i, |regs| - 1);
  }

  lemma SameAddress(v: View, r: nat, f: nat, it: Item, w: nat)
    requires TreeOk(v.ram, v.tree) && r in v.tree && it.Big? && it.addr + 8 * w == Virt(f)
    ensures Place(v, r, Frame(f), 0) == Place(v, r, it, w)
  {
    hide TreeOk, Reached;
  }

  lemma Eighths(a: nat, b: nat, w: nat, n: nat)
    requires a % 4096 == 0 && b % 4096 == 0 && n % 4096 == 0 && a <= b < a + n && w == (b - a) / 8
    ensures a + 8 * w == b && w < n / 4096 * 512
  {
    EighthsOf(a / 4096, b / 4096, n / 4096, w);
  }

  lemma EighthsOf(i: nat, j: nat, m: nat, w: nat)
    requires i <= j < i + m && w == (4096 * j - 4096 * i) / 8
    ensures 4096 * i + 8 * w == 4096 * j && w < m * 512
  {
    assert w == 512 * (j - i);
  }

  /** A word of a frame that is found in the frame behind a page of a region. */
  lemma FrameUnder(v: View, r: nat, backing: map<nat, nat>, f: nat, o: Object, it: Item, o': Object, x: nat, w: nat)
    requires WellMapped(v, r, backing) && ItemOk(v, Frame(f), o) && ItemOk(v, it, o') && it.Big?
    requires x < 512 && w < Words(v, it, o') && Place(v, r, Frame(f), x) == Place(v, r, it, w)
    ensures PageOf(it.addr) <= PageOf(Virt(f)) < PageOf(it.addr) + AlignUp(it.size) / 4096
  {
    hide TreeOk, Leaf, Layout, InRegions, RegionOf, PageOf, EntryFrame, AlignUp, S.Live;
    BigHome(v, r, backing, it, o', w);
    RegionAddress(v, it, o', w);
    FramePage(f, x);
  }

  /** A machine where this happens: memory up to 3 GiB and 16 GiB from 4 GiB on. What is counted ends in
      the upper part, at a frame of usable memory. */
  lemma DirectMapTooShort(memory: nat)
    requires memory == 0x50_0000
    ensures var entries := [MapEntry(1, 0xB_FFFF, Usable), MapEntry(0x10_0000, 0x40_0000, Usable)];
            && Bootable(memory, entries, 0xFFFF_FFFF_8000_0000)
            && CountedFrames(entries) == 0x2B_FFFF && TopUsable(entries) == 0x50_0000 && CountedFrames(entries) in UsableFrames(entries)
  {
    var low, high := MapEntry(1, 0xB_FFFF, Usable), MapEntry(0x10_0000, 0x40_0000, Usable);
    var entries := [low, high];
    hide CountedFrames, TopUsable, UsableFrames;
    TwoEntries(low, high);
    assert GoodMap(entries, memory);
    hide GoodMap;
    UsableFramesIn(entries, 0x2B_FFFF);
    assert entries[1].usable && entries[1].base <= 0x2B_FFFF < entries[1].base + entries[1].length;
  }

  lemma TwoEntries(a: MapEntry, b: MapEntry)
    requires a.usable && b.usable && a.base + a.length <= b.base && b.length > 0
    ensures CountedFrames([a, b]) == FOUR_GIB + Counted(a) + Counted(b) && TopUsable([a, b]) == b.base + b.length
    ensures |UsableFrames([a, b])| == a.length + b.length
  {
    assert [a, b][..1] == [a] && [a][..0] == [];
    hide FramesOf;
    assert CountedFrames([a]) == FOUR_GIB + Counted(a);
    assert TopUsable([a]) == a.base + a.length;
    assert |UsableFrames([a])| == a.length;
  }
}
