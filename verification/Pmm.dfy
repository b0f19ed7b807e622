/** The physical frame allocator (kernel/src/pmm.c): a free list threaded through
    the free frames themselves, each frame holding the pointer to the next one. */
module Pmm {
  import opened Bits
  import opened Collections

  /** A 4 KiB frame as 512 words of 64 bits. */
  type Page = p: seq<nat> | |p| == 512 witness seq(512, _ => 0)

  /** A frame of zeros. */
  function ZeroPage(): (p: Page)
    ensures forall i :: 0 <= i < 512 ==> p[i] == 0
  {
    seq(512, _ => 0)
  }

  /** Start of the higher-half direct map, which maps all of physical memory. */
  const HHDM: nat := 0xFFFF_8000_0000_0000
  /** The number of frames the direct map has room for below 2^64. */
  const MAX_FRAMES: nat := 0x8_0000_0000
  const NULL: nat := 0

  /** Address of frame `f` in the direct map. */
  function Virt(f: nat): nat {
    HHDM + 4096 * f
  }

  /** The frame a direct-map address lies in. */
  function FrameOf(addr: nat): nat
    requires addr >= HHDM
  {
    (addr - HHDM) / 4096
  }

  /** The pointer that leads to `list[k]`, or NULL past the end. */
  function Link(list: seq<nat>, k: nat): nat {
    if k < |list| then Virt(list[k]) else NULL
  }

  /** The first words of the frames `free[from..]` chain them together, ending in NULL. */
  ghost predicate Chained(ram: seq<Page>, free: seq<nat>) {
    forall k :: 0 <= k < |free| ==> free[k] < |ram| && ram[free[k]][0] == Link(free, k + 1)
  }

  /** `head` leads to exactly the frames of `free`: in range, never frame 0, none twice. */
  ghost predicate FreeList(ram: seq<Page>, head: nat, free: seq<nat>) {
    && |ram| <= MAX_FRAMES
    && head == Link(free, 0)
    && Chained(ram, free)
    && Distinct(free)
    && 0 !in free
  }

  /** Usable memory, the other kinds the kernel knows, and those it ignores. */
  datatype EntryKind = Usable | Mapped | Ignored

  /** An entry of the boot loader's memory map, in frames. */
  datatype MapEntry = MapEntry(base: nat, length: nat, kind: EntryKind) {
    const usable: bool := kind.Usable?
  }

  /** All frames of one entry, in address order. */
  function FramesOf(base: nat, length: nat): (s: seq<nat>)
    ensures |s| == length && forall i :: 0 <= i < length ==> s[i] == base + i
  {
    if length == 0 then [] else FramesOf(base, length - 1) + [base + length - 1]
  }

  /** The frames of all usable entries, in map order. */
  function UsableFrames(entries: seq<MapEntry>): seq<nat> {
    if |entries| == 0 then []
    else
      var last := entries[|entries| - 1];
      UsableFrames(entries[..|entries| - 1])
        + (if last.usable then FramesOf(last.base, last.length) else [])
  }

  /** What the boot loader promises about the map: usable entries are non-empty,
      inside memory, apart from each other, and do not include frame 0. */
  ghost predicate GoodMap(entries: seq<MapEntry>, frames: nat) {
    && (forall i :: 0 <= i < |entries| && entries[i].usable ==>
          0 < entries[i].base && 0 < entries[i].length && entries[i].base + entries[i].length <= frames)
    && (forall i, j :: 0 <= i < j < |entries| && entries[i].usable && entries[j].usable ==>
          entries[i].base + entries[i].length <= entries[j].base
          || entries[j].base + entries[j].length <= entries[i].base)
  }

  lemma {:induction false} UsableFramesIn(entries: seq<MapEntry>, f: nat)
    ensures f in UsableFrames(entries) <==>
            exists i :: 0 <= i < |entries| && entries[i].usable
                        && entries[i].base <= f < entries[i].base + entries[i].length
  {
    if |entries| > 0 {
      var n := |entries| - 1;
      var last := entries[n];
      UsableFramesIn(entries[..n], f);
      var s := FramesOf(last.base, last.length);
      if last.usable && last.base <= f < last.base + last.length {
        assert s[f - last.base] == f;
      }
      forall i | 0 <= i < n ensures entries[..n][i] == entries[i] {}
    }
  }

  /** The frames of `linked` chain together up to the last one, whose link is still open. */
  ghost predicate OpenChain(ram: seq<Page>, linked: seq<nat>) {
    && (forall k :: 0 <= k < |linked| ==> linked[k] < |ram|)
    && (forall k :: 0 <= k < |linked| - 1 ==> ram[linked[k]][0] == Virt(linked[k + 1]))
  }

  lemma ClosedIsOpen(ram: seq<Page>, linked: seq<nat>)
    requires Chained(ram, linked)
    ensures OpenChain(ram, linked)
  {}

  lemma ExtendChain(ram: seq<Page>, linked: seq<nat>, w: nat)
    requires OpenChain(ram, linked) && Distinct(linked) && linked != []
    ensures var p := linked[|linked| - 1];
            var ram' := ram[p := ram[p][0 := w]];
            && OpenChain(ram', linked)
            && (w == NULL ==> Chained(ram', linked))
            && (forall f: nat :: f < |ram| && w == Virt(f) ==> OpenChain(ram', linked + [f]))
  {}

  /** Boot: the free list holds every usable frame of a good map exactly once. */
  lemma {:induction false} UsableFramesDistinct(entries: seq<MapEntry>, frames: nat)
    requires GoodMap(entries, frames)
    ensures Distinct(UsableFrames(entries))
    ensures forall f :: f in UsableFrames(entries) ==> 0 < f < frames
  {
    if |entries| > 0 {
      var n := |entries| - 1;
      UsableFramesDistinct(entries[..n], frames);
      forall f | f in UsableFrames(entries[..n]) && entries[n].usable
        ensures f !in FramesOf(entries[n].base, entries[n].length)
      {
        UsableFramesIn(entries[..n], f);
      }
      if entries[n].usable {
        DistinctConcat(UsableFrames(entries[..n]), FramesOf(entries[n].base, entries[n].length));
      }
    }
  }

  /** Each usable entry adds its frames to those of the entries before it. */
  lemma {:induction false} EntryStep(entries: seq<MapEntry>, e: nat)
    requires e < |entries|
    ensures UsableFrames(entries[..e + 1])
            == UsableFrames(entries[..e]) + (if entries[e].usable then FramesOf(entries[e].base, entries[e].length) else [])
    ensures UsableFrames(entries[..e + 1]) <= UsableFrames(entries)
    decreases |entries|
  {
    var n := |entries| - 1;
    assert entries[..e + 1][..e] == entries[..e];
    if e < n {
      EntryStep(entries[..n], e);
      assert entries[..n][..e + 1] == entries[..e + 1];
    } else {
      assert entries[..e + 1] == entries;
    }
  }

  lemma {:induction false} FramesPrefix(base: nat, j: nat, length: nat)
    requires j <= length
    ensures FramesOf(base, j) <= FramesOf(base, length)
    decreases length
  {
    if j < length {
      FramesPrefix(base, j, length - 1);
    }
  }

  lemma FramesStep(start: seq<nat>, base: nat, j: nat, length: nat, all: seq<nat>)
    requires j < length && start + FramesOf(base, length) <= all && Distinct(all)
    ensures start + FramesOf(base, j) + [base + j] == start + FramesOf(base, j + 1)
    ensures Distinct(start + FramesOf(base, j + 1))
  {
    FramesPrefix(base, j + 1, length);
    assert start + FramesOf(base, j + 1) <= start + FramesOf(base, length) <= all;
    DistinctPrefix(start + FramesOf(base, j + 1), all);
  }

  class Allocator {
    const ram: array<Page>
    var head: nat
    /** The frames on the list, in list order. */
    ghost var free: seq<nat>

    ghost function Ram(): (s: seq<Page>)
      reads ram
      ensures |s| == ram.Length
    {
      ram[..]
    }

    ghost predicate Valid()
      reads this, ram
    {
      FreeList(Ram(), head, free)
    }

    /** One 64-bit store to physical memory. */
    method Poke(f: nat, i: nat, w: nat)
      requires f < ram.Length && i < 512
      modifies ram
      ensures Ram() == old(Ram())[f := old(Ram())[f][i := w]]
    {
      ram[f] := ram[f][i := w];
    }

    /** `pmm_init`: link the frames of every usable entry, in order. */
    constructor (memory: array<Page>, entries: seq<MapEntry>)
      requires memory.Length <= MAX_FRAMES
      requires GoodMap(entries, memory.Length)
      modifies memory
      ensures ram == memory && Valid()
      ensures free == UsableFrames(entries)
    {
      ram := memory;
      head := NULL;
      free := [];
      new;
      UsableFramesDistinct(entries, memory.Length);
      LinkEntries(entries);
    }

    /** The loop of `pmm_init` over the memory map. */
    method LinkEntries(entries: seq<MapEntry>)
      requires ram.Length <= MAX_FRAMES && head == NULL && free == []
      requires Distinct(UsableFrames(entries)) && GoodMap(entries, ram.Length)
      modifies this, ram
      ensures free == UsableFrames(entries)
      ensures head == Link(free, 0) && Chained(Ram(), free)
    {
      var prev := NULL;
      for e := 0 to |entries|
        invariant free == UsableFrames(entries[..e])
        invariant head == Link(free, 0)
        invariant prev == if free == [] then NULL else Virt(free[|free| - 1])
        invariant Chained(Ram(), free)
      {
        hide Distinct, Chained;
        EntryStep(entries, e);
        if entries[e].usable {
          prev := LinkEntry(entries[e].base, entries[e].length, prev, UsableFrames(entries));
        }
      }
      assert entries[..|entries|] == entries;
    }

    /** The loop of `pmm_init` over one usable entry. */
    method LinkEntry(base: nat, length: nat, prev: nat, ghost all: seq<nat>) returns (last: nat)
      requires length > 0 && base + length <= ram.Length <= MAX_FRAMES
      requires head == Link(free, 0) && Chained(Ram(), free)
      requires prev == if free == [] then NULL else Virt(free[|free| - 1])
      requires Distinct(all) && free + FramesOf(base, length) <= all
      modifies this, ram
      ensures free == old(free) + FramesOf(base, length)
      ensures head == Link(free, 0) && Chained(Ram(), free)
      ensures last == Virt(free[|free| - 1])
    {
      hide Distinct, OpenChain, Chained;
      ClosedIsOpen(Ram(), free);
      if head == NULL {
        head := Virt(base);
      }
      last := prev;
      ghost var start := free;
      for j := 0 to length
        invariant free == start + FramesOf(base, j)
        invariant head == if start == [] then Virt(base) else Virt(start[0])
        invariant last == if free == [] then NULL else Virt(free[|free| - 1])
        invariant OpenChain(Ram(), free)
      {
        FramesStep(start, base, j, length, all);
        last := Append(base + j, last, start + FramesOf(base, j + 1));
      }
      DistinctPrefix(free, all);
      Close(last);
    }

    /** `prev_node->next = NULL` */
    method Close(last: nat)
      requires free != [] && Distinct(free) && OpenChain(Ram(), free)
      requires last == Virt(free[|free| - 1])
      modifies ram
      ensures Chained(Ram(), free)
    {
      ExtendChain(Ram(), free, NULL);
      Poke(FrameOf(last), 0, NULL);
    }

    /** One turn of that loop: hang frame `f` behind the previous node, if there is one. */
    method Append(f: nat, prev: nat, ghost next: seq<nat>) returns (last: nat)
      requires f < ram.Length <= MAX_FRAMES
      requires prev == if free == [] then NULL else Virt(free[|free| - 1])
      requires next == free + [f] && Distinct(next) && OpenChain(Ram(), free)
      modifies this`free, ram
      ensures free == next && OpenChain(Ram(), free)
      ensures last == Virt(f)
    {
      last := Virt(f);
      if prev != NULL {
        DistinctPrefix(free, next);
        ExtendChain(Ram(), free, last);
        Poke(FrameOf(prev), 0, last);
      }
      free := next;
    }

    /** `pmm_alloc_singlep`: take the first free frame; None is the out-of-memory halt. */
    method AllocFrame() returns (ok: bool, f: nat)
      requires Valid()
      modifies this
      ensures Valid()
      ensures ok <==> old(free) != []
      ensures ram.Length <= MAX_FRAMES
      ensures !ok ==> free == old(free)
      ensures ok ==> old(free) == [f] + free && 0 < f < ram.Length && f !in free
    {
      if head != NULL {
        f := FrameOf(head);
        head := ram[f][0];
        free := free[1..];
        ok := true;
        assert old(free)[0] == f;
      } else {
        ok, f := false, 0;
      }
    }

    /** `pmm_free_singlep`: push a frame that is not on the list. */
    method FreeFrame(f: nat)
      requires Valid()
      requires 0 < f < ram.Length && f !in free
      modifies this, ram
      ensures Valid()
      ensures free == [f] + old(free)
      ensures Ram() == old(Ram())[f := old(Ram())[f][0 := old(head)]]
    {
      ghost var before := Ram();
      Poke(f, 0, head);
      head := Virt(f);
      forall k | 0 <= k < |free| + 1
        ensures Ram()[([f] + free)[k]][0] == Link([f] + free, k + 1)
      {
        if k > 0 {
          assert Ram()[free[k - 1]] == before[free[k - 1]];
        }
      }
      free := [f] + free;
    }

    /** A `memcpy` or `memset` over a frame that is not free. */
    method StorePage(f: nat, page: Page)
      requires Valid()
      requires f < ram.Length && f !in free
      modifies ram
      ensures Valid()
      ensures Ram() == old(Ram())[f := page]
    {
      ram[f] := page;
    }

    /** `memset(page, 0, 4096)` */
    method Zero(f: nat)
      requires Valid()
      requires f < ram.Length && f !in free
      modifies ram
      ensures Valid()
      ensures Ram() == old(Ram())[f := ZeroPage()]
    {
      StorePage(f, ZeroPage());
    }

    /** One 64-bit store into a frame that is not free. */
    method Store(f: nat, i: nat, w: nat)
      requires Valid()
      requires f < ram.Length && f !in free && i < 512
      modifies ram
      ensures Valid()
      ensures Ram() == old(Ram())[f := old(Ram())[f][i := w]]
    {
      Poke(f, i, w);
    }
  }
}
