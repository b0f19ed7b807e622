/** The in-memory file system (kernel/src/fs/tmpfs.c) and path resolution (kernel/src/fs/vfs.c). It
    refines a map from paths to contents. */
module Tmpfs {
  import B = Bits
  import opened Collections

  type Bytes = seq<nat>

  const SLASH: nat := 0x2F

  datatype Entry = Entry(name: Bytes, node: nat)
  /** A vnode and its data. A pointer to a vnode is its index; directory lists start at the head. */
  datatype Node = Dir(entries: seq<Entry>) | File(data: Bytes) | Link(data: Bytes)

  /** What a path leads to, without the identity of the vnode. */
  datatype Content = Directory | Contents(data: Bytes) | Target(data: Bytes)

  function ContentOf(n: Node): Content {
    match n
    case Dir(_) => Directory
    case File(d) => Contents(d)
    case Link(d) => Target(d)
  }

  /** Entries lead to vnodes made after the directory they are in. */
  ghost predicate NodesOk(nodes: seq<Node>) {
    && |nodes| > 0 && nodes[0].Dir?
    && forall d :: 0 <= d < |nodes| && nodes[d].Dir? ==> EntriesOk(nodes[d].entries, d, |nodes|)
  }

  ghost predicate EntriesOk(es: seq<Entry>, d: nat, n: nat) {
    forall i :: 0 <= i < |es| ==> d < es[i].node < n
  }

  // --- Lookup ----------------------------------------------------------------------------------

  /** The first entry of that name. */
  function Find(es: seq<Entry>, name: Bytes): (r: Option<nat>)
    ensures r.Some? ==> exists i :: 0 <= i < |es| && es[i] == Entry(name, r.value)
    ensures r.None? ==> forall i :: 0 <= i < |es| ==> es[i].name != name
  {
    if es == [] then None
    else if es[0].name == name then
      assert es[0] == Entry(name, es[0].node);
      Some(es[0].node)
    else
      assert forall i :: 0 < i < |es| ==> es[i] == es[1..][i - 1];
      Find(es[1..], name)
  }

  function LookupIn(nodes: seq<Node>, d: nat, name: Bytes): (r: Option<nat>)
    requires NodesOk(nodes) && d < |nodes|
    ensures r.Some? ==> d < r.value < |nodes|
  {
    if nodes[d].Dir? then
      assert EntriesOk(nodes[d].entries, d, |nodes|);
      Find(nodes[d].entries, name)
    else None
  }

  /** Following names from a vnode. */
  function Walk(nodes: seq<Node>, d: nat, names: seq<Bytes>): (r: Option<nat>)
    requires NodesOk(nodes) && d < |nodes|
    ensures r.Some? ==> d <= r.value < |nodes| && (names != [] ==> d < r.value)
    decreases |names|
  {
    if names == [] then Some(d)
    else
      match LookupIn(nodes, d, names[0])
      case None => None
      case Some(m) => Walk(nodes, m, names[1..])
  }

  // --- The map of paths ------------------------------------------------------------------------

  /** The paths that lead somewhere are the keys of `m`, each leads to a vnode of its own, and its
      content is the value. */
  ghost predicate Refines(nodes: seq<Node>, m: map<seq<Bytes>, Content>) {
    NodesOk(nodes) && SamePaths(nodes, m) && SameContents(nodes, m) && OnePath(nodes, m)
  }

  ghost predicate SamePaths(nodes: seq<Node>, m: map<seq<Bytes>, Content>)
    requires NodesOk(nodes)
  {
    forall p :: Walk(nodes, 0, p).Some? <==> p in m
  }

  ghost predicate SameContents(nodes: seq<Node>, m: map<seq<Bytes>, Content>)
    requires NodesOk(nodes) && SamePaths(nodes, m)
  {
    forall p :: p in m ==> ContentOf(nodes[Walk(nodes, 0, p).value]) == m[p]
  }

  ghost predicate OnePath(nodes: seq<Node>, m: map<seq<Bytes>, Content>)
    requires NodesOk(nodes)
  {
    forall p, q :: p in m && q in m && Walk(nodes, 0, p) == Walk(nodes, 0, q) ==> p == q
  }

  /** A new vnode, prepended to the list of directory `d`. */
  function Added(nodes: seq<Node>, d: nat, name: Bytes, n: Node): seq<Node>
    requires d < |nodes| && nodes[d].Dir?
  {
    nodes[d := Dir([Entry(name, |nodes|)] + nodes[d].entries)] + [n]
  }

  lemma AddedOk(nodes: seq<Node>, d: nat, name: Bytes, n: Node)
    requires NodesOk(nodes) && d < |nodes| && nodes[d].Dir? && (n.Dir? ==> n.entries == [])
    ensures NodesOk(Added(nodes, d, name, n))
  {
    var nodes' := Added(nodes, d, name, n);
    forall k | 0 <= k < |nodes'| && nodes'[k].Dir? ensures EntriesOk(nodes'[k].entries, k, |nodes'|) {
      if k < |nodes| {
        assert EntriesOk(nodes[k].entries, k, |nodes|);
      }
    }
  }

  lemma AddedLookup(nodes: seq<Node>, d: nat, name: Bytes, n: Node, k: nat, part: Bytes)
    requires NodesOk(nodes) && d < |nodes| && nodes[d].Dir? && (n.Dir? ==> n.entries == []) && k < |nodes|
    ensures NodesOk(Added(nodes, d, name, n))
    ensures LookupIn(Added(nodes, d, name, n), k, part) == if k == d && part == name then Some(|nodes|) else LookupIn(nodes, k, part)
  {
    AddedOk(nodes, d, name, n);
    if k == d {
      assert ([Entry(name, |nodes|)] + nodes[d].entries)[1..] == nodes[d].entries;
    }
  }

  /** Walking in the extended file system: as before, or into the new vnode. */
  lemma {:induction false} AddedWalk(nodes: seq<Node>, d: nat, name: Bytes, n: Node, k: nat, p: seq<Bytes>)
    requires NodesOk(nodes) && d < |nodes| && nodes[d].Dir? && (n.Dir? ==> n.entries == []) && k < |nodes|
    requires Find(nodes[d].entries, name) == None
    ensures NodesOk(Added(nodes, d, name, n))
    ensures Walk(Added(nodes, d, name, n), k, p)
            == if p != [] && p[|p| - 1] == name && Walk(nodes, k, p[..|p| - 1]) == Some(d) then Some(|nodes|)
               else Walk(nodes, k, p)
    decreases |p|
  {
    var nodes' := Added(nodes, d, name, n);
    AddedOk(nodes, d, name, n);
    NewIsEmpty(nodes, d, name, n);
    if p != [] {
      AddedLookup(nodes, d, name, n, k, p[0]);
      hide NodesOk, Added, EntriesOk, LookupIn, Find;
      if k == d && p[0] == name {
        IntoNew(nodes, nodes', d, name, p);
      } else if LookupIn(nodes, k, p[0]).Some? {
        AddedWalk(nodes, d, name, n, LookupIn(nodes, k, p[0]).value, p[1..]);
        if |p| > 1 {
          assert p[1..][..|p| - 2] == p[..|p| - 1][1..];
        }
      }
    }
  }

  /** Through the new entry there is only the new vnode itself. */
  lemma IntoNew(nodes: seq<Node>, nodes': seq<Node>, d: nat, name: Bytes, p: seq<Bytes>)
    requires NodesOk(nodes) && NodesOk(nodes') && d < |nodes| < |nodes'| && p != [] && p[0] == name
    requires LookupIn(nodes', d, name) == Some(|nodes|) && LookupIn(nodes, d, name) == None
    requires forall part :: LookupIn(nodes', |nodes|, part) == None
    ensures Walk(nodes', d, p) == if |p| == 1 then Some(|nodes|) else None
    ensures Walk(nodes, d, p) == None && Walk(nodes, d, p[..|p| - 1]) == if |p| == 1 then Some(d) else None
  {
    hide NodesOk, LookupIn, Find;
    if |p| > 1 {
      assert p[..|p| - 1][0] == name;
    }
  }

  lemma NewIsEmpty(nodes: seq<Node>, d: nat, name: Bytes, n: Node)
    requires NodesOk(nodes) && d < |nodes| && nodes[d].Dir? && (n.Dir? ==> n.entries == []) && NodesOk(Added(nodes, d, name, n))
    requires Find(nodes[d].entries, name) == None
    ensures |Added(nodes, d, name, n)| == |nodes| + 1 && LookupIn(nodes, d, name) == None
    ensures forall part :: LookupIn(Added(nodes, d, name, n), |nodes|, part) == None
  {}

  /** The last step of a walk. */
  lemma {:induction false} WalkLast(nodes: seq<Node>, k: nat, p: seq<Bytes>)
    requires NodesOk(nodes) && k < |nodes| && p != []
    ensures var up := Walk(nodes, k, p[..|p| - 1]);
            Walk(nodes, k, p) == if up.Some? then LookupIn(nodes, up.value, p[|p| - 1]) else None
    decreases |p|
  {
    if |p| == 1 {
      assert p[..0] == [];
    } else if LookupIn(nodes, k, p[0]).Some? {
      WalkLast(nodes, LookupIn(nodes, k, p[0]).value, p[1..]);
      assert p[1..][..|p| - 2] == p[..|p| - 1][1..];
    }
  }

  /** No entry of that name: the path is not in the map. */
  lemma FreshName(nodes: seq<Node>, m: map<seq<Bytes>, Content>, parent: seq<Bytes>, d: nat, name: Bytes)
    requires Refines(nodes, m) && Walk(nodes, 0, parent) == Some(d) && nodes[d].Dir? && parent + [name] !in m
    ensures Find(nodes[d].entries, name) == None
  {
    var p := parent + [name];
    WalkLast(nodes, 0, p);
    assert p[..|p| - 1] == parent;
    assert Walk(nodes, 0, p) == None;
  }

  /** Where a path leads after a vnode has been made. */
  lemma AddedPath(nodes: seq<Node>, m: map<seq<Bytes>, Content>, parent: seq<Bytes>, d: nat, name: Bytes, n: Node, p: seq<Bytes>)
    requires Refines(nodes, m) && Walk(nodes, 0, parent) == Some(d) && nodes[d].Dir? && parent + [name] !in m
    requires n.Dir? ==> n.entries == []
    ensures NodesOk(Added(nodes, d, name, n))
    ensures Walk(Added(nodes, d, name, n), 0, p) == if p == parent + [name] then Some(|nodes|) else Walk(nodes, 0, p)
  {
    FreshName(nodes, m, parent, d, name);
    AddedWalk(nodes, d, name, n, 0, p);
    var path := parent + [name];
    assert path[..|path| - 1] == parent && path[|path| - 1] == name;
    if p != [] && p[|p| - 1] == name && Walk(nodes, 0, p[..|p| - 1]) == Some(d) {
      assert p[..|p| - 1] in m && parent in m;
      assert p == p[..|p| - 1] + [name];
    }
  }

  /** Making a vnode in a directory adds one path to the map and changes nothing else. */
  lemma AddedRefines(nodes: seq<Node>, m: map<seq<Bytes>, Content>, parent: seq<Bytes>, d: nat, name: Bytes, n: Node)
    requires Refines(nodes, m) && Walk(nodes, 0, parent) == Some(d) && nodes[d].Dir? && parent + [name] !in m
    requires n.Dir? ==> n.entries == []
    ensures Refines(Added(nodes, d, name, n), m[parent + [name] := ContentOf(n)])
    ensures Walk(Added(nodes, d, name, n), 0, parent + [name]) == Some(|nodes|)
  {
    AddedOk(nodes, d, name, n);
    var nodes' := Added(nodes, d, name, n);
    assert forall k :: 0 <= k < |nodes| ==> ContentOf(nodes'[k]) == ContentOf(nodes[k]);
    forall p ensures Walk(nodes', 0, p) == (if p == parent + [name] then Some(|nodes|) else Walk(nodes, 0, p)) {
      AddedPath(nodes, m, parent, d, name, n, p);
    }
    assert nodes'[|nodes|] == n;
    hide Walk, NodesOk, Added, ContentOf;
    MoreRefines(nodes, nodes', m, parent + [name], ContentOf(n));
  }

  lemma MoreRefines(nodes: seq<Node>, nodes': seq<Node>, m: map<seq<Bytes>, Content>, path: seq<Bytes>, c: Content)
    requires Refines(nodes, m) && NodesOk(nodes') && |nodes'| == |nodes| + 1 && ContentOf(nodes'[|nodes|]) == c
    requires forall k :: 0 <= k < |nodes| ==> ContentOf(nodes'[k]) == ContentOf(nodes[k])
    requires forall p :: Walk(nodes', 0, p) == if p == path then Some(|nodes|) else Walk(nodes, 0, p)
    ensures Refines(nodes', m[path := c])
  {
    hide Walk, NodesOk, ContentOf, SameContents, OnePath;
    assert SamePaths(nodes', m[path := c]);
    MoreContents(nodes, nodes', m, path, c);
    MoreApart(nodes, nodes', m, path, c);
  }

  lemma MoreContents(nodes: seq<Node>, nodes': seq<Node>, m: map<seq<Bytes>, Content>, path: seq<Bytes>, c: Content)
    requires Refines(nodes, m) && NodesOk(nodes') && |nodes'| == |nodes| + 1 && ContentOf(nodes'[|nodes|]) == c
    requires forall k :: 0 <= k < |nodes| ==> ContentOf(nodes'[k]) == ContentOf(nodes[k])
    requires forall p :: Walk(nodes', 0, p) == if p == path then Some(|nodes|) else Walk(nodes, 0, p)
    requires SamePaths(nodes', m[path := c])
    ensures SameContents(nodes', m[path := c])
  {
    hide Walk, NodesOk, ContentOf, OnePath;
    var m' := m[path := c];
    forall p | p in m' ensures ContentOf(nodes'[Walk(nodes', 0, p).value]) == m'[p] {
      if p != path {
        assert p in m && m'[p] == m[p];
        assert ContentOf(nodes[Walk(nodes, 0, p).value]) == m[p];
      }
    }
  }

  lemma MoreApart(nodes: seq<Node>, nodes': seq<Node>, m: map<seq<Bytes>, Content>, path: seq<Bytes>, c: Content)
    requires Refines(nodes, m) && NodesOk(nodes')
    requires forall p :: Walk(nodes', 0, p) == if p == path then Some(|nodes|) else Walk(nodes, 0, p)
    ensures OnePath(nodes', m[path := c])
  {
    hide Walk, ContentOf, Refines, EntriesOk;
    var m' := m[path := c];
    forall p, q | p in m' && q in m' && Walk(nodes', 0, p) == Walk(nodes', 0, q) ensures p == q {
      MorePaths(nodes, nodes', m, path, p, q);
    }
  }

  /** The new vnode is reached by the new path only. */
  lemma MorePaths(nodes: seq<Node>, nodes': seq<Node>, m: map<seq<Bytes>, Content>, path: seq<Bytes>, p: seq<Bytes>, q: seq<Bytes>)
    requires Refines(nodes, m) && NodesOk(nodes') && (p in m || p == path) && (q in m || q == path)
    requires Walk(nodes', 0, p) == if p == path then Some(|nodes|) else Walk(nodes, 0, p)
    requires Walk(nodes', 0, q) == if q == path then Some(|nodes|) else Walk(nodes, 0, q)
    requires Walk(nodes', 0, p) == Walk(nodes', 0, q)
    ensures p == q
  {
    hide Walk, NodesOk, ContentOf;
    assert p != path ==> Walk(nodes, 0, p) != Some(|nodes|);
    assert q != path ==> Walk(nodes, 0, q) != Some(|nodes|);
  }

  lemma {:induction false} StoredWalk(nodes: seq<Node>, v: nat, n: Node, k: nat, p: seq<Bytes>)
    requires NodesOk(nodes) && v < |nodes| && !nodes[v].Dir? && !n.Dir? && k < |nodes|
    ensures NodesOk(nodes[v := n]) && Walk(nodes[v := n], k, p) == Walk(nodes, k, p)
    decreases |p|
  {
    var nodes' := nodes[v := n];
    forall d | 0 <= d < |nodes'| && nodes'[d].Dir? ensures EntriesOk(nodes'[d].entries, d, |nodes'|) {
      assert EntriesOk(nodes[d].entries, d, |nodes|);
    }
    if p != [] {
      assert LookupIn(nodes', k, p[0]) == LookupIn(nodes, k, p[0]);
      if LookupIn(nodes, k, p[0]).Some? {
        StoredWalk(nodes, v, n, LookupIn(nodes, k, p[0]).value, p[1..]);
      }
    }
  }

  /** Replacing the data of the vnode at `path` changes the content of that path only. */
  lemma StoredRefines(nodes: seq<Node>, m: map<seq<Bytes>, Content>, path: seq<Bytes>, v: nat, n: Node)
    requires Refines(nodes, m) && Walk(nodes, 0, path) == Some(v) && !nodes[v].Dir? && !n.Dir?
    ensures Refines(nodes[v := n], m[path := ContentOf(n)])
  {
    var nodes', m' := nodes[v := n], m[path := ContentOf(n)];
    StoredWalk(nodes, v, n, 0, path);
    forall p ensures Walk(nodes', 0, p) == Walk(nodes, 0, p) {
      StoredWalk(nodes, v, n, 0, p);
    }
    assert path in m;
    forall p | p in m' ensures Walk(nodes', 0, p).Some? && ContentOf(nodes'[Walk(nodes', 0, p).value]) == m'[p] {
      if p != path {
        assert p in m && Walk(nodes, 0, p) != Walk(nodes, 0, path);
      }
    }
  }

  // --- Reading and writing ---------------------------------------------------------------------

  function Zeros(n: nat): (s: Bytes)
    ensures |s| == n && forall i :: 0 <= i < n ==> s[i] == 0
  {
    seq(n, _ => 0)
  }

  /** A file after `buf` has been written at `off`. When a file grows, the bytes between its old end
      and `off` are whatever the reallocated memory held; a file that was empty is cleared first. */
  function Overwritten(data: Bytes, off: nat, buf: Bytes, garbage: Bytes): (r: Bytes)
    requires |garbage| == if data != [] && off > |data| then off - |data| else 0
    ensures |r| == if off + |buf| > |data| then off + |buf| else |data|
  {
    var base := if data == [] then Zeros(off) else data + garbage;
    base[..off] + buf + if off + |buf| < |base| then base[off + |buf|..] else []
  }

  /** The bytes written are there and no other old byte has changed. */
  lemma OverwrittenAt(data: Bytes, off: nat, buf: Bytes, garbage: Bytes, i: nat)
    requires |garbage| == if data != [] && off > |data| then off - |data| else 0
    requires i < |Overwritten(data, off, buf, garbage)|
    ensures off <= i < off + |buf| ==> Overwritten(data, off, buf, garbage)[i] == buf[i - off]
    ensures !(off <= i < off + |buf|) && i < |data| ==> Overwritten(data, off, buf, garbage)[i] == data[i]
    ensures data == [] && i < off ==> Overwritten(data, off, buf, garbage)[i] == 0
  {}

  /** A read of `n` bytes at `off` returns what there is of them. */
  function ReadAt(data: Bytes, off: nat, n: nat): (r: Bytes)
    ensures |r| <= n
  {
    var start := B.Min(off, |data|);
    data[start..B.Min(off + n, |data|)]
  }

  /** These are the bytes of the file from `off` on, as many as there are. */
  lemma ReadAtIs(data: Bytes, off: nat, n: nat)
    ensures var r := ReadAt(data, off, n);
            && |r| == (if off >= |data| then 0 else if off + n > |data| then |data| - off else n)
            && forall i :: 0 <= i < |r| ==> r[i] == data[off + i]
  {}

  /** Reading back what was written. */
  lemma ReadBack(data: Bytes, off: nat, buf: Bytes, garbage: Bytes)
    requires |garbage| == if data != [] && off > |data| then off - |data| else 0
    ensures ReadAt(Overwritten(data, off, buf, garbage), off, |buf|) == buf
  {
    var r := Overwritten(data, off, buf, garbage);
    forall i | 0 <= i < |buf| ensures r[off + i] == buf[i] {
      OverwrittenAt(data, off, buf, garbage, off + i);
    }
  }

  // A read as the source does it, with pointers: the data of a file lies at address `base`, and `mem`
  // says what the rest of the memory holds.

  /** Where the source starts and stops copying. */
  function Span(base: nat, size: nat, off: nat, n: nat): (r: (nat, nat))
    ensures r.0 <= r.1
  {
    var start := (base + off) % B.U64_SIZE;
    var end := (start + n) % B.U64_SIZE;
    var limit := (base + size) % B.U64_SIZE;
    var stop := if end > limit then limit else end;
    (if start > stop then stop else start, stop)
  }

  function ByteAt(data: Bytes, base: nat, mem: nat -> nat, a: nat): nat {
    if base <= a < base + |data| then data[a - base] else mem(a)
  }

  /** What it copies. */
  function Copied(data: Bytes, base: nat, mem: nat -> nat, off: nat, n: nat): (r: Bytes)
    ensures var s := Span(base, |data|, off, n); |r| == s.1 - s.0 && forall i :: 0 <= i < |r| ==> r[i] == ByteAt(data, base, mem, s.0 + i)
  {
    var s := Span(base, |data|, off, n);
    seq<nat>(s.1 - s.0, i requires 0 <= i => ByteAt(data, base, mem, s.0 + i))
  }

  /** The pointers do not wrap where it matters: neither does, or only that to the end while the offset
      is behind the file; or both do. The end of the file must not be the end of the address space.
      Reading nothing is always fine. */
  predicate StaysInFile(base: nat, size: nat, off: nat, n: nat) {
    || n == 0
    || (base + size == B.U64_SIZE && off >= size)
    || (base + size < B.U64_SIZE
        && (|| base + off + n < B.U64_SIZE
            || (base + off < B.U64_SIZE && off >= size)
            || (base + off >= B.U64_SIZE && base + off - B.U64_SIZE + n >= B.U64_SIZE)))
  }

  /** Exactly then the source reads the bytes of the file at that offset. */
  lemma ReadsTheFile(data: Bytes, base: nat, mem: nat -> nat, off: nat, n: nat)
    requires 0 < base && base + |data| <= B.U64_SIZE && off < B.U64_SIZE && n < B.U64_SIZE
    ensures Copied(data, base, mem, off, n) == ReadAt(data, off, n) <==> StaysInFile(base, |data|, off, n)
  {
    var s, r := Span(base, |data|, off, n), ReadAt(data, off, n);
    SpanCases(base, |data|, off, n);
    hide Span;
    var c := Copied(data, base, mem, off, n);
    if base + |data| < B.U64_SIZE && base + off + n < B.U64_SIZE {
      forall i | 0 <= i < |c| && |c| == |r| ensures c[i] == r[i] {}
    }
  }

  lemma SpanCases(base: nat, size: nat, off: nat, n: nat)
    requires 0 < base && base + size <= B.U64_SIZE && off < B.U64_SIZE && n < B.U64_SIZE
    ensures var s := Span(base, size, off, n);
            && (base + size == B.U64_SIZE ==> s.0 == s.1)
            && (base + size < B.U64_SIZE && base + off + n < B.U64_SIZE ==>
                  if off <= size then s == (base + off, base + B.Min(off + n, size)) else s == (base + size, base + size))
            && (base + off < B.U64_SIZE <= base + off + n ==> s.0 == s.1)
            && (base + size < B.U64_SIZE && base + off >= B.U64_SIZE && base + off - B.U64_SIZE + n < B.U64_SIZE ==>
                  s.0 == base + off - B.U64_SIZE && (n > 0 ==> s.1 > s.0) && (n == 0 ==> s.1 == s.0))
            && (base + off >= B.U64_SIZE && base + off - B.U64_SIZE + n >= B.U64_SIZE ==> s.0 == s.1)
  {
    Reduced(base + off);
    Reduced((base + off) % B.U64_SIZE + n);
    Reduced(base + size);
  }

  lemma Reduced(a: nat)
    requires a < 2 * B.U64_SIZE
    ensures a % B.U64_SIZE == if a < B.U64_SIZE then a else a - B.U64_SIZE
  {}

  /** An offset that is negative as a 64-bit number reads what lies in front of the file. */
  lemma ReadsInFront(data: Bytes, base: nat, mem: nat -> nat, k: nat, n: nat)
    requires 0 < k <= base && base + |data| < B.U64_SIZE && 0 < n && base - k + n < B.U64_SIZE
    ensures var c := Copied(data, base, mem, B.U64_SIZE - k, n); c != [] && c[0] == mem(base - k)
  {
    SpanCases(base, |data|, B.U64_SIZE - k, n);
    hide Span;
  }

  function Sum(ns: seq<nat>): nat {
    if ns == [] then 0 else ns[0] + Sum(ns[1..])
  }

  /** Consecutive reads, each starting where the last one stopped. */
  function Reads(data: Bytes, off: nat, ns: seq<nat>): seq<Bytes>
    decreases |ns|
  {
    if ns == [] then [] else
      var r := ReadAt(data, off, ns[0]);
      [r] + Reads(data, off + |r|, ns[1..])
  }

  function Concat(rs: seq<Bytes>): Bytes {
    if rs == [] then [] else rs[0] + Concat(rs[1..])
  }

  lemma ReadOn(data: Bytes, off: nat, n: nat, m: nat)
    requires off <= |data|
    ensures var r := ReadAt(data, off, n);
            off + |r| <= |data| && r + ReadAt(data, off + |r|, m) == ReadAt(data, off, n + m)
  {}

  /** Consecutive reads of any sizes return consecutive pieces: together they are one read of all of it. */
  lemma {:induction false} ReadsConcatenate(data: Bytes, off: nat, ns: seq<nat>)
    requires off <= |data|
    ensures Concat(Reads(data, off, ns)) == ReadAt(data, off, Sum(ns))
    decreases |ns|
  {
    if ns != [] {
      var r := ReadAt(data, off, ns[0]);
      var rest := Reads(data, off + |r|, ns[1..]);
      ReadsConcatenate(data, off + |r|, ns[1..]);
      assert ([r] + rest)[1..] == rest;
      assert Concat([r] + rest) == r + Concat(rest);
      ReadOn(data, off, ns[0], Sum(ns[1..]));
      hide ReadAt;
    }
  }

  // --- The vnode operations --------------------------------------------------------------------

  class FileSystem {
    var nodes: seq<Node>

    ghost predicate Valid()
      reads this
    {
      NodesOk(nodes)
    }

    /** An empty root directory. */
    constructor ()
      ensures Valid() && nodes == [Dir([])] && Refines(nodes, map[[] := Directory])
    {
      nodes := [Dir([])];
      new;
      EmptyRefines();
    }

    /** `vnode_lookup` */
    method Lookup(v: nat, part: Bytes) returns (res: Option<nat>)
      requires Valid() && v < |nodes|
      ensures res == LookupIn(nodes, v, part)
    {
      if !nodes[v].Dir? {
        return None;
      }
      var entries := nodes[v].entries;
      assert EntriesOk(entries, v, |nodes|);
      var i := 0;
      while i < |entries|
        invariant i <= |entries| && Find(entries, part) == Find(entries[i..], part)
      {
        assert entries[i..][0] == entries[i] && entries[i..][1..] == entries[i + 1..];
        if entries[i].name == part {
          return Some(entries[i].node);
        }
        i := i + 1;
      }
      return None;
    }

    /** `vnode_mkdir` and `vnode_create`, which fail on anything but a directory. */
    method Make(v: nat, name: Bytes, directory: bool) returns (res: Option<nat>)
      requires Valid() && v < |nodes|
      modifies this
      ensures Valid()
      ensures old(nodes)[v].Dir? ==>
                res == Some(|old(nodes)|) && nodes == Added(old(nodes), v, name, if directory then Dir([]) else File([]))
      ensures !old(nodes)[v].Dir? ==> res == None && nodes == old(nodes)
    {
      if !nodes[v].Dir? {
        return None;
      }
      var n := if directory then Dir([]) else File([]);
      AddedOk(nodes, v, name, n);
      res := Some(|nodes|);
      nodes := nodes[v := Dir([Entry(name, |nodes|)] + nodes[v].entries)];
      nodes := nodes + [n];
    }

    /** `vnode_rdwr`, reading, of a file whose data lies at `base`; an empty file cannot be read. */
    method Read(v: nat, count: nat, off: nat, base: nat, mem: nat -> nat) returns (res: Option<Bytes>)
      requires Valid() && v < |nodes|
      requires nodes[v].File? ==> 0 < base && base + |nodes[v].data| <= B.U64_SIZE
      requires off < B.U64_SIZE && count < B.U64_SIZE
      ensures res == if nodes[v].File? && nodes[v].data != [] then Some(Copied(nodes[v].data, base, mem, off, count)) else None
      ensures nodes[v].File? && nodes[v].data != [] ==>
                (res == Some(ReadAt(nodes[v].data, off, count)) <==> StaysInFile(base, |nodes[v].data|, off, count))
    {
      if !nodes[v].File? {
        return None;
      }
      var data := nodes[v].data;
      if |data| == 0 {
        return None;
      }
      var start := (base + off) % B.U64_SIZE;
      var end := (start + count) % B.U64_SIZE;
      var limit := (base + |data|) % B.U64_SIZE;
      if end > limit {
        end := limit;
      }
      if start > end {
        start := end;
      }
      var buf := [];
      for i := 0 to end - start
        invariant |buf| == i && forall j :: 0 <= j < i ==> buf[j] == ByteAt(data, base, mem, start + j)
      {
        buf := buf + [ByteAt(data, base, mem, start + i)];
      }
      assert buf == Copied(data, base, mem, off, count);
      ReadsTheFile(data, base, mem, off, count);
      return Some(buf);
    }

    /** `vnode_rdwr`, writing. `garbage` is what newly allocated memory holds. */
    method Write(v: nat, off: nat, buf: Bytes, garbage: Bytes) returns (ok: bool)
      requires Valid() && v < |nodes|
      requires nodes[v].File? ==> |garbage| == if nodes[v].data != [] && off > |nodes[v].data| then off - |nodes[v].data| else 0
      modifies this
      ensures Valid() && ok == old(nodes)[v].File?
      ensures nodes == if ok then old(nodes)[v := File(Overwritten(old(nodes)[v].data, off, buf, garbage))] else old(nodes)
    {
      if !nodes[v].File? {
        return false;
      }
      var data := nodes[v].data;
      if |data| == 0 {
        data := Zeros(off + |buf|);
      } else if off + |buf| > |data| {
        data := data + garbage + Zeros(off + |buf| - |data + garbage|);
      }
      data := data[..off] + buf + data[off + |buf|..];
      StoredWalk(nodes, v, File(data), 0, []);
      assert data == Overwritten(nodes[v].data, off, buf, garbage);
      nodes := nodes[v := File(data)];
      return true;
    }
  }

  lemma EmptyRefines()
    ensures Refines([Dir([])], map[[] := Directory])
  {
    var nodes := [Dir([])];
    assert EntriesOk([], 0, 1);
    forall p ensures Walk(nodes, 0, p) == if p == [] then Some(0) else None {
      if p != [] {
        assert LookupIn(nodes, 0, p[0]) == None;
      }
    }
  }
}
