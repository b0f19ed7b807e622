/** Importing the initial ramdisk (kernel/src/fs/tar.c), a ustar archive (the pax section of
    IEEE Std 1003.1), into the in-memory file system. */
module Tar {
  import opened Bits
  import opened Collections
  import opened Tmpfs
  import opened Vfs

  const BLOCK: nat := 512
  const U32_SIZE: nat := 0x1_0000_0000

  /** What the source reads that nothing defines: the verdict on trailing slashes and the content of
      a fresh component buffer, for the header at each offset. */
  datatype Oracle = Oracle(verdict: nat -> bool, junk: nat -> Bytes)

  /** `align_up(n, 512)` */
  function Blocks(n: nat): (r: nat)
    ensures n <= r < n + BLOCK && r % BLOCK == 0
  {
    (n + 511) / 512 * 512
  }

  function Byte(a: Bytes, i: nat): nat {
    if i < |a| then a[i] else 0
  }

  /** The C string at `i`; bytes behind the archive read as terminators. */
  function StringAt(a: Bytes, i: nat): (s: Bytes)
    ensures CString(s) && forall k :: 0 <= k < |s| ==> Byte(a, i + k) == s[k]
    decreases |a| - i
  {
    if Byte(a, i) == 0 then [] else [a[i]] + StringAt(a, i + 1)
  }

  function DataAt(a: Bytes, i: nat, n: nat): (s: Bytes)
    ensures |s| == n && forall k :: 0 <= k < n ==> s[k] == Byte(a, i + k)
  {
    seq<nat>(n, k requires 0 <= k < n => Byte(a, i + k))
  }

  /** A `char` of the size field less '0'. */
  function Octet(b: nat): int {
    (if b < 0x80 then b else b - 0x100) - 0x30
  }

  function Octal(s: Bytes): int {
    if s == [] then 0 else Octal(s[..|s| - 1]) * 8 + Octet(s[|s| - 1])
  }

  /** `getsize` of the header at `off`: eleven characters, on 32 bits. */
  function SizeAt(a: Bytes, off: nat): nat {
    Octal(DataAt(a, off + 124, 11)) % U32_SIZE
  }

  /** The comparison of the one-character type field with a one-character string up to the length of
      the former: a terminator there compares equal to everything, and a link name behind the type
      makes it unequal. */
  predicate TypeIs(a: Bytes, off: nat, c: nat) {
    Byte(a, off + 156) == 0 || (Byte(a, off + 156) == c && Byte(a, off + 157) == 0)
  }

  /** The vnode made last gets its content. */
  function Filled(nodes: seq<Node>, before: nat, n: Node): seq<Node> {
    if |nodes| > before then nodes[|nodes| - 1 := n] else nodes
  }

  /** The vnodes after the header at `off`. */
  function ImportOne(nodes: seq<Node>, a: Bytes, off: nat, o: Oracle): seq<Node>
    requires NodesOk(nodes)
  {
    var name, v, junk := StringAt(a, off), o.verdict(off), o.junk(off);
    if TypeIs(a, off, 0x35) then Creates(nodes, 0, name, Dir([]), v, junk)
    else if TypeIs(a, off, 0x30) then
      Filled(Creates(nodes, 0, name, File([]), v, junk), |nodes|, File(DataAt(a, off + BLOCK, SizeAt(a, off))))
    else if Byte(a, off + 156) == 0x32 then
      Filled(Creates(nodes, 0, name, File([]), v, junk), |nodes|, Link(StringAt(a, off + 157) + [0]))
    else nodes
  }

  lemma CreatesOk(nodes: seq<Node>, cur: nat, path: Bytes, n: Node, verdict: bool, junk: Bytes)
    requires NodesOk(nodes) && cur < |nodes| && (n.Dir? ==> n.entries == [])
    ensures var nodes' := Creates(nodes, cur, path, n, verdict, junk);
            && NodesOk(nodes') && |nodes| <= |nodes'| <= |nodes| + 1
            && (|nodes'| > |nodes| ==> nodes'[|nodes|] == n)
  {
    if path != [] {
      var r := LookupPath(nodes, cur, path, true, verdict);
      if r.0.Found? && nodes[r.0.node].Dir? {
        AddedOk(nodes, r.0.node, if r.1.Some? then r.1.value else junk, n);
      }
    }
  }

  lemma ImportOneOk(nodes: seq<Node>, a: Bytes, off: nat, o: Oracle)
    requires NodesOk(nodes)
    ensures NodesOk(ImportOne(nodes, a, off, o))
  {
    var name, v, junk := StringAt(a, off), o.verdict(off), o.junk(off);
    CreatesOk(nodes, 0, name, Dir([]), v, junk);
    CreatesOk(nodes, 0, name, File([]), v, junk);
    var nodes1 := Creates(nodes, 0, name, File([]), v, junk);
    hide Creates;
    if |nodes1| > |nodes| {
      StoredWalk(nodes1, |nodes|, File(DataAt(a, off + BLOCK, SizeAt(a, off))), 0, []);
      StoredWalk(nodes1, |nodes|, Link(StringAt(a, off + 157) + [0]), 0, []);
    }
  }

  /** The whole import; the last 1024 bytes are not looked at. */
  function Import(nodes: seq<Node>, a: Bytes, off: nat, o: Oracle): (r: seq<Node>)
    requires NodesOk(nodes)
    ensures NodesOk(r)
    decreases |a| - off
  {
    if off + 1024 >= |a| then nodes
    else
      ImportOneOk(nodes, a, off, o);
      Import(ImportOne(nodes, a, off, o), a, off + BLOCK + Blocks(SizeAt(a, off)), o)
  }

  // --- The source's procedures -----------------------------------------------------------------

  /** `getsize`, from the last digit on. The sum wraps at 32 bits, here once at the end. */
  method GetSize(s: Bytes) returns (size: nat)
    requires |s| == 11
    ensures size == Octal(s) % U32_SIZE
  {
    var sum, count := 0, 1;
    var j := 11;
    assert s[..11] == s;
    while j > 0
      invariant 0 <= j <= 11
      invariant Octal(s[..j]) * count + sum == Octal(s)
    {
      assert s[..j][..j - 1] == s[..j - 1] && s[..j][j - 1] == s[j - 1];
      OctalStep(Octal(s[..j - 1]), Octet(s[j - 1]), count);
      sum := sum + Octet(s[j - 1]) * count;
      count := count * 8;
      j := j - 1;
    }
    assert s[..0] == [];
    size := sum % U32_SIZE;
  }

  lemma OctalStep(high: int, digit: int, count: int)
    ensures (high * 8 + digit) * count == high * (count * 8) + digit * count
  {}

  /** The file or link at the header at `off`, after its vnode has been made. */
  method Fill(fs: FileSystem, v: nat, data: Bytes, link: bool)
    requires fs.Valid() && v == |fs.nodes| - 1 && fs.nodes[v] == File([])
    modifies fs
    ensures fs.Valid() && fs.nodes == old(fs.nodes)[v := if link then Link(data) else File(data)]
  {
    var ok := fs.Write(v, 0, data, []);
    assert Overwritten([], 0, data, []) == data;
    if link {
      StoredWalk(fs.nodes, v, Link(data), 0, []);
      fs.nodes := fs.nodes[v := Link(data)];
    }
  }

  /** One round of the loop in `parse_tar_and_populate_tmpfs`; the offset of the next header. */
  method ImportHeader(fs: FileSystem, a: Bytes, off: nat, o: Oracle) returns (next: nat)
    requires fs.Valid()
    modifies fs
    ensures fs.Valid() && fs.nodes == ImportOne(old(fs.nodes), a, off, o)
    ensures next == off + BLOCK + Blocks(SizeAt(a, off))
  {
    var size := GetSize(DataAt(a, off + 124, 11));
    next := off + BLOCK + Blocks(size);
    var name, v, junk := StringAt(a, off), o.verdict(off), o.junk(off);
    CreatesOk(fs.nodes, 0, name, File([]), v, junk);
    if TypeIs(a, off, 0x35) {
      var notNeeded := Create(fs, 0, name, true, v, junk);
    } else if TypeIs(a, off, 0x30) {
      var made := Create(fs, 0, name, false, v, junk);
      if made.Some? {
        Fill(fs, made.value, DataAt(a, off + BLOCK, size), false);
      }
    } else if Byte(a, off + 156) == 0x32 {
      var made := Create(fs, 0, name, false, v, junk);
      if made.Some? {
        Fill(fs, made.value, StringAt(a, off + 157) + [0], true);
      }
    }
  }

  /** `parse_tar_and_populate_tmpfs` */
  method Populate(a: Bytes, o: Oracle) returns (fs: FileSystem)
    ensures fresh(fs) && fs.Valid() && NodesOk([Dir([])]) && fs.nodes == Import([Dir([])], a, 0, o)
  {
    hide ImportOne;
    EmptyRefines();
    fs := new FileSystem();
    var off := 0;
    while off < |a| - 1024
      invariant fs.Valid() && fresh(fs) && Import(fs.nodes, a, off, o) == Import([Dir([])], a, 0, o)
      decreases |a| - off
    {
      off := ImportHeader(fs, a, off, o);
    }
  }

  // --- Archives --------------------------------------------------------------------------------

  /** A member of an archive: its path as components, the last one apart. Directory names may end in
      a slash. */
  datatype Item =
    | DirItem(parent: seq<Bytes>, name: Bytes, tail: Bytes)
    | FileItem(parent: seq<Bytes>, name: Bytes, data: Bytes)
    | LinkItem(parent: seq<Bytes>, name: Bytes, target: Bytes)

  function PathOf(e: Item): seq<Bytes> {
    e.parent + [e.name]
  }

  function NameText(e: Item): Bytes {
    Text(PathOf(e), if e.DirItem? then e.tail else [])
  }

  function DataOf(e: Item): Bytes {
    if e.FileItem? then e.data else []
  }

  function ContentFor(e: Item): Content {
    match e
    case DirItem(_, _, _) => Directory
    case FileItem(_, _, d) => Contents(d)
    case LinkItem(_, _, t) => Target(t + [0])
  }

  ghost predicate ItemOk(e: Item) {
    && Path(e.parent) && Component(e.name) && |NameText(e)| < 100
    && (e.DirItem? ==> e.tail == [] || e.tail == [SLASH])
    && |DataOf(e)| < U32_SIZE
    && (e.LinkItem? ==> CString(e.target) && |e.target| < 100)
  }

  /** `s` stands at `i`, followed by a terminator. */
  ghost predicate Holds(a: Bytes, i: nat, s: Bytes) {
    && i + |s| < |a| && a[i + |s|] == 0
    && forall k :: 0 <= k < |s| ==> a[i + k] == s[k]
  }

  function Eights(k: nat): (p: nat)
    ensures p > 0
  {
    if k == 0 then 1 else 8 * Eights(k - 1)
  }

  /** A number in eleven octal digits, the most significant first. */
  ghost predicate OctalDigits(s: Bytes, n: nat) {
    |s| == 11 && forall i :: 0 <= i < 11 ==> s[i] == 0x30 + n / Eights(10 - i) % 8
  }

  lemma {:induction false} OctalRead(s: Bytes, n: nat, k: nat)
    requires OctalDigits(s, n) && n < U32_SIZE && k <= 11
    ensures Octal(s[..k]) == n / Eights(11 - k)
  {
    if k == 0 {
      assert Eights(4) == 0x1000 && Eights(8) == 0x100_0000 && Eights(11) == 0x2_0000_0000;
    } else {
      OctalRead(s, n, k - 1);
      var t, d := s[..k], n / Eights(11 - k);
      assert t[..k - 1] == s[..k - 1] && t[k - 1] == s[k - 1] == 0x30 + d % 8;
      NextEight(n, Eights(11 - k));
      hide Octal;
      assert Octal(t) == Octal(t[..k - 1]) * 8 + Octet(t[k - 1]);
    }
  }

  lemma NextEight(n: nat, e: nat)
    requires e > 0
    ensures n / (8 * e) == n / e / 8
  {
    var d := n / e;
    var q, r := d / 8, d % 8;
    assert n == e * d + n % e;
    assert e * d == (8 * e) * q + e * r;
    MulMono(e, r + 1, 8);
    QuotientIs(n, 8 * e, q, e * r + n % e);
  }

  /** The header of `e` at `off`. The fields that the import does not read are arbitrary. */
  ghost predicate HeaderFor(a: Bytes, off: nat, e: Item) {
    && Holds(a, off, NameText(e))
    && OctalDigits(DataAt(a, off + 124, 11), |DataOf(e)|)
    && Byte(a, off + 156) == (match e case DirItem(_, _, _) => 0x35 case FileItem(_, _, _) => 0x30 case LinkItem(_, _, _) => 0x32)
    && (if e.LinkItem? then Holds(a, off + 157, e.target) else Byte(a, off + 157) == 0)
  }

  /** Headers, each with its data padded to whole blocks, then at least two blocks of zeros. */
  ghost predicate Encodes(a: Bytes, off: nat, es: seq<Item>)
    decreases |es|
  {
    if es == [] then off + 1024 <= |a| && Zeroed(a, off)
    else
      var next := off + BLOCK + Blocks(|DataOf(es[0])|);
      HeaderFor(a, off, es[0]) && DataAt(a, off + BLOCK, |DataOf(es[0])|) == DataOf(es[0]) && next <= |a| && Encodes(a, next, es[1..])
  }

  ghost predicate Zeroed(a: Bytes, off: nat) {
    forall i :: off <= i < |a| ==> a[i] == 0
  }

  /** Parents come before children, and no path comes twice. */
  ghost predicate Ordered(m: map<seq<Bytes>, Content>, es: seq<Item>)
    decreases |es|
  {
    es != [] ==>
      && ItemOk(es[0]) && es[0].parent in m && m[es[0].parent] == Directory && PathOf(es[0]) !in m
      && Ordered(m[PathOf(es[0]) := ContentFor(es[0])], es[1..])
  }

  /** The paths and contents an archive stands for. */
  function Tree(m: map<seq<Bytes>, Content>, es: seq<Item>): map<seq<Bytes>, Content>
    decreases |es|
  {
    if es == [] then m else Tree(m[PathOf(es[0]) := ContentFor(es[0])], es[1..])
  }

  // --- Import undoes writing -------------------------------------------------------------------

  lemma {:induction false} StringIs(a: Bytes, i: nat, s: Bytes)
    requires Holds(a, i, s) && CString(s)
    ensures StringAt(a, i) == s
    decreases |s|
  {
    if s != [] {
      assert a[i + 0] == s[0];
      forall k | 0 <= k < |s[1..]| ensures a[i + 1 + k] == s[1..][k] {
        assert a[i + (k + 1)] == s[k + 1];
      }
      StringIs(a, i + 1, s[1..]);
    }
  }

  lemma {:induction false} TextIsString(ps: seq<Bytes>, tail: Bytes)
    requires Path(ps) && (tail == [] || tail == [SLASH])
    ensures CString(Text(ps, tail))
  {
    if |ps| > 1 {
      TextIsString(ps[1..], tail);
    }
  }

  lemma PathOfOk(e: Item)
    requires ItemOk(e)
    ensures Path(PathOf(e)) && CString(NameText(e)) && NameText(e) != [] && NameText(e)[0] != SLASH
  {
    TextIsString(PathOf(e), if e.DirItem? then e.tail else []);
    assert PathOf(e)[0] == if e.parent == [] then e.name else e.parent[0];
    TextNotSlashes(PathOf(e), if e.DirItem? then e.tail else []);
  }

  /** A walk that ends in a directory went through directories. */
  lemma WalkedThrough(nodes: seq<Node>, k: nat, p: seq<Bytes>, d: nat)
    requires NodesOk(nodes) && k < |nodes| && Walk(nodes, k, p) == Some(d) && nodes[d].Dir?
    ensures Through(nodes, k, p)
  {
    forall i | 0 <= i <= |p| ensures Walk(nodes, k, p[..i]).Some? && nodes[Walk(nodes, k, p[..i]).value].Dir? {
      WalkedPrefix(nodes, k, p, i, d);
    }
  }

  lemma {:induction false} WalkedPrefix(nodes: seq<Node>, k: nat, p: seq<Bytes>, i: nat, d: nat)
    requires NodesOk(nodes) && k < |nodes| && Walk(nodes, k, p) == Some(d) && nodes[d].Dir? && i <= |p|
    ensures Walk(nodes, k, p[..i]).Some? && nodes[Walk(nodes, k, p[..i]).value].Dir?
    decreases |p|
  {
    if i == |p| {
      assert p[..i] == p;
    } else {
      WalkLast(nodes, k, p);
      var up := p[..|p| - 1];
      WalkedPrefix(nodes, k, up, i, Walk(nodes, k, up).value);
      assert up[..i] == p[..i];
    }
  }

  /** Creating a fresh member, whatever the undefined reads give. */
  lemma CreatesFresh(nodes: seq<Node>, m: map<seq<Bytes>, Content>, e: Item, n: Node, verdict: bool, junk: Bytes) returns (d: nat)
    requires Refines(nodes, m) && ItemOk(e) && e.parent in m && m[e.parent] == Directory && PathOf(e) !in m
    ensures Walk(nodes, 0, e.parent) == Some(d) && d < |nodes| && nodes[d].Dir?
    ensures Creates(nodes, 0, NameText(e), n, verdict, junk) == Added(nodes, d, e.name, n)
  {
    d := Walk(nodes, 0, e.parent).value;
    assert ContentOf(nodes[d]) == Directory;
    WalkedThrough(nodes, 0, e.parent, d);
    FreshName(nodes, m, e.parent, d, e.name);
    PathOfOk(e);
    var tail := if e.DirItem? then e.tail else [];
    assert [] + Text(e.parent + [e.name], tail) == Text(e.parent + [e.name], tail);
    CreatesThere(nodes, 0, [], e.parent, d, e.name, tail, n, verdict, junk);
  }

  lemma SizeIs(a: Bytes, off: nat, e: Item)
    requires HeaderFor(a, off, e) && ItemOk(e)
    ensures SizeAt(a, off) == |DataOf(e)|
  {
    var s := DataAt(a, off + 124, 11);
    hide Octal, HeaderFor;
    assert OctalDigits(s, |DataOf(e)|) by {
      assert HeaderFor(a, off, e);
    }
    OctalRead(s, |DataOf(e)|, 11);
    assert s[..11] == s && Eights(0) == 1;
  }

  /** The vnode a member becomes, and the one it is made as. */
  function NodeFor(e: Item): Node {
    match e
    case DirItem(_, _, _) => Dir([])
    case FileItem(_, _, d) => File(d)
    case LinkItem(_, _, t) => Link(t + [0])
  }

  function MadeAs(e: Item): Node {
    if e.DirItem? then Dir([]) else File([])
  }

  lemma ImportIs(nodes: seq<Node>, a: Bytes, off: nat, e: Item, o: Oracle)
    requires NodesOk(nodes) && ItemOk(e) && HeaderFor(a, off, e) && DataAt(a, off + BLOCK, |DataOf(e)|) == DataOf(e)
    ensures var made := Creates(nodes, 0, NameText(e), MadeAs(e), o.verdict(off), o.junk(off));
            ImportOne(nodes, a, off, o) == if e.DirItem? then made else Filled(made, |nodes|, NodeFor(e))
  {
    PathOfOk(e);
    StringIs(a, off, NameText(e));
    SizeIs(a, off, e);
    if e.LinkItem? {
      StringIs(a, off + 157, e.target);
    }
    hide Creates, NameText, StringAt, DataAt, SizeAt, Octal;
  }

  /** A member's vnode in a directory: made, then filled. */
  lemma MadeRefines(nodes: seq<Node>, m: map<seq<Bytes>, Content>, e: Item, d: nat)
    requires Refines(nodes, m) && Walk(nodes, 0, e.parent) == Some(d) && d < |nodes| && nodes[d].Dir? && PathOf(e) !in m
    ensures var made := Added(nodes, d, e.name, MadeAs(e));
            Refines(if e.DirItem? then made else Filled(made, |nodes|, NodeFor(e)), m[PathOf(e) := ContentFor(e)])
  {
    var made := Added(nodes, d, e.name, MadeAs(e));
    AddedRefines(nodes, m, e.parent, d, e.name, MadeAs(e));
    assert |made| == |nodes| + 1 && made[|nodes|] == MadeAs(e);
    hide Refines, Walk, Added, Find, NodesOk;
    if !e.DirItem? {
      FilledRefines(made, m, e, |nodes|);
    }
  }

  lemma FilledRefines(made: seq<Node>, m: map<seq<Bytes>, Content>, e: Item, v: nat)
    requires !e.DirItem? && Refines(made, m[PathOf(e) := ContentOf(File([]))])
    requires |made| == v + 1 && made[v] == File([]) && Walk(made, 0, PathOf(e)) == Some(v)
    ensures Refines(Filled(made, v, NodeFor(e)), m[PathOf(e) := ContentFor(e)])
  {
    RefinesOk(made, m[PathOf(e) := ContentOf(File([]))]);
    NodeForOk(e);
    hide *;
    RefillRefines(made, m, PathOf(e), v, NodeFor(e));
    FilledIs(made, v, NodeFor(e));
  }

  lemma FilledIs(made: seq<Node>, v: nat, n: Node)
    requires |made| == v + 1
    ensures Filled(made, v, n) == made[v := n]
  {}

  lemma NodeForOk(e: Item)
    requires !e.DirItem?
    ensures ContentOf(NodeFor(e)) == ContentFor(e) && !NodeFor(e).Dir?
  {}

  lemma RefinesOk(nodes: seq<Node>, m: map<seq<Bytes>, Content>)
    requires Refines(nodes, m)
    ensures NodesOk(nodes)
  {}

  lemma RefillRefines(made: seq<Node>, m: map<seq<Bytes>, Content>, p: seq<Bytes>, v: nat, n: Node)
    requires NodesOk(made) && Refines(made, m[p := ContentOf(File([]))])
    requires v < |made| && made[v] == File([]) && Walk(made, 0, p) == Some(v) && !n.Dir?
    ensures Refines(made[v := n], m[p := ContentOf(n)])
  {
    hide *;
    MapTwice(m, p, ContentOf(File([])), ContentOf(n));
    StoredRefines(made, m[p := ContentOf(File([]))], p, v, n);
  }

  lemma MapTwice<K, V>(m: map<K, V>, k: K, v1: V, v2: V)
    ensures m[k := v1][k := v2] == m[k := v2]
  {}

  /** One well-formed header adds its member. */
  lemma ImportsOne(nodes: seq<Node>, m: map<seq<Bytes>, Content>, a: Bytes, off: nat, e: Item, o: Oracle)
    requires Refines(nodes, m) && ItemOk(e) && e.parent in m && m[e.parent] == Directory && PathOf(e) !in m
    requires HeaderFor(a, off, e) && DataAt(a, off + BLOCK, |DataOf(e)|) == DataOf(e)
    ensures Refines(ImportOne(nodes, a, off, o), m[PathOf(e) := ContentFor(e)])
  {
    ImportIs(nodes, a, off, e, o);
    var d := CreatesFresh(nodes, m, e, MadeAs(e), o.verdict(off), o.junk(off));
    MadeRefines(nodes, m, e, d);
    hide Refines, Creates, Walk, HeaderFor, ItemOk, NameText, DataAt, ImportOne, Filled, Added, DataOf;
  }

  lemma ImportNext(nodes: seq<Node>, a: Bytes, off: nat, o: Oracle, size: nat)
    requires NodesOk(nodes) && off + 1024 < |a| && SizeAt(a, off) == size
    ensures NodesOk(ImportOne(nodes, a, off, o))
    ensures Import(nodes, a, off, o) == Import(ImportOne(nodes, a, off, o), a, off + BLOCK + Blocks(size), o)
  {
    hide ImportOne, SizeAt;
    ImportOneOk(nodes, a, off, o);
  }

  /** The first header of an archive. */
  lemma ImportStep(nodes: seq<Node>, m: map<seq<Bytes>, Content>, a: Bytes, off: nat, es: seq<Item>, o: Oracle,
                   m1: map<seq<Bytes>, Content>, next: nat)
    requires Refines(nodes, m) && Encodes(a, off, es) && Ordered(m, es) && es != []
    requires m1 == m[PathOf(es[0]) := ContentFor(es[0])] && next == off + BLOCK + Blocks(|DataOf(es[0])|)
    ensures NodesOk(nodes) && Refines(ImportOne(nodes, a, off, o), m1)
    ensures Import(nodes, a, off, o) == Import(ImportOne(nodes, a, off, o), a, next, o)
  {
    hide Refines, HeaderFor, ItemOk, ImportOne, NodesOk, Import, ContentFor, PathOf, DataAt, Blocks;
    RefinesOk(nodes, m);
    EncodesMore(a, off, es);
    ImportsOne(nodes, m, a, off, es[0], o);
    SizeIs(a, off, es[0]);
    ImportNext(nodes, a, off, o, |DataOf(es[0])|);
  }

  /** The import of an archive refines the tree the archive stands for. */
  lemma {:induction false} ImportsAll(nodes: seq<Node>, m: map<seq<Bytes>, Content>, a: Bytes, off: nat, es: seq<Item>, o: Oracle)
    requires Refines(nodes, m) && Encodes(a, off, es) && Ordered(m, es)
    ensures Refines(Import(nodes, a, off, o), Tree(m, es))
    decreases |es|
  {
    hide Refines, NodesOk, Import, ImportOne, ItemOk, HeaderFor;
    RefinesOk(nodes, m);
    if es == [] {
      ImportsZeros(nodes, a, off, o);
    } else {
      var m1, next := m[PathOf(es[0]) := ContentFor(es[0])], off + BLOCK + Blocks(|DataOf(es[0])|);
      assert Encodes(a, next, es[1..]) && Ordered(m1, es[1..]);
      hide Encodes, Ordered, PathOf, ContentFor, Tree, DataOf, Blocks;
      ImportStep(nodes, m, a, off, es, o, m1, next);
      TreeNext(m, es);
      ImportsAll(ImportOne(nodes, a, off, o), m1, a, next, es[1..], o);
    }
  }

  lemma TreeNext(m: map<seq<Bytes>, Content>, es: seq<Item>)
    requires es != []
    ensures Tree(m, es) == Tree(m[PathOf(es[0]) := ContentFor(es[0])], es[1..])
  {}

  /** A header is never in the last 1024 bytes. */
  lemma {:induction false} EncodesMore(a: Bytes, off: nat, es: seq<Item>)
    requires Encodes(a, off, es)
    ensures off + 1024 + 512 * |es| <= |a|
    decreases |es|
  {
    if es != [] {
      EncodesMore(a, off + BLOCK + Blocks(|DataOf(es[0])|), es[1..]);
    }
  }

  /** Blocks of zeros change nothing, even though they compare equal to a directory of no name and
      their size field, read as digits, is a large number. */
  lemma {:induction false} ImportsZeros(nodes: seq<Node>, a: Bytes, off: nat, o: Oracle)
    requires NodesOk(nodes) && Zeroed(a, off)
    ensures Import(nodes, a, off, o) == nodes
    decreases |a| - off
  {
    if off + 1024 < |a| {
      assert Byte(a, off) == 0 && StringAt(a, off) == [] && TypeIs(a, off, 0x35);
      assert ImportOne(nodes, a, off, o) == nodes;
      ImportsZeros(nodes, a, off + BLOCK + Blocks(SizeAt(a, off)), o);
    }
  }

  /** Parse undoes write: the file system made from an archive has exactly the archive's paths, each
      with its kind and its bytes, whatever the undefined reads give and however many blocks of
      zeros end the archive. */
  lemma ImportUndoesWrite(a: Bytes, es: seq<Item>, o: Oracle)
    requires Encodes(a, 0, es) && Ordered(map[[] := Directory], es)
    ensures NodesOk([Dir([])])
    ensures Refines(Import([Dir([])], a, 0, o), Tree(map[[] := Directory], es))
  {
    EmptyRefines();
    ImportsAll([Dir([])], map[[] := Directory], a, 0, es, o);
  }

  lemma {:induction false} TreeKeeps(m: map<seq<Bytes>, Content>, es: seq<Item>, p: seq<Bytes>)
    requires p in m && Ordered(m, es)
    ensures p in Tree(m, es) && Tree(m, es)[p] == m[p]
    decreases |es|
  {
    if es != [] {
      TreeKeeps(m[PathOf(es[0]) := ContentFor(es[0])], es[1..], p);
    }
  }

  /** Every member of the archive is in the tree, with its content, and so is its parent. */
  lemma {:induction false} TreeHas(m: map<seq<Bytes>, Content>, es: seq<Item>, i: nat)
    requires Ordered(m, es) && i < |es|
    ensures PathOf(es[i]) in Tree(m, es) && Tree(m, es)[PathOf(es[i])] == ContentFor(es[i])
    ensures es[i].parent in Tree(m, es) && Tree(m, es)[es[i].parent] == Directory && ItemOk(es[i])
    decreases |es|
  {
    var m1 := m[PathOf(es[0]) := ContentFor(es[0])];
    if i == 0 {
      TreeKeeps(m1, es[1..], PathOf(es[0]));
      TreeKeeps(m1, es[1..], es[0].parent);
    } else {
      TreeHas(m1, es[1..], i - 1);
    }
  }

  /** Looking up a member's path in the imported file system, from the root or with slashes in front from
      anywhere, finds its vnode; a symbolic link leads where its target leads from the directory of the link. */
  lemma LookupFinds(a: Bytes, es: seq<Item>, o: Oracle, i: nat, cur: nat, lead: Bytes, verdict: bool) returns (k: nat)
    requires Encodes(a, 0, es) && Ordered(map[[] := Directory], es) && i < |es| && Slashes(lead) && (lead == [] ==> cur == 0)
    ensures NodesOk([Dir([])]) && NodesOk(Import([Dir([])], a, 0, o))
    ensures var nodes, text := Import([Dir([])], a, 0, o), lead + Text(PathOf(es[i]), []);
            && k < |nodes| && ContentOf(nodes[k]) == ContentFor(es[i]) && CString(text)
            && Walk(nodes, 0, es[i].parent).Some? && Walk(nodes, 0, es[i].parent).value < |nodes|
            && (cur < |nodes| ==>
                  LookupPath(nodes, cur, text, false, verdict).0
                  == if es[i].LinkItem? then LookupPath(nodes, Walk(nodes, 0, es[i].parent).value, es[i].target, false, false).0 else Found(k))
  {
    ImportUndoesWrite(a, es, o);
    TreeHas(map[[] := Directory], es, i);
    var nodes, e := Import([Dir([])], a, 0, o), es[i];
    k := MemberAt(nodes, Tree(map[[] := Directory], es), e);
    TextIsString(PathOf(e), []);
    if cur < |nodes| {
      MemberFound(nodes, e, k, cur, lead, verdict);
    }
  }

  /** The vnode of a member of the tree. */
  lemma MemberAt(nodes: seq<Node>, m: map<seq<Bytes>, Content>, e: Item) returns (k: nat)
    requires Refines(nodes, m) && ItemOk(e) && e.parent in m && m[e.parent] == Directory
    requires PathOf(e) in m && m[PathOf(e)] == ContentFor(e)
    ensures NodesOk(nodes) && MemberIs(nodes, e, k) && Path(PathOf(e)) && CString(Text(PathOf(e), []))
  {
    var d := Walk(nodes, 0, e.parent).value;
    k := Walk(nodes, 0, PathOf(e)).value;
    assert ContentOf(nodes[d]) == Directory;
    WalkLast(nodes, 0, PathOf(e));
    assert PathOf(e)[..|PathOf(e)| - 1] == e.parent;
    WalkedThrough(nodes, 0, e.parent, d);
    PathOfOk(e);
    TextIsString(PathOf(e), []);
  }

  /** Vnode `k` is the member, in its directory. */
  ghost predicate MemberIs(nodes: seq<Node>, e: Item, k: nat) {
    && NodesOk(nodes) && ItemOk(e) && k < |nodes| && ContentOf(nodes[k]) == ContentFor(e) && Through(nodes, 0, e.parent)
    && var d := Walk(nodes, 0, e.parent); d.Some? && d.value < |nodes| && LookupIn(nodes, d.value, e.name) == Some(k)
  }

  lemma MemberFound(nodes: seq<Node>, e: Item, k: nat, cur: nat, lead: Bytes, verdict: bool)
    requires MemberIs(nodes, e, k) && cur < |nodes| && Slashes(lead) && (lead == [] ==> cur == 0)
    ensures LookupPath(nodes, cur, lead + Text(PathOf(e), []), false, verdict).0
            == if e.LinkItem? then LookupPath(nodes, Walk(nodes, 0, e.parent).value, e.target, false, false).0 else Found(k)
  {
    hide LookupPath, Walk, LookupIn, Through, Text, TargetPath;
    LookupWalks(nodes, cur, lead, e.parent, Walk(nodes, 0, e.parent).value, e.name, [], verdict);
    if e.LinkItem? {
      TargetIs(e.target);
    }
  }

  /** A symbolic link of the archive with an absolute target that is another member leads to that one,
      from wherever it is opened. */
  lemma AbsoluteLinkFinds(a: Bytes, es: seq<Item>, o: Oracle, i: nat, j: nat, cur: nat, lead: Bytes, verdict: bool) returns (k: nat)
    requires Encodes(a, 0, es) && Ordered(map[[] := Directory], es) && i < |es| && j < |es| && Slashes(lead) && (lead == [] ==> cur == 0)
    requires es[i].LinkItem? && !es[j].LinkItem? && es[i].target == [SLASH] + Text(PathOf(es[j]), [])
    ensures NodesOk([Dir([])]) && NodesOk(Import([Dir([])], a, 0, o))
    ensures var nodes := Import([Dir([])], a, 0, o);
            && k < |nodes| && ContentOf(nodes[k]) == ContentFor(es[j])
            && (cur < |nodes| ==> LookupPath(nodes, cur, lead + Text(PathOf(es[i]), []), false, verdict).0 == Found(k))
  {
    hide Encodes, Ordered, Import, LookupPath, NodesOk;
    var link := LookupFinds(a, es, o, i, cur, lead, verdict);
    var d := Walk(Import([Dir([])], a, 0, o), 0, es[i].parent).value;
    k := LookupFinds(a, es, o, j, d, [SLASH], false);
  }

  lemma {:induction false} TargetIs(t: Bytes)
    requires CString(t)
    ensures TargetPath(t + [0]) == t
  {
    if t == [] {
      assert t + [0] == [0];
    } else {
      assert (t + [0])[1..] == t[1..] + [0];
      TargetIs(t[1..]);
    }
  }
}
