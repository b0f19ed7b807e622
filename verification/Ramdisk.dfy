/** From the boot archive to a user's read: importing (kernel/src/fs/tar.c), opening and reading
    (kernel/src/syscall/syscall.c) put together. */
module Ramdisk {
  import opened Bits
  import opened Collections
  import opened Tmpfs
  import opened Vfs
  import opened Tar
  import opened Descriptors

  /** Opening a member of the archive, by a relative or an absolute path, and reading it in pieces of any sizes returns its bytes. */
  method ReadMember(a: Bytes, es: seq<Item>, o: Oracle, i: nat, lead: Bytes, verdict: bool,
                    ns: seq<U64>, base: nat, mem: nat -> nat) returns (rs: seq<Received>)
    requires Encodes(a, 0, es) && Ordered(map[[] := Directory], es) && i < |es| && es[i].FileItem? && es[i].data != [] && Slashes(lead)
    requires 0 < base && base + |es[i].data| <= U64_SIZE && forall k :: 0 <= k < |ns| ==> Fits(es[i].data, 0, ns[k], base)
    ensures CopiedBy(rs) == ReadAt(es[i].data, 0, Sum(ns))
    ensures forall k :: 0 <= k < |rs| ==> rs[k].count == Some(|rs[k].copied|)
  {
    hide Encodes, Ordered, Import, LookupPath, NodesOk, CopiedBy, ReadAt, Answers, Fits;
    var fs := Populate(a, o);
    var text := lead + Text(PathOf(es[i]), []);
    ghost var k := LookupFinds(a, es, o, i, 0, lead, verdict);
    ghost var nodes := fs.nodes;
    assert ContentOf(nodes[k]) == Contents(es[i].data);
    RootIsFirst(nodes);
    var p := new Process(fs, 0);
    SomeFree(p.bitmap[..]);
    var file := p.OpenAt(text, verdict);
    assert p.table[..][file.fd] == Descriptor(Some(k), 0);
    rs := p.ReadMany(file.fd, ns, base, mem);
    PiecesOfFile(file.fd, es[i].data, 0, ns, base, mem);
  }

  lemma RootIsFirst(nodes: seq<Node>)
    requires NodesOk(nodes)
    ensures |nodes| > 0
  {}

  lemma SomeFree(b: seq<nat>)
    requires |b| == COUNT && forall i :: 0 <= i < COUNT ==> b[i] == 0
    ensures exists i :: 0 <= i < COUNT && Reserved(b)[i] == 0
    ensures forall fd :: Lowest(Reserved(b), fd) ==> fd == 2
  {
    assert Reserved(b)[2] == 0;
  }
}
