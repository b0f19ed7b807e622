/** File descriptors (kernel/src/syscall/syscall.c) over the descriptor bitmap of kernel/src/fs/vfs.c. */
module Descriptors {
  import opened Bits
  import opened Collections
  import opened Tmpfs
  import opened Vfs

  const COUNT: nat := 256
  const I32_LIMIT: nat := 0x8000_0000
  const NEWLINE: nat := 10

  /** `ptr` (absent for NULL) and `offset`. */
  datatype Descriptor = Descriptor(node: Option<nat>, offset: nat)

  /** The bitmap with the two standard descriptors taken, if both are free. */
  function Reserved(b: seq<nat>): (r: seq<nat>)
    requires |b| == COUNT
    ensures |r| == COUNT
  {
    if b[0] == 0 && b[1] == 0 then b[0 := 1][1 := 1] else b
  }

  /** `fd` is the lowest free descriptor. */
  ghost predicate Lowest(b: seq<nat>, fd: nat) {
    fd < |b| && b[fd] == 0 && forall i :: 0 <= i < fd ==> b[i] != 0
  }

  /** The standard descriptors are handed out exactly when just one of them is free: closing both takes
      them out of circulation again. */
  lemma StandardReused(b: seq<nat>, fd: nat)
    requires |b| == COUNT && Lowest(Reserved(b), fd)
    ensures fd < 2 <==> (b[0] == 0) != (b[1] == 0)
  {}

  /** A new offset on 64 bits. */
  function Wrapped(n: int): (r: nat)
    ensures r < U64_SIZE
  {
    n % U64_SIZE
  }

  /** What `openat` comes to; it does not return from a chain of symbolic links that never ends. */
  datatype Opened = NotFound | NoneFree | Open(fd: nat) | Hangs

  /** A cast to `int`. */
  function AsInt(n: nat): (r: int)
    ensures -(I32_LIMIT as int) <= r < I32_LIMIT
  {
    var low := n % 0x1_0000_0000;
    if low < I32_LIMIT then low else low - 0x1_0000_0000
  }

  /** What a read leaves in the buffer, and the byte count it returns if it does not fail. */
  datatype Received = Received(copied: Bytes, count: Option<int>)

  /** The file system returns the number of bytes it has copied as an `int`, and -1 is taken for an error. */
  function Counted(copied: Bytes): Received {
    var hm := AsInt(|copied|);
    Received(copied, if hm == -1 then None else Some(hm))
  }

  /** The count is right exactly if fewer than 2^31 bytes have been copied. */
  lemma CountIsRight(copied: Bytes)
    requires |copied| < U64_SIZE
    ensures Counted(copied).count == Some(|copied|) <==> |copied| < I32_LIMIT
  {}

  /** `syscall_read` of `n` bytes at an offset: descriptor 0 answers with a line break to more than one;
      otherwise what the file system copies, if there is a file with data. */
  function Answer(fd: nat, file: Option<Bytes>, off: nat, n: nat, base: nat, mem: nat -> nat): Received {
    if fd == 0 && n > 1 then Received([NEWLINE], Some(1))
    else if file.Some? && file.value != [] then Counted(Copied(file.value, base, mem, off, n))
    else Received([], None)
  }

  /** The offset afterwards. */
  function Moved(fd: nat, off: nat, n: nat, r: Received): nat {
    if (fd == 0 && n > 1) || r.count == None then off else Wrapped(off + r.count.value)
  }

  /** The answers to reads one after the other, and the offset in the end. */
  function Answers(fd: nat, file: Option<Bytes>, off: nat, ns: seq<nat>, base: nat, mem: nat -> nat): (seq<Received>, nat)
    decreases |ns|
  {
    if ns == [] then ([], off)
    else
      var r := Answer(fd, file, off, ns[0], base, mem);
      var rest := Answers(fd, file, Moved(fd, off, ns[0], r), ns[1..], base, mem);
      ([r] + rest.0, rest.1)
  }

  /** All the bytes put together. */
  function CopiedBy(rs: seq<Received>): Bytes {
    if rs == [] then [] else rs[0].copied + CopiedBy(rs[1..])
  }

  /** No pointer of a read of `n` bytes wraps, and neither does its byte count. */
  predicate Fits(data: Bytes, off: nat, n: nat, base: nat) {
    base + off + n < U64_SIZE && base + |data| + n < U64_SIZE && Min(n, |data|) < I32_LIMIT
  }

  /** One read that fits. */
  lemma AnswerFits(fd: nat, data: Bytes, off: nat, n: nat, base: nat, mem: nat -> nat)
    requires data != [] && 0 < base && Fits(data, off, n, base) && (fd == 0 ==> n <= 1)
    ensures var r := Answer(fd, Some(data), off, n, base, mem);
            && r.copied == ReadAt(data, off, n) && r.count == Some(|r.copied|) && Moved(fd, off, n, r) == off + |r.copied|
  {
    ReadsTheFile(data, base, mem, off, n);
    CountIsRight(Copied(data, base, mem, off, n));
  }

  /** The answers are the next `n` bytes of the file from `off` on, in pieces with the right counts. */
  ghost predicate Pieces(data: Bytes, off: nat, n: nat, rs: seq<Received>, end: nat) {
    && CopiedBy(rs) == ReadAt(data, off, n) && end == off + |CopiedBy(rs)|
    && forall i :: 0 <= i < |rs| ==> rs[i].count == Some(|rs[i].copied|)
  }

  /** Any sequence of reads that fit, from any offset, in the file or behind it, returns consecutive pieces:
      together they are the file from there on, as far as the sizes reach, and every count is right. */
  lemma {:induction false} PiecesOfFile(fd: nat, data: Bytes, off: nat, ns: seq<nat>, base: nat, mem: nat -> nat)
    requires data != [] && 0 < base && forall i :: 0 <= i < |ns| ==> Fits(data, off, ns[i], base) && (fd == 0 ==> ns[i] <= 1)
    ensures var a := Answers(fd, Some(data), off, ns, base, mem); Pieces(data, off, Sum(ns), a.0, a.1)
    decreases |ns|
  {
    hide Answer, Moved, ReadAt, CopiedBy, Pieces;
    if ns == [] {
      NoPieces(data, off);
    } else {
      var r := Answer(fd, Some(data), off, ns[0], base, mem);
      AnswerFits(fd, data, off, ns[0], base, mem);
      StillFits(data, off, ns, r.copied, base);
      PiecesOfFile(fd, data, off + |r.copied|, ns[1..], base, mem);
      var rest := Answers(fd, Some(data), off + |r.copied|, ns[1..], base, mem);
      OnePieceMore(data, off, ns[0], Sum(ns[1..]), r, rest.0, rest.1);
    }
  }

  lemma NoPieces(data: Bytes, off: nat)
    ensures Pieces(data, off, 0, [], off)
  {}

  lemma OnePieceMore(data: Bytes, off: nat, n: nat, m: nat, r: Received, rest: seq<Received>, end: nat)
    requires r.copied == ReadAt(data, off, n) && r.count == Some(|r.copied|) && Pieces(data, off + |r.copied|, m, rest, end)
    ensures Pieces(data, off, n + m, [r] + rest, end)
  {
    assert ([r] + rest)[1..] == rest;
    assert CopiedBy([r] + rest) == r.copied + CopiedBy(rest);
    hide CopiedBy;
    NextPiece(data, off, n, m);
  }

  lemma StillFits(data: Bytes, off: nat, ns: seq<nat>, c: Bytes, base: nat)
    requires ns != [] && c == ReadAt(data, off, ns[0]) && forall i :: 0 <= i < |ns| ==> Fits(data, off, ns[i], base)
    ensures forall i :: 0 <= i < |ns[1..]| ==> Fits(data, off + |c|, ns[1..][i], base)
  {
    forall i | 0 <= i < |ns[1..]| ensures Fits(data, off + |c|, ns[1..][i], base) {
      assert Fits(data, off, ns[i + 1], base) && off + |c| <= (if off > |data| then off else |data|);
    }
  }

  lemma NextPiece(data: Bytes, off: nat, n: nat, m: nat)
    ensures var r := ReadAt(data, off, n); r + ReadAt(data, off + |r|, m) == ReadAt(data, off, n + m)
  {}

  /** Seeking from the end of a file lands `offset` bytes from its end exactly if the file is shorter
      than 2^31 bytes. */
  lemma SeeksFromEnd(size: nat, offset: int)
    requires size < 0x8000_0000_0000_0000
    ensures Wrapped(AsInt(size) + offset) == Wrapped(size + offset) <==> size < I32_LIMIT
  {
    var d := size - AsInt(size);
    assert 0 <= d < U64_SIZE && (d == 0 <==> size < I32_LIMIT);
    if Wrapped(AsInt(size) + offset) == Wrapped(size + offset) {
      assert d % U64_SIZE == 0;
    }
  }

  /** For example, the end of a file of 2^31 bytes is taken to be at -2^31. */
  lemma SeeksFromEndFails()
    ensures Wrapped(AsInt(0x8000_0000) + 0) == 0xFFFF_FFFF_8000_0000
  {}

  class Process {
    const fs: FileSystem
    const bitmap: array<nat>
    const table: array<Descriptor>
    const cwd: nat

    ghost predicate Valid()
      reads this, fs, bitmap, table
    {
      && fs.Valid() && bitmap.Length == COUNT && table.Length == COUNT && cwd < |fs.nodes|
      && (forall i :: 0 <= i < COUNT && table[i].node.Some? ==> table[i].node.value < |fs.nodes| && bitmap[i] == 1)
      && (forall i :: 0 <= i < COUNT ==> table[i].offset < U64_SIZE)
    }

    constructor (files: FileSystem, directory: nat)
      requires files.Valid() && directory < |files.nodes|
      ensures Valid() && fs == files && cwd == directory && fresh(bitmap) && fresh(table)
      ensures forall i :: 0 <= i < COUNT ==> bitmap[i] == 0 && table[i] == Descriptor(None, 0)
    {
      fs, cwd := files, directory;
      bitmap := new nat[COUNT](_ => 0);
      table := new Descriptor[COUNT](_ => Descriptor(None, 0));
    }

    /** `allocate_fd_from_bitmap`. None if every descriptor is taken: the source then returns no value. */
    method AllocateFd() returns (res: Option<nat>)
      requires bitmap.Length == COUNT
      modifies bitmap
      ensures res.Some? ==> Lowest(Reserved(old(bitmap[..])), res.value) && bitmap[..] == Reserved(old(bitmap[..]))[res.value := 1]
      ensures res.None? ==> (forall i :: 0 <= i < COUNT ==> Reserved(old(bitmap[..]))[i] != 0) && bitmap[..] == Reserved(old(bitmap[..]))
    {
      ghost var b := Reserved(bitmap[..]);
      if bitmap[0] == 0 && bitmap[1] == 0 {
        bitmap[0] := 1;
        bitmap[1] := 1;
      }
      assert bitmap[..] == b;
      for fd := 0 to COUNT
        invariant bitmap[..] == b && forall i :: 0 <= i < fd ==> b[i] != 0
      {
        assert bitmap[fd] == b[fd];
        if bitmap[fd] == 0 {
          bitmap[fd] := 1;
          return Some(fd);
        }
      }
      return None;
    }

    /** `deallocate_fd_from_bitmap` */
    method DeallocateFd(fd: nat)
      requires bitmap.Length == COUNT && fd < COUNT
      modifies bitmap
      ensures bitmap[..] == if old(bitmap[fd]) == 1 then old(bitmap[..])[fd := 0] else old(bitmap[..])
    {
      if bitmap[fd] == 1 {
        bitmap[fd] := 0;
      }
    }

    /** `syscall_openat` relative to the working directory: a fresh descriptor at offset 0. Without a free
        descriptor the source goes on with a number it never set; the model stops there. */
    method OpenAt(path: Bytes, verdict: bool) returns (res: Opened)
      requires Valid() && CString(path)
      modifies bitmap, table
      ensures Valid()
      ensures var found := LookupPath(fs.nodes, cwd, path, false, verdict).0;
              && (res == NotFound <==> found.Missing?) && (res == Hangs <==> found.Endless?)
              && (res.Open? ==> Lowest(Reserved(old(bitmap[..])), res.fd)
                                && old(table[res.fd]).node == None
                                && table[..] == old(table[..])[res.fd := Descriptor(Some(found.node), 0)]
                                && bitmap[..] == Reserved(old(bitmap[..]))[res.fd := 1])
              && (res == NoneFree ==> forall i :: 0 <= i < COUNT ==> Reserved(old(bitmap[..]))[i] != 0)
              && (!res.Open? ==> table[..] == old(table[..]))
              && (res == NotFound || res == Hangs ==> bitmap[..] == old(bitmap[..]))
    {
      var found, _ := PathLookup(fs, cwd, path, false, verdict, Limit(fs.nodes) + 1);
      if !found.Found? {
        return if found.Endless? then Hangs else NotFound;
      }
      ghost var b, t := bitmap[..], table[..];
      var k := AllocateFd();
      assert forall i :: 0 <= i < COUNT && t[i].node.Some? ==> b[i] == 1;
      assert forall i :: 0 <= i < COUNT && b[i] == 1 ==> bitmap[..][i] == 1;
      if k.None? {
        return NoneFree;
      }
      assert Reserved(b)[k.value] == 0 && b[k.value] == 0;
      table[k.value] := Descriptor(Some(found.node), 0);
      return Open(k.value);
    }

    /** `syscall_close` */
    method Close(fd: nat)
      requires Valid() && fd < COUNT
      modifies bitmap, table
      ensures Valid() && table[..] == old(table[..])[fd := Descriptor(None, 0)]
      ensures bitmap[..] == if old(bitmap[fd]) == 1 then old(bitmap[..])[fd := 0] else old(bitmap[..])
    {
      ghost var b := bitmap[..];
      DeallocateFd(fd);
      table[fd] := Descriptor(None, 0);
      assert forall i :: 0 <= i < COUNT && i != fd ==> bitmap[..][i] == b[i];
    }

    /** The file of an open descriptor has its data at `base`. */
    ghost predicate LiesAt(d: Descriptor, base: nat)
      reads fs
      requires d.node.Some? ==> d.node.value < |fs.nodes|
    {
      d.node.Some? && fs.nodes[d.node.value].File? ==> 0 < base && base + |fs.nodes[d.node.value].data| <= U64_SIZE
    }

    /** What a descriptor is open on, if that is a file. */
    function FileOf(d: Descriptor): Option<Bytes>
      reads fs
      requires d.node.Some? ==> d.node.value < |fs.nodes|
    {
      if d.node.Some? && fs.nodes[d.node.value].File? then Some(fs.nodes[d.node.value].data) else None
    }

    /** `syscall_read`: a line break for more than one byte of descriptor 0, otherwise what the file
        system copies at the descriptor's offset, which moves by the count it returns. These are the bytes
        of the file exactly if the offset stays in it. */
    method Read(fd: nat, n: U64, base: nat, mem: nat -> nat) returns (res: Received)
      requires Valid() && fd < COUNT && LiesAt(table[fd], base)
      modifies table
      ensures Valid()
      ensures var d := old(table[fd]);
              && res == Answer(fd, FileOf(d), d.offset, n, base, mem)
              && table[..] == old(table[..])[fd := d.(offset := Moved(fd, d.offset, n, res))]
              && (!(fd == 0 && n > 1) && FileOf(d).Some? && FileOf(d).value != [] ==>
                    (res.copied == ReadAt(FileOf(d).value, d.offset, n) <==> StaysInFile(base, |FileOf(d).value|, d.offset, n)))
    {
      assert table[..] == table[..][fd := table[fd]];
      if fd == 0 && n > 1 {
        return Received([NEWLINE], Some(1));
      }
      var d := table[fd];
      if d.node == None {
        return Received([], None);
      }
      var got := fs.Read(d.node.value, n, d.offset, base, mem);
      if got == None {
        return Received([], None);
      }
      var hm := AsInt(|got.value|);
      if hm == -1 {
        return Received(got.value, None);
      }
      table[fd] := d.(offset := Wrapped(d.offset + hm));
      return Received(got.value, Some(hm));
    }

    /** Seeking to -1 and reading a byte gets the one in front of the file. */
    method ReadInFront(fd: nat, base: nat, mem: nat -> nat) returns (res: Received)
      requires Valid() && 0 < fd < COUNT && LiesAt(table[fd], base)
      requires table[fd].node.Some? && fs.nodes[table[fd].node.value].File? && fs.nodes[table[fd].node.value].data != []
      requires base + |fs.nodes[table[fd].node.value].data| < U64_SIZE
      modifies table
      ensures Valid() && |res.copied| > 0 && res.copied[0] == mem(base - 1)
    {
      ghost var node := table[fd].node;
      var off := Seek(fd, -1, 0);
      assert table[fd] == table[..][fd];
      ReadsInFront(fs.nodes[node.value].data, base, mem, 1, 1);
      res := Read(fd, 1, base, mem);
    }

    /** `syscall_seek` with a 32-bit offset: from the start, from the current offset, or from the end of
        an open file, whose size is cast to `int`; offsets wrap at 64 bits. The sum of two `int`s must not
        overflow in C. */
    method Seek(fd: nat, offset: int, whence: nat) returns (res: Option<nat>)
      requires Valid() && fd < COUNT && -(I32_LIMIT as int) <= offset < I32_LIMIT
      requires whence == 2 ==> table[fd].node.Some? && fs.nodes[table[fd].node.value].File?
                               && -(I32_LIMIT as int) <= AsInt(|fs.nodes[table[fd].node.value].data|) + offset < I32_LIMIT
      modifies table
      ensures Valid()
      ensures var d := old(table[fd]);
              && (whence > 2 ==> res == None && table[..] == old(table[..]))
              && (whence <= 2 ==>
                    var from := if whence == 0 then 0 else if whence == 1 then d.offset else AsInt(|fs.nodes[d.node.value].data|);
                    res == Some(Wrapped(from + offset)) && table[..] == old(table[..])[fd := d.(offset := res.value)])
    {
      if whence > 2 {
        return None;
      }
      var d := table[fd];
      var from := if whence == 0 then 0 else if whence == 1 then d.offset else AsInt(|fs.nodes[d.node.value].data|);
      table[fd] := d.(offset := Wrapped(from + offset));
      return Some(table[fd].offset);
    }

    /** Any sequence of reads on one descriptor. No other descriptor moves. */
    method ReadMany(fd: nat, ns: seq<U64>, base: nat, mem: nat -> nat) returns (rs: seq<Received>)
      requires Valid() && fd < COUNT && LiesAt(table[fd], base)
      modifies table
      ensures Valid()
      ensures var d := old(table[fd]);
              && rs == Answers(fd, FileOf(d), d.offset, ns, base, mem).0
              && table[..] == old(table[..])[fd := d.(offset := Answers(fd, FileOf(d), d.offset, ns, base, mem).1)]
      decreases |ns|
    {
      hide NodesOk, EntriesOk, Answer, Moved, ReadAt, StaysInFile;
      ghost var t, d := table[..], table[fd];
      if ns == [] {
        assert t == t[fd := d];
        return [];
      }
      var r := Read(fd, ns[0], base, mem);
      assert table[fd] == table[..][fd] == d.(offset := Moved(fd, d.offset, ns[0], r));
      var rest := ReadMany(fd, ns[1..], base, mem);
      rs := [r] + rest;
    }
  }
}
