/** Path resolution and creation (kernel/src/fs/vfs.c). Paths are C strings tokenised in place; whether
    the scan for trailing slashes calls a component the last one depends on the byte behind the
    buffer, so its verdict is a parameter. */
module Vfs {
  import opened Bits
  import opened Collections
  import opened Tmpfs

  /** Where resolution ends: at a vnode, nowhere, at a symbolic link to be followed from directory `dir`,
      or not at all. */
  datatype Outcome = Found(node: nat) | Missing | Followed(dir: nat, target: Bytes) | Endless

  ghost predicate CString(p: Bytes) {
    forall i :: 0 <= i < |p| ==> p[i] != 0
  }

  /** The length of the component that `p` begins with. */
  function Span(p: Bytes): (n: nat)
    ensures n <= |p| && (n < |p| ==> p[n] == SLASH) && forall i :: 0 <= i < n ==> p[i] != SLASH
  {
    if p == [] || p[0] == SLASH then 0
    else
      assert forall i :: 1 <= i < |p| ==> p[i] == p[1..][i - 1];
      1 + Span(p[1..])
  }

  /** Only slashes: a path that ends here has no further component. */
  predicate Slashes(p: Bytes) {
    forall i :: 0 <= i < |p| ==> p[i] == SLASH
  }

  /** The component at the start of `p` is taken to be the last one. */
  predicate IsLast(p: Bytes, n: nat, verdict: bool)
    requires n <= |p|
  {
    n == |p| || (Slashes(p[n..]) && verdict)
  }

  /** `vnode_path_lookup` from `cur` on up to a symbolic link: the outcome, and the last component if it is
      stored. */
  function Resolve(nodes: seq<Node>, cur: nat, p: Bytes, getParent: bool, verdict: bool): (r: (Outcome, Option<Bytes>))
    requires NodesOk(nodes) && cur < |nodes|
    ensures (r.0.Found? ==> r.0.node < |nodes|) && (r.0.Followed? ==> r.0.dir < |nodes| && r.1 == None) && !r.0.Endless?
    decreases |p|
  {
    if p == [] then (Found(cur), None)
    else if p[0] == SLASH then Resolve(nodes, cur, p[1..], getParent, verdict)
    else
      var n := Span(p);
      if getParent && IsLast(p, n, verdict) then (Found(cur), Some(p[..n]))
      else
        match LookupIn(nodes, cur, p[..n])
        case None => (if getParent then Found(cur) else Missing, Some(p[..n]))
        case Some(k) =>
          match nodes[k]
          case Dir(_) => Resolve(nodes, k, p[n..], getParent, verdict)
          case Link(target) => (Followed(cur, target), None)
          case File(_) => (Found(k), None)
  }

  /** Absolute paths start at the root. */
  function Start(cur: nat, p: Bytes): nat {
    if p != [] && p[0] == SLASH then 0 else cur
  }

  // --- Symbolic links --------------------------------------------------------------------------

  /** The text of a link, up to its terminator. */
  function TargetPath(data: Bytes): (p: Bytes)
    ensures CString(p)
  {
    if data == [] || data[0] == 0 then []
    else
      var rest := TargetPath(data[1..]);
      assert forall i :: 0 <= i < |rest| ==> rest[i] != 0;
      [data[0]] + rest
  }

  /** A link, if there is one, is followed once. */
  function Hop(nodes: seq<Node>, o: Outcome): (r: Outcome)
    requires NodesOk(nodes) && (o.Followed? ==> o.dir < |nodes|)
    ensures r.Followed? ==> r.dir < |nodes|
  {
    if o.Followed? then Resolve(nodes, Start(o.dir, TargetPath(o.target)), TargetPath(o.target), false, false).0 else o
  }

  function Hops(nodes: seq<Node>, o: Outcome, n: nat): (r: Outcome)
    requires NodesOk(nodes) && (o.Followed? ==> o.dir < |nodes|)
    ensures r.Followed? ==> r.dir < |nodes|
  {
    if n == 0 then o else Hop(nodes, Hops(nodes, o, n - 1))
  }

  /** Following links at most `n` times. */
  function Chase(nodes: seq<Node>, o: Outcome, n: nat): (r: Outcome)
    requires NodesOk(nodes) && (o.Followed? ==> o.dir < |nodes|)
    ensures !r.Followed? && (o.Found? ==> r == o) && (r.Found? && (o.Found? ==> o.node < |nodes|) ==> r.node < |nodes|)
    decreases n
  {
    if !o.Followed? then o else if n == 0 then Endless else Chase(nodes, Hop(nodes, o), n - 1)
  }

  /** More than any chain that ends can have: the links of all directories. */
  function Limit(nodes: seq<Node>): nat {
    |nodes| * |nodes|
  }

  /** `vnode_path_lookup`. The source follows links as long as there are any. */
  function LookupPath(nodes: seq<Node>, cur: nat, p: Bytes, getParent: bool, verdict: bool): (r: (Outcome, Option<Bytes>))
    requires NodesOk(nodes) && cur < |nodes|
    ensures !r.0.Followed? && (r.0.Found? ==> r.0.node < |nodes|)
  {
    var (o, last) := Resolve(nodes, Start(cur, p), p, getParent, verdict);
    (Chase(nodes, o, Limit(nodes) + 1), last)
  }

  lemma {:induction false} HopsFront(nodes: seq<Node>, o: Outcome, n: nat)
    requires NodesOk(nodes) && (o.Followed? ==> o.dir < |nodes|)
    ensures Hops(nodes, o, n + 1) == Hops(nodes, Hop(nodes, o), n)
  {
    hide Hop, NodesOk;
    if n > 0 {
      HopsFront(nodes, o, n - 1);
    }
  }

  lemma {:induction false} Settled(nodes: seq<Node>, o: Outcome, n: nat, m: nat)
    requires NodesOk(nodes) && (o.Followed? ==> o.dir < |nodes|) && n <= m && !Hops(nodes, o, n).Followed?
    ensures Hops(nodes, o, m) == Hops(nodes, o, n)
    decreases m
  {
    hide NodesOk;
    if n < m {
      Settled(nodes, o, n, m - 1);
    }
  }

  /** Chasing finds what any number of hops that is enough finds. */
  lemma {:induction false} ChaseIsHops(nodes: seq<Node>, o: Outcome, n: nat)
    requires NodesOk(nodes) && (o.Followed? ==> o.dir < |nodes|)
    ensures Chase(nodes, o, n) == if Hops(nodes, o, n).Followed? then Endless else Hops(nodes, o, n)
    decreases n
  {
    hide Hop, NodesOk;
    if !o.Followed? {
      Settled(nodes, o, 0, n);
    } else if n > 0 {
      ChaseIsHops(nodes, Hop(nodes, o), n - 1);
      HopsFront(nodes, o, n - 1);
    }
  }

  /** The directory `c / |nodes|` has a link, vnode `c % |nodes|`, that is followed. */
  ghost predicate LinkAt(nodes: seq<Node>, o: Outcome, c: nat) {
    |nodes| > 0 && c % |nodes| < |nodes| && nodes[c % |nodes|].Link? && o == Followed(c / |nodes|, nodes[c % |nodes|].data)
  }

  lemma {:induction false} ResolvedLink(nodes: seq<Node>, cur: nat, p: Bytes, getParent: bool, verdict: bool) returns (k: nat)
    requires NodesOk(nodes) && cur < |nodes| && Resolve(nodes, cur, p, getParent, verdict).0.Followed?
    ensures var o := Resolve(nodes, cur, p, getParent, verdict).0; k < |nodes| && nodes[k].Link? && o == Followed(o.dir, nodes[k].data)
    decreases |p|
  {
    if p[0] == SLASH {
      k := ResolvedLink(nodes, cur, p[1..], getParent, verdict);
    } else {
      var n := Span(p);
      k := LookupIn(nodes, cur, p[..n]).value;
      if nodes[k].Dir? {
        k := ResolvedLink(nodes, k, p[n..], getParent, verdict);
      }
    }
  }

  lemma Coded(nodes: seq<Node>, d: nat, k: nat) returns (c: nat)
    requires d < |nodes| && k < |nodes| && nodes[k].Link?
    ensures c < Limit(nodes) && LinkAt(nodes, Followed(d, nodes[k].data), c)
  {
    c := d * |nodes| + k;
    CodeParts(d, k, |nodes|);
  }

  lemma CodeParts(d: nat, k: nat, n: nat)
    requires d < n && k < n
    ensures d * n + k < n * n && (d * n + k) / n == d && (d * n + k) % n == k
  {
    QuotientIs(d * n + k, n, d, k);
    MulMono(n, d + 1, n);
    assert (d + 1) * n == d * n + n;
  }

  /** A code of the link that comes after `n` hops. */
  lemma LinkCode(nodes: seq<Node>, o: Outcome, n: nat) returns (c: nat)
    requires NodesOk(nodes) && (o.Followed? ==> o.dir < |nodes|) && Hops(nodes, o, n + 1).Followed?
    ensures c < Limit(nodes) && LinkAt(nodes, Hops(nodes, o, n + 1), c)
  {
    hide NodesOk, Resolve, LookupIn, Limit, LinkAt;
    var at := Hops(nodes, o, n);
    assert Hops(nodes, o, n + 1) == Hop(nodes, at);
    var t := TargetPath(at.target);
    var k := ResolvedLink(nodes, Start(at.dir, t), t, false, false);
    c := Coded(nodes, Hops(nodes, o, n + 1).dir, k);
  }

  /** The links after the hops from 1 to `n`. */
  lemma {:induction false} LinkCodes(nodes: seq<Node>, o: Outcome, n: nat) returns (cs: seq<nat>)
    requires NodesOk(nodes) && (o.Followed? ==> o.dir < |nodes|) && Hops(nodes, o, n).Followed?
    ensures |cs| == n && forall i :: 0 <= i < n ==> cs[i] < Limit(nodes) && LinkAt(nodes, Hops(nodes, o, i + 1), cs[i])
    decreases n
  {
    hide NodesOk, Hop, Limit, LinkAt;
    if n == 0 {
      cs := [];
    } else {
      if !Hops(nodes, o, n - 1).Followed? {
        Settled(nodes, o, n - 1, n);
      }
      cs := LinkCodes(nodes, o, n - 1);
      var c := LinkCode(nodes, o, n - 1);
      cs := cs + [c];
    }
  }

  /** A chain that comes back never ends. */
  lemma {:induction false} Repeats(nodes: seq<Node>, o: Outcome, i: nat, j: nat, n: nat)
    requires NodesOk(nodes) && (o.Followed? ==> o.dir < |nodes|) && i < j && Hops(nodes, o, i) == Hops(nodes, o, j)
    requires Hops(nodes, o, j).Followed?
    ensures Hops(nodes, o, n).Followed?
    decreases n
  {
    if n <= j {
      if !Hops(nodes, o, n).Followed? {
        Settled(nodes, o, n, j);
      }
    } else {
      SameAfter(nodes, o, i, j, n - j);
      Repeats(nodes, o, i, j, i + (n - j));
    }
  }

  lemma {:induction false} SameAfter(nodes: seq<Node>, o: Outcome, i: nat, j: nat, t: nat)
    requires NodesOk(nodes) && (o.Followed? ==> o.dir < |nodes|) && Hops(nodes, o, i) == Hops(nodes, o, j)
    ensures Hops(nodes, o, i + t) == Hops(nodes, o, j + t)
    decreases t
  {
    hide NodesOk, Hop;
    if t > 0 {
      SameAfter(nodes, o, i, j, t - 1);
    }
  }

  /** A chain of links that has not ended after as many hops as there can be different links never does. */
  lemma NeverEnds(nodes: seq<Node>, o: Outcome, n: nat)
    requires NodesOk(nodes) && (o.Followed? ==> o.dir < |nodes|) && Hops(nodes, o, Limit(nodes) + 1).Followed?
    ensures Hops(nodes, o, n).Followed?
  {
    hide NodesOk, Hops, LinkAt;
    var cs := LinkCodes(nodes, o, Limit(nodes) + 1);
    var i, j := Repeated(cs, Limit(nodes));
    SameLink(nodes, Hops(nodes, o, i + 1), Hops(nodes, o, j + 1), cs[i]);
    assert Hops(nodes, o, j + 1).Followed? by { IsLink(nodes, Hops(nodes, o, j + 1), cs[j]); }
    Repeats(nodes, o, i + 1, j + 1, n);
  }

  lemma IsLink(nodes: seq<Node>, o: Outcome, c: nat)
    requires LinkAt(nodes, o, c)
    ensures o.Followed?
  {}

  lemma SameLink(nodes: seq<Node>, o: Outcome, o': Outcome, c: nat)
    requires LinkAt(nodes, o, c) && LinkAt(nodes, o', c)
    ensures o == o'
  {}

  /** More numbers than there are different ones: two are the same. */
  lemma Repeated(cs: seq<nat>, m: nat) returns (i: nat, j: nat)
    requires |cs| > m && forall x :: 0 <= x < |cs| ==> cs[x] < m
    ensures i < j < |cs| && cs[i] == cs[j]
  {
    if Distinct(cs) {
      DistinctSize(cs);
      SubsetSize(Elems(cs), Below(m));
      assert false;
    }
    i, j :| 0 <= i < j < |cs| && cs[i] == cs[j];
  }

  /** What chasing finds is exactly where following the links ends; it ends nowhere exactly if every hop
      leads to another link. */
  lemma ChaseIsExact(nodes: seq<Node>, o: Outcome)
    requires NodesOk(nodes) && (o.Followed? ==> o.dir < |nodes|) && !o.Endless?
    ensures forall n: nat :: !Hops(nodes, o, n).Followed? ==> Chase(nodes, o, Limit(nodes) + 1) == Hops(nodes, o, n)
    ensures Chase(nodes, o, Limit(nodes) + 1) == Endless <==> forall n: nat :: Hops(nodes, o, n).Followed?
  {
    hide NodesOk, Hops, Limit, Chase;
    var m := Limit(nodes) + 1;
    ChaseIsHops(nodes, o, m);
    if Hops(nodes, o, m).Followed? {
      forall n: nat ensures Hops(nodes, o, n).Followed? {
        NeverEnds(nodes, o, n);
      }
    } else {
      forall n: nat | !Hops(nodes, o, n).Followed? ensures Hops(nodes, o, m) == Hops(nodes, o, n) {
        if n <= m { Settled(nodes, o, n, m); } else { Settled(nodes, o, m, n); }
      }
      NotEndless(nodes, o, m);
    }
  }

  lemma {:induction false} NotEndless(nodes: seq<Node>, o: Outcome, n: nat)
    requires NodesOk(nodes) && (o.Followed? ==> o.dir < |nodes|) && !o.Endless?
    ensures !Hops(nodes, o, n).Endless?
  {
    hide NodesOk, Resolve;
    if n > 0 {
      NotEndless(nodes, o, n - 1);
    }
  }

  /** A path to a symbolic link leads where the text of the link leads, looked up from the directory that
      has the link; if that is nowhere, so is this, and if that never ends, neither does this. */
  lemma LinkMeansTarget(nodes: seq<Node>, cur: nat, p: Bytes, verdict: bool)
    requires NodesOk(nodes) && cur < |nodes| && Resolve(nodes, Start(cur, p), p, false, verdict).0.Followed?
    ensures var o := Resolve(nodes, Start(cur, p), p, false, verdict).0;
            LookupPath(nodes, cur, p, false, verdict).0 == LookupPath(nodes, o.dir, TargetPath(o.target), false, false).0
  {
    hide Resolve, Chase, Hop;
    FollowedLeads(nodes, Resolve(nodes, Start(cur, p), p, false, verdict).0);
  }

  // --- Paths as text ---------------------------------------------------------------------------

  predicate Component(c: Bytes) {
    c != [] && forall i :: 0 <= i < |c| ==> c[i] != SLASH && c[i] != 0
  }

  ghost predicate Path(ps: seq<Bytes>) {
    forall i :: 0 <= i < |ps| ==> Component(ps[i])
  }

  /** The components joined by slashes, then `tail`, which is empty or a slash. */
  function Text(ps: seq<Bytes>, tail: Bytes): Bytes {
    if ps == [] then tail else if |ps| == 1 then ps[0] + tail else ps[0] + [SLASH] + Text(ps[1..], tail)
  }

  lemma SpanOf(c: Bytes, rest: Bytes)
    requires Component(c) && (rest == [] || rest[0] == SLASH)
    ensures Span(c + rest) == |c| && (c + rest)[..|c|] == c && (c + rest)[|c|..] == rest && c + rest != [] && (c + rest)[0] != SLASH
  {
    assert forall i :: 0 <= i < |c| ==> (c + rest)[i] == c[i];
    if rest != [] {
      assert (c + rest)[|c|] == SLASH;
    }
  }

  /** Every vnode on the way is a directory. */
  ghost predicate Through(nodes: seq<Node>, cur: nat, ps: seq<Bytes>)
    requires NodesOk(nodes) && cur < |nodes|
  {
    forall i :: 0 <= i <= |ps| ==> Walk(nodes, cur, ps[..i]).Some? && nodes[Walk(nodes, cur, ps[..i]).value].Dir?
  }

  lemma ThroughNext(nodes: seq<Node>, cur: nat, ps: seq<Bytes>)
    requires NodesOk(nodes) && cur < |nodes| && ps != [] && Through(nodes, cur, ps)
    ensures LookupIn(nodes, cur, ps[0]).Some?
    ensures var k := LookupIn(nodes, cur, ps[0]).value;
            nodes[k].Dir? && Through(nodes, k, ps[1..]) && Walk(nodes, cur, ps) == Walk(nodes, k, ps[1..])
  {
    assert ps[..1] == [ps[0]] && ps[..|ps|] == ps;
    assert ps[..1][1..] == [];
    assert Walk(nodes, cur, ps[..1]).Some?;
    var k := LookupIn(nodes, cur, ps[0]).value;
    forall i | 0 <= i <= |ps[1..]| ensures Walk(nodes, k, ps[1..][..i]).Some? && nodes[Walk(nodes, k, ps[1..][..i]).value].Dir? {
      assert ps[..i + 1][0] == ps[0] && ps[..i + 1][1..] == ps[1..][..i];
      assert Walk(nodes, cur, ps[..i + 1]) == Walk(nodes, k, ps[1..][..i]);
    }
    assert Walk(nodes, k, ps[1..][..0]) == Some(k);
  }

  /** One component that is a directory, with more behind it. */
  lemma ResolvesInto(nodes: seq<Node>, cur: nat, c: Bytes, names: seq<Bytes>, rest: Bytes, getParent: bool, verdict: bool)
    requires NodesOk(nodes) && cur < |nodes| && Component(c) && names != [] && Component(names[0])
    requires LookupIn(nodes, cur, c).Some? && nodes[LookupIn(nodes, cur, c).value].Dir?
    ensures Text([c] + names, rest) == c + ([SLASH] + Text(names, rest))
    ensures Resolve(nodes, cur, Text([c] + names, rest), getParent, verdict)
            == Resolve(nodes, LookupIn(nodes, cur, c).value, Text(names, rest), getParent, verdict)
  {
    var k, after := LookupIn(nodes, cur, c).value, [SLASH] + Text(names, rest);
    assert ([c] + names)[1..] == names;
    TextNotSlashes(names, rest);
    SpanOf(c, after);
    assert !Slashes(after) by {
      assert after[1] == Text(names, rest)[0];
    }
    hide Text, LookupIn, NodesOk;
    ResolveComponent(nodes, cur, c + after, getParent, verdict, |c|);
    assert after[1..] == Text(names, rest);
    hide Span;
  }

  /** Creating: the parent is the directory and the last component the name. If that is missing, so it is
      whatever follows behind a slash, and whatever the verdict on trailing slashes is. */
  lemma {:induction false} ResolvesParent(nodes: seq<Node>, cur: nat, ps: seq<Bytes>, d: nat, name: Bytes, tail: Bytes, verdict: bool)
    requires NodesOk(nodes) && cur < |nodes| && Path(ps) && Component(name)
    requires Through(nodes, cur, ps) && Walk(nodes, cur, ps) == Some(d)
    requires tail == [] || (tail[0] == SLASH && LookupIn(nodes, d, name) == None)
    ensures Resolve(nodes, cur, Text(ps + [name], tail), true, verdict) == (Found(d), Some(name))
    decreases |ps|
  {
    if ps == [] {
      assert ps + [name] == [name];
      SpanOf(name, tail);
    } else {
      var names := ps[1..] + [name];
      assert ps + [name] == [ps[0]] + names;
      ThroughNext(nodes, cur, ps);
      hide Resolve, Text, Walk, Through, NodesOk;
      ResolvesInto(nodes, cur, ps[0], names, tail, true, verdict);
      ResolvesParent(nodes, LookupIn(nodes, cur, ps[0]).value, ps[1..], d, name, tail, verdict);
    }
  }

  lemma TextNotSlashes(ps: seq<Bytes>, tail: Bytes)
    requires ps != [] && Component(ps[0])
    ensures Text(ps, tail) != [] && Text(ps, tail)[0] != SLASH
  {}

  /** Looking up a path whose inner vnodes are directories finds the vnode it walks to, if that is a
      directory or a file, and nothing if the last component is missing; a symbolic link is handed on to be
      followed. Behind a file, a link or a missing component the rest of the path is not looked at. */
  lemma {:induction false} ResolvesPath(nodes: seq<Node>, cur: nat, ps: seq<Bytes>, d: nat, name: Bytes, rest: Bytes, verdict: bool)
    requires NodesOk(nodes) && cur < |nodes| && Path(ps) && Component(name) && Through(nodes, cur, ps)
    requires Walk(nodes, cur, ps) == Some(d) && RestOk(nodes, d, name, rest)
    ensures Resolve(nodes, cur, Text(ps + [name], rest), false, verdict).0
            == match LookupIn(nodes, d, name)
               case None => Missing
               case Some(k) => if nodes[k].Link? then Followed(d, nodes[k].data) else Found(k)
    decreases |ps|
  {
    if ps == [] {
      assert ps + [name] == [name];
      SpanOf(name, rest);
      if LookupIn(nodes, d, name).Some? && nodes[LookupIn(nodes, d, name).value].Dir? {
        SlashesEnd(nodes, LookupIn(nodes, d, name).value, rest, verdict);
      }
    } else {
      var names := ps[1..] + [name];
      assert ps + [name] == [ps[0]] + names;
      ThroughNext(nodes, cur, ps);
      hide Resolve, Text, Walk, Through, NodesOk;
      ResolvesInto(nodes, cur, ps[0], names, rest, false, verdict);
      ResolvesPath(nodes, LookupIn(nodes, cur, ps[0]).value, ps[1..], d, name, rest, verdict);
    }
  }

  /** What may follow the component `name` of directory `d` without mattering: slashes, and anything behind
      a slash unless there is a directory of that name. */
  ghost predicate RestOk(nodes: seq<Node>, d: nat, name: Bytes, rest: Bytes)
    requires NodesOk(nodes) && d < |nodes|
  {
    var k := LookupIn(nodes, d, name);
    rest == [] || (rest[0] == SLASH && (k.Some? && nodes[k.value].Dir? ==> Slashes(rest)))
  }

  lemma {:induction false} SlashesEnd(nodes: seq<Node>, cur: nat, p: Bytes, verdict: bool)
    requires NodesOk(nodes) && cur < |nodes| && Slashes(p)
    ensures Resolve(nodes, cur, p, false, verdict).0 == Found(cur)
    decreases |p|
  {
    if p != [] {
      SlashesEnd(nodes, cur, p[1..], verdict);
    }
  }

  /** Slashes in front of a path are skipped. */
  lemma {:induction false} SlashesSkipped(nodes: seq<Node>, cur: nat, lead: Bytes, p: Bytes, getParent: bool, verdict: bool)
    requires NodesOk(nodes) && cur < |nodes| && Slashes(lead)
    ensures Resolve(nodes, cur, lead + p, getParent, verdict) == Resolve(nodes, cur, p, getParent, verdict)
    decreases |lead|
  {
    if lead == [] {
      assert lead + p == p;
    } else {
      assert (lead + p)[1..] == lead[1..] + p;
      SlashesSkipped(nodes, cur, lead[1..], p, getParent, verdict);
    }
  }

  /** Where looking up `name` in directory `d` leads, links followed. */
  ghost function Leads(nodes: seq<Node>, d: nat, name: Bytes): Outcome
    requires NodesOk(nodes) && d < |nodes|
  {
    match LookupIn(nodes, d, name)
    case None => Missing
    case Some(k) => if nodes[k].Link? then LookupPath(nodes, d, TargetPath(nodes[k].data), false, false).0 else Found(k)
  }

  /** A path without a leading slash is walked from the directory given, one with slashes in front from the
      root, wherever the lookup is done from. */
  lemma LookupWalks(nodes: seq<Node>, cur: nat, lead: Bytes, ps: seq<Bytes>, d: nat, name: Bytes, rest: Bytes, verdict: bool)
    requires NodesOk(nodes) && cur < |nodes| && Slashes(lead) && Path(ps) && Component(name)
    requires var from := if lead == [] then cur else 0; Through(nodes, from, ps) && Walk(nodes, from, ps) == Some(d)
    requires d < |nodes| && RestOk(nodes, d, name, rest)
    ensures LookupPath(nodes, cur, lead + Text(ps + [name], rest), false, verdict).0 == Leads(nodes, d, name)
  {
    var from, p := if lead == [] then cur else 0, Text(ps + [name], rest);
    assert (ps + [name])[0] == if ps == [] then name else ps[0];
    TextNotSlashes(ps + [name], rest);
    assert Start(cur, lead + p) == from by {
      assert (lead + p)[0] == if lead == [] then p[0] else SLASH;
    }
    SlashesSkipped(nodes, from, lead, p, false, verdict);
    ResolvesPath(nodes, from, ps, d, name, rest, verdict);
    hide Resolve, Walk, LookupIn, Through, Text, Start, NodesOk, TargetPath;
    var o := Resolve(nodes, from, lead + p, false, verdict).0;
    if o.Followed? {
      LinkMeansTarget(nodes, cur, lead + p, verdict);
    }
  }

  /** Only slashes, or nothing: the root, or the directory given. */
  lemma LookupSlashes(nodes: seq<Node>, cur: nat, lead: Bytes, verdict: bool)
    requires NodesOk(nodes) && cur < |nodes| && Slashes(lead)
    ensures LookupPath(nodes, cur, lead, false, verdict).0 == Found(if lead == [] then cur else 0)
  {
    SlashesEnd(nodes, Start(cur, lead), lead, verdict);
  }

  /** So a path that goes on behind a symbolic link leads where the link leads. */
  lemma RestIgnored(nodes: seq<Node>, cur: nat, lead: Bytes, ps: seq<Bytes>, d: nat, name: Bytes, k: nat, rest: Bytes, verdict: bool)
    requires NodesOk(nodes) && cur < |nodes| && Slashes(lead) && Path(ps) && Component(name)
    requires var from := if lead == [] then cur else 0; Through(nodes, from, ps) && Walk(nodes, from, ps) == Some(d)
    requires d < |nodes| && LookupIn(nodes, d, name) == Some(k) && nodes[k].Link? && rest != [] && rest[0] == SLASH
    ensures LookupPath(nodes, cur, lead + Text(ps + [name], rest), false, verdict).0
            == LookupPath(nodes, d, TargetPath(nodes[k].data), false, false).0
  {
    hide Resolve, LookupPath, Walk, LookupIn, Through, Text, TargetPath;
    LookupWalks(nodes, cur, lead, ps, d, name, rest, verdict);
  }

  /** A link with an absolute target leads there from every directory. */
  lemma AbsoluteTarget(nodes: seq<Node>, d: nat, name: Bytes, k: nat, qs: seq<Bytes>, e: nat, there: Bytes)
    requires NodesOk(nodes) && d < |nodes| && LookupIn(nodes, d, name) == Some(k) && k < |nodes| && nodes[k].Link?
    requires Path(qs) && Component(there) && TargetPath(nodes[k].data) == [SLASH] + Text(qs + [there], [])
    requires Through(nodes, 0, qs) && Walk(nodes, 0, qs) == Some(e) && e < |nodes|
    ensures Leads(nodes, d, name) == Leads(nodes, e, there)
  {
    hide Resolve, LookupPath, Walk, LookupIn, Through, Text, TargetPath;
    LookupWalks(nodes, d, [SLASH], qs, e, there, [], false);
  }

  /** Creating at a path, from the directory given or with slashes in front from the root. */
  lemma CreatesThere(nodes: seq<Node>, cur: nat, lead: Bytes, ps: seq<Bytes>, d: nat, name: Bytes, tail: Bytes, n: Node, verdict: bool, junk: Bytes)
    requires NodesOk(nodes) && cur < |nodes| && Slashes(lead) && Path(ps) && Component(name)
    requires var from := if lead == [] then cur else 0; Through(nodes, from, ps) && Walk(nodes, from, ps) == Some(d)
    requires d < |nodes| && nodes[d].Dir? && (tail == [] || (tail[0] == SLASH && LookupIn(nodes, d, name) == None))
    ensures Creates(nodes, cur, lead + Text(ps + [name], tail), n, verdict, junk) == Added(nodes, d, name, n)
  {
    var from, p := if lead == [] then cur else 0, Text(ps + [name], tail);
    assert (ps + [name])[0] == if ps == [] then name else ps[0];
    TextNotSlashes(ps + [name], tail);
    assert Start(cur, lead + p) == from by {
      assert (lead + p)[0] == if lead == [] then p[0] else SLASH;
    }
    SlashesSkipped(nodes, from, lead, p, true, verdict);
    ResolvesParent(nodes, from, ps, d, name, tail, verdict);
    hide Resolve, Walk, LookupIn, Through, Text, NodesOk;
  }

  /** Creating behind a file creates nothing; behind a symbolic link the new vnode appears where the link
      leads, if that is a directory, under whatever name the component buffer happens to hold. */
  lemma CreatesBehind(nodes: seq<Node>, cur: nat, lead: Bytes, ps: seq<Bytes>, d: nat, name: Bytes, k: nat, rest: Bytes,
                      n: Node, verdict: bool, junk: Bytes)
    requires NodesOk(nodes) && cur < |nodes| && Slashes(lead) && Path(ps) && Component(name)
    requires var from := if lead == [] then cur else 0; Through(nodes, from, ps) && Walk(nodes, from, ps) == Some(d)
    requires d < |nodes| && LookupIn(nodes, d, name) == Some(k) && !nodes[k].Dir? && rest != [] && rest[0] == SLASH && !Slashes(rest)
    ensures var o := Leads(nodes, d, name);
            Creates(nodes, cur, lead + Text(ps + [name], rest), n, verdict, junk)
            == if o.Found? && o.node < |nodes| && nodes[o.node].Dir? then Added(nodes, o.node, junk, n) else nodes
  {
    var from, p := if lead == [] then cur else 0, Text(ps + [name], rest);
    assert (ps + [name])[0] == if ps == [] then name else ps[0];
    TextNotSlashes(ps + [name], rest);
    assert Start(cur, lead + p) == from by {
      assert (lead + p)[0] == if lead == [] then p[0] else SLASH;
    }
    SlashesSkipped(nodes, from, lead, p, true, verdict);
    ResolvesBehind(nodes, from, ps, d, name, k, rest, verdict);
    hide Resolve, Walk, LookupIn, Through, Text, NodesOk, Start;
    var o := Resolve(nodes, from, lead + p, true, verdict).0;
    if o.Followed? {
      FollowedLeads(nodes, o);
    }
  }

  lemma {:induction false} ResolvesBehind(nodes: seq<Node>, cur: nat, ps: seq<Bytes>, d: nat, name: Bytes, k: nat, rest: Bytes, verdict: bool)
    requires NodesOk(nodes) && cur < |nodes| && Path(ps) && Component(name) && Through(nodes, cur, ps)
    requires Walk(nodes, cur, ps) == Some(d) && LookupIn(nodes, d, name) == Some(k) && !nodes[k].Dir?
    requires rest != [] && rest[0] == SLASH && !Slashes(rest)
    ensures Resolve(nodes, cur, Text(ps + [name], rest), true, verdict)
            == (if nodes[k].Link? then Followed(d, nodes[k].data) else Found(k), None)
    decreases |ps|
  {
    if ps == [] {
      assert ps + [name] == [name];
      SpanOf(name, rest);
    } else {
      var names := ps[1..] + [name];
      assert ps + [name] == [ps[0]] + names;
      ThroughNext(nodes, cur, ps);
      hide Resolve, Text, Walk, Through, NodesOk;
      ResolvesInto(nodes, cur, ps[0], names, rest, true, verdict);
      ResolvesBehind(nodes, LookupIn(nodes, cur, ps[0]).value, ps[1..], d, name, k, rest, verdict);
    }
  }

  /** Following a link is looking its text up from the directory that has it. */
  lemma FollowedLeads(nodes: seq<Node>, o: Outcome)
    requires NodesOk(nodes) && o.Followed? && o.dir < |nodes|
    ensures Chase(nodes, o, Limit(nodes) + 1) == LookupPath(nodes, o.dir, TargetPath(o.target), false, false).0
  {
    hide NodesOk, Resolve, Hops, Limit;
    LookupIsChase(nodes, o);
    HopEnds(nodes, o);
    hide LookupPath, Hop, Chase, TargetPath;
    var o', m := Hop(nodes, o), Limit(nodes) + 1;
    ChaseIsHops(nodes, o, m);
    ChaseIsHops(nodes, o', m);
    HopsFront(nodes, o, m);
    if Hops(nodes, o, m).Followed? {
      NeverEnds(nodes, o, m + 1);
    } else {
      Settled(nodes, o, m, m + 1);
    }
  }

  lemma LookupIsChase(nodes: seq<Node>, o: Outcome)
    requires NodesOk(nodes) && o.Followed? && o.dir < |nodes|
    ensures LookupPath(nodes, o.dir, TargetPath(o.target), false, false).0 == Chase(nodes, Hop(nodes, o), Limit(nodes) + 1)
  {
    hide NodesOk, Resolve, Chase, TargetPath;
  }

  lemma HopEnds(nodes: seq<Node>, o: Outcome)
    requires NodesOk(nodes) && o.Followed? && o.dir < |nodes|
    ensures var o' := Hop(nodes, o); (o'.Followed? ==> o'.dir < |nodes|) && !o'.Endless?
  {}

  /** A link to itself is followed for ever. */
  lemma EndlessHappens(verdict: bool)
    ensures var nodes := [Dir([Entry([0x61], 1)]), Link([0x61, 0])];
            NodesOk(nodes) && LookupPath(nodes, 0, [0x61], false, verdict).0 == Endless
  {
    var nodes := [Dir([Entry([0x61], 1)]), Link([0x61, 0])];
    assert EntriesOk(nodes[0].entries, 0, 2);
    var p: Bytes, o := [0x61], Followed(0, [0x61, 0]);
    assert p[1..] == [] && Span(p) == 1 && p[..1] == p;
    assert LookupIn(nodes, 0, p) == Some(1);
    assert Resolve(nodes, 0, p, false, verdict).0 == o && Resolve(nodes, 0, p, false, false).0 == o;
    assert TargetPath([0x61, 0]) == p by {
      assert [0x61, 0][1..] == [0];
    }
    hide Resolve, LookupIn, TargetPath;
    StandsStill(nodes, o, Limit(nodes) + 1);
    ChaseIsHops(nodes, o, Limit(nodes) + 1);
  }

  lemma {:induction false} StandsStill(nodes: seq<Node>, o: Outcome, n: nat)
    requires NodesOk(nodes) && o.Followed? && o.dir < |nodes| && Hop(nodes, o) == o
    ensures Hops(nodes, o, n) == o
  {
    hide NodesOk, Hop;
    if n > 0 {
      StandsStill(nodes, o, n - 1);
    }
  }

  // --- The source's procedures -----------------------------------------------------------------

  /** `strlen` of the component at `i` in the tokenised buffer. */
  method ComponentLength(work: array<nat>, i: nat, ghost path: Bytes) returns (len: nat)
    requires work.Length == |path| + 1 && i < |path| && CString(path) && Tokenised(work[..], path)
    ensures i + len <= |path| && len == Span(path[i..])
  {
    len := 0;
    while work[i + len] != 0
      invariant i + len <= |path| && Span(path[i..]) == len + Span(path[i + len..])
      decreases |path| - (i + len)
    {
      assert path[i + len..][1..] == path[i + len + 1..];
      len := len + 1;
    }
    assert Span(path[i + len..]) == 0;
  }

  /** The buffer with its slashes replaced by terminators, and its own terminator. */
  ghost predicate Tokenised(work: Bytes, path: Bytes) {
    && |work| == |path| + 1 && work[|path|] == 0
    && forall i :: 0 <= i < |path| ==> work[i] == if path[i] == SLASH then 0 else path[i]
  }

  method Tokenise(path: Bytes) returns (work: array<nat>)
    requires CString(path)
    ensures fresh(work) && Tokenised(work[..], path)
  {
    work := new nat[|path| + 1](_ => 0);
    for i := 0 to |path|
      invariant work[..i] == path[..i] && work[|path|] == 0
    {
      work[i] := path[i];
    }
    for i := 0 to |path|
      invariant work[|path|] == 0
      invariant forall k :: 0 <= k < |path| ==> work[k] == if k < i && path[k] == SLASH then 0 else path[k]
    {
      if work[i] == SLASH {
        work[i] := 0;
      }
    }
  }

  /** The scan behind the component that ends at `end`: if only separators follow, it runs past the
      buffer and the byte there decides. */
  method ScanLast(work: array<nat>, end: nat, path: Bytes, verdict: bool) returns (last: bool)
    requires Tokenised(work[..], path) && CString(path) && end < |path|
    ensures last == (Slashes(path[end..]) && verdict)
  {
    var j := end;
    while j < |path| && work[j] == 0
      invariant end <= j <= |path| && forall k :: end <= k < j ==> path[k] == SLASH
    {
      j := j + 1;
    }
    if j < |path| {
      assert path[end..][j - end] == path[j];
    }
    last := j == |path| && verdict;
  }

  /** `vnode_path_lookup`. It calls itself for the text of a link. The source does so without bound; `hops`
      is more than any chain of links can have that ends. */
  method PathLookup(fs: FileSystem, cur: nat, path: Bytes, getParent: bool, verdict: bool, hops: nat)
    returns (outcome: Outcome, last: Option<Bytes>)
    requires fs.Valid() && cur < |fs.nodes| && CString(path)
    ensures var r := Resolve(fs.nodes, Start(cur, path), path, getParent, verdict); (outcome, last) == (Chase(fs.nodes, r.0, hops), r.1)
    decreases hops
  {
    hide Resolve, NodesOk, Chase, TargetPath;
    outcome, last := FirstPass(fs, cur, path, getParent, verdict);
    ChaseStep(fs.nodes, outcome, hops);
    if outcome.Followed? {
      if hops == 0 {
        outcome := Endless;
      } else {
        var there, _ := PathLookup(fs, outcome.dir, TargetPath(outcome.target), false, false, hops - 1);
        outcome := there;
      }
    }
  }

  lemma ChaseStep(nodes: seq<Node>, o: Outcome, n: nat)
    requires NodesOk(nodes) && (o.Followed? ==> o.dir < |nodes|)
    ensures Chase(nodes, o, n) == if !o.Followed? then o else if n == 0 then Endless else Chase(nodes, Hop(nodes, o), n - 1)
  {}

  /** Its loop over the components, up to a link. */
  method FirstPass(fs: FileSystem, cur: nat, path: Bytes, getParent: bool, verdict: bool)
    returns (outcome: Outcome, last: Option<Bytes>)
    requires fs.Valid() && cur < |fs.nodes| && CString(path)
    ensures (outcome, last) == Resolve(fs.nodes, Start(cur, path), path, getParent, verdict)
  {
    var at: nat := if path != [] && path[0] == SLASH then 0 else cur;
    ghost var goal := Resolve(fs.nodes, at, path, getParent, verdict);
    var work := Tokenise(path);
    var i := 0;
    assert path[0..] == path;
    while i < |path|
      invariant i <= |path| && at < |fs.nodes| && Tokenised(work[..], path)
      invariant Resolve(fs.nodes, at, path[i..], getParent, verdict) == goal
      decreases |path| - i
    {
      if work[i] == 0 {
        SkipSlash(fs.nodes, at, path, i, getParent, verdict);
        i := i + 1;
      } else {
        var done: bool;
        done, outcome, last, at, i := LookupComponent(fs, work, at, path, i, getParent, verdict, goal);
        if done {
          return;
        }
      }
    }
    return Found(at), None;
  }

  lemma SkipSlash(nodes: seq<Node>, at: nat, path: Bytes, i: nat, getParent: bool, verdict: bool)
    requires NodesOk(nodes) && at < |nodes| && i < |path| && path[i] == SLASH
    ensures Resolve(nodes, at, path[i..], getParent, verdict) == Resolve(nodes, at, path[i + 1..], getParent, verdict)
  {
    assert path[i..][0] == path[i] && path[i..][1..] == path[i + 1..];
  }

  lemma ResolveComponent(nodes: seq<Node>, at: nat, p: Bytes, getParent: bool, verdict: bool, n: nat)
    requires NodesOk(nodes) && at < |nodes| && p != [] && p[0] != SLASH && n == Span(p)
    ensures Resolve(nodes, at, p, getParent, verdict)
            == if getParent && IsLast(p, n, verdict) then (Found(at), Some(p[..n]))
               else Looked(nodes, at, p, n, getParent, verdict)
  {}

  /** Resolution after the component has been looked up. */
  function Looked(nodes: seq<Node>, at: nat, p: Bytes, n: nat, getParent: bool, verdict: bool): (Outcome, Option<Bytes>)
    requires NodesOk(nodes) && at < |nodes| && n <= |p|
  {
    var k := LookupIn(nodes, at, p[..n]);
    if k.None? then (if getParent then Found(at) else Missing, Some(p[..n]))
    else if nodes[k.value].Dir? then Resolve(nodes, k.value, p[n..], getParent, verdict)
    else if nodes[k.value].Link? then (Followed(at, nodes[k.value].data), None)
    else (Found(k.value), None)
  }

  /** One component: either the answer, or the directory and the position to go on from. */
  method LookupComponent(fs: FileSystem, work: array<nat>, at: nat, path: Bytes, i: nat, getParent: bool, verdict: bool,
                         ghost goal: (Outcome, Option<Bytes>))
    returns (done: bool, outcome: Outcome, last: Option<Bytes>, at': nat, i': nat)
    requires fs.Valid() && at < |fs.nodes| && CString(path) && Tokenised(work[..], path) && i < |path| && work[i] != 0
    requires Resolve(fs.nodes, at, path[i..], getParent, verdict) == goal
    ensures done ==> (outcome, last) == goal
    ensures !done ==> i < i' <= |path| && at' < |fs.nodes| && Resolve(fs.nodes, at', path[i'..], getParent, verdict) == goal
  {
    hide Resolve, NodesOk, Tokenised, LookupIn, Looked, IsLast, CString;
    var component, isLast := ReadComponent(work, path, i, verdict);
    ghost var p, len := path[i..], |component|;
    ResolveComponent(fs.nodes, at, p, getParent, verdict, len);
    if isLast && getParent {
      return true, Found(at), Some(component), at, i;
    }
    done, outcome, last, at' := LookupNext(fs, at, component, getParent);
    LookedIs(fs.nodes, at, p, len, getParent, verdict);
    i' := i + |component|;
  }

  lemma LookedIs(nodes: seq<Node>, at: nat, p: Bytes, n: nat, getParent: bool, verdict: bool)
    requires NodesOk(nodes) && at < |nodes| && n <= |p|
    ensures var k := LookupIn(nodes, at, p[..n]);
            Looked(nodes, at, p, n, getParent, verdict)
            == if k.None? then (if getParent then Found(at) else Missing, Some(p[..n]))
               else if nodes[k.value].Dir? then Resolve(nodes, k.value, p[n..], getParent, verdict)
               else if nodes[k.value].Link? then (Followed(at, nodes[k.value].data), None)
               else (Found(k.value), None)
  {}

  /** The component at `i`, and whether it counts as the last one. */
  method ReadComponent(work: array<nat>, path: Bytes, i: nat, verdict: bool) returns (component: Bytes, isLast: bool)
    requires CString(path) && Tokenised(work[..], path) && i < |path| && work[i] != 0
    ensures var p, n := path[i..], |component|;
            && p != [] && p[0] != SLASH && n == Span(p) && 0 < n && i + n <= |path| && component == p[..n]
            && p[n..] == path[i + n..] && isLast == IsLast(p, n, verdict)
  {
    var len := ComponentLength(work, i, path);
    assert path[i] != SLASH && path[i..][0] == path[i];
    component := work[i..i + len];
    assert component == path[i..][..len] && path[i..][len..] == path[i + len..];
    isLast := i + len == |path|;
    if !isLast {
      isLast := ScanLast(work, i + len, path, verdict);
    }
  }

  /** Looking one component up. */
  method LookupNext(fs: FileSystem, at: nat, component: Bytes, getParent: bool)
    returns (done: bool, outcome: Outcome, last: Option<Bytes>, at': nat)
    requires fs.Valid() && at < |fs.nodes|
    ensures var k := LookupIn(fs.nodes, at, component);
            && (done <==> k.None? || !fs.nodes[k.value].Dir?)
            && (k.None? ==> outcome == (if getParent then Found(at) else Missing) && last == Some(component))
            && (k.Some? && fs.nodes[k.value].Link? ==> outcome == Followed(at, fs.nodes[k.value].data) && last == None)
            && (k.Some? && fs.nodes[k.value].File? ==> outcome == Found(k.value) && last == None)
            && (!done ==> at' == k.value)
  {
    done, outcome, last, at' := true, Missing, None, at;
    var res := fs.Lookup(at, component);
    if res == None {
      outcome, last := if getParent then Found(at) else Missing, Some(component);
    } else {
      match fs.nodes[res.value]
      case Dir(_) => done, at' := false, res.value;
      case Link(target) => outcome := Followed(at, target);
      case File(_) => outcome := Found(res.value);
    }
  }

  /** What creating `path` does to the vnodes: `junk` stands for the component buffer when no component
      has been stored in it, as behind a symbolic link. Where a chain of links does not end, the source
      does not return. */
  function Creates(nodes: seq<Node>, cur: nat, path: Bytes, n: Node, verdict: bool, junk: Bytes): (r: seq<Node>)
    requires NodesOk(nodes) && cur < |nodes|
  {
    if path == [] then nodes
    else
      var r := LookupPath(nodes, cur, path, true, verdict);
      if r.0.Found? && nodes[r.0.node].Dir? then Added(nodes, r.0.node, if r.1.Some? then r.1.value else junk, n) else nodes
  }

  /** `vfs_create`; `created` is the new vnode. */
  method Create(fs: FileSystem, indir: nat, path: Bytes, directory: bool, verdict: bool, junk: Bytes) returns (created: Option<nat>)
    requires fs.Valid() && indir < |fs.nodes| && CString(path)
    modifies fs
    ensures fs.Valid()
    ensures fs.nodes == Creates(old(fs.nodes), indir, path, if directory then Dir([]) else File([]), verdict, junk)
    ensures created == if |fs.nodes| > |old(fs.nodes)| then Some(|old(fs.nodes)|) else None
  {
    if path == [] {
      return None;
    }
    var parent, last := PathLookup(fs, indir, path, true, verdict, Limit(fs.nodes) + 1);
    if !parent.Found? {
      return None;
    }
    created := fs.Make(parent.node, if last.Some? then last.value else junk, directory);
  }
}
