/** A finite inode file system as a value: what the kernel holds while the supervisor
    works on it. Directories map names to inodes, so one file can have several names,
    inside the root or outside it; the link count is the number of those names. */
module Disk {
  import opened Basics
  import opened Paths

  type Ino = nat

  datatype Node =
    | File(bytes: seq<byte>, mode: nat)
    | Dir(entries: map<string, Ino>, mode: nat, removed: bool)
    | Symlink(text: string)
    | Other(opens: bool) // a fifo or a device, or a socket, which cannot be opened for reading

  type Nodes = map<Ino, Node>

  predicate Has(nodes: Nodes, d: Ino, n: string) {
    d in nodes && nodes[d].Dir? && n in nodes[d].entries
  }

  function Get(nodes: Nodes, d: Ino, n: string): Ino
    requires Has(nodes, d, n)
  {
    nodes[d].entries[n]
  }

  /** A height for every inode, so that no directory lies below itself. */
  ghost predicate Ranks(nodes: Nodes, r: map<Ino, nat>) {
    && nodes.Keys <= r.Keys
    && forall d, n :: Has(nodes, d, n) && Get(nodes, d, n) in r ==> r[Get(nodes, d, n)] < r[d]
  }

  ghost predicate Acyclic(nodes: Nodes) {
    exists r :: Ranks(nodes, r)
  }

  /** Every entry leads to a live inode. */
  ghost predicate Closed(nodes: Nodes) {
    forall d, n :: Has(nodes, d, n) ==>
      ValidName(n) && Get(nodes, d, n) in nodes && (nodes[Get(nodes, d, n)].Dir? ==> !nodes[Get(nodes, d, n)].removed)
  }

  /** Directories cannot be hard-linked. */
  ghost predicate SingleParent(nodes: Nodes) {
    forall d, n, e, m ::
      (&& Has(nodes, d, n) && Has(nodes, e, m) && Get(nodes, d, n) == Get(nodes, e, m)
       && Get(nodes, d, n) in nodes && nodes[Get(nodes, d, n)].Dir?)
      ==> d == e && n == m
  }

  /** Modes are the twelve permission bits; a removed directory holds nothing. */
  ghost predicate Sane(nodes: Nodes) {
    forall x :: x in nodes ==>
      match nodes[x]
      case File(_, mode) => mode < 0x1000
      case Dir(entries, mode, removed) => mode < 0x1000 && (removed ==> entries == map[])
      case _ => true
  }

  /** A well-formed file system with `root` a live directory of it. */
  ghost predicate Rooted(nodes: Nodes, root: Ino) {
    && Closed(nodes) && SingleParent(nodes) && Sane(nodes) && Acyclic(nodes)
    && root in nodes && nodes[root].Dir? && !nodes[root].removed
  }

  // ---- resolving a path ----------------------------------------------------

  /** Resolve a path one component at a time from `root`, never through a symlink. */
  function Walk(nodes: Nodes, root: Ino, p: Path): Option<Ino> {
    if p == [] then Some(root)
    else match Walk(nodes, root, p[..|p| - 1])
      case None => None
      case Some(d) => if Has(nodes, d, p[|p| - 1]) then Some(Get(nodes, d, p[|p| - 1])) else None
  }

  /** What a path shows: this is the tree a user sees. */
  datatype View = Absent | IsFile(bytes: seq<byte>, mode: nat) | IsDir(mode: nat) | IsLink(text: string) | IsOther(opens: bool)

  function Show(node: Node): View {
    match node
    case File(bytes, mode) => IsFile(bytes, mode)
    case Dir(_, mode, _) => IsDir(mode)
    case Symlink(text) => IsLink(text)
    case Other(opens) => IsOther(opens)
  }

  function At(nodes: Nodes, root: Ino, p: Path): View {
    match Walk(nodes, root, p)
    case None => Absent
    case Some(x) => if x in nodes then Show(nodes[x]) else Absent
  }

  /** A directory with something in it. */
  ghost predicate Occupied(nodes: Nodes, root: Ino, p: Path) {
    exists n :: !At(nodes, root, p + [n]).Absent?
  }

  lemma WalkStep(nodes: Nodes, root: Ino, p: Path, n: string)
    ensures Walk(nodes, root, p + [n]) ==
            match Walk(nodes, root, p)
            case None => None
            case Some(d) => if Has(nodes, d, n) then Some(Get(nodes, d, n)) else None
  {
    assert (p + [n])[..|p + [n]| - 1] == p;
  }

  lemma {:induction false} WalkLive(nodes: Nodes, root: Ino, p: Path)
    requires Rooted(nodes, root)
    requires Walk(nodes, root, p).Some?
    ensures var x := Walk(nodes, root, p).value; x in nodes && (nodes[x].Dir? ==> !nodes[x].removed)
    ensures ValidPath(p)
    decreases |p|
  {
    if p != [] {
      var q := p[..|p| - 1];
      WalkLive(nodes, root, q);
      assert p == q + [p[|p| - 1]];
      assert Has(nodes, Walk(nodes, root, q).value, p[|p| - 1]);
    }
  }

  /** Whatever lies above a resolved path is a directory. */
  lemma {:induction false} WalkAbove(nodes: Nodes, root: Ino, p: Path, q: Path)
    requires Rooted(nodes, root)
    requires Walk(nodes, root, p).Some? && q <= p
    ensures Walk(nodes, root, q).Some?
    ensures q < p ==> At(nodes, root, q).IsDir?
    decreases |p|
  {
    if q != p {
      var up := p[..|p| - 1];
      assert q <= up;
      WalkAbove(nodes, root, up, q);
      WalkLive(nodes, root, up);
      assert Has(nodes, Walk(nodes, root, up).value, p[|p| - 1]);
      assert q == up || q < up;
    }
  }

  lemma {:induction false} RankFalls(nodes: Nodes, root: Ino, r: map<Ino, nat>, p: Path)
    requires Rooted(nodes, root) && Ranks(nodes, r)
    requires p != [] && Walk(nodes, root, p).Some?
    ensures Walk(nodes, root, p).value in nodes
    ensures r[Walk(nodes, root, p).value] < r[root]
    decreases |p|
  {
    WalkLive(nodes, root, p);
    var q := p[..|p| - 1];
    WalkLive(nodes, root, q);
    if q != [] { RankFalls(nodes, root, r, q); }
    assert Has(nodes, Walk(nodes, root, q).value, p[|p| - 1]);
  }

  /** A directory is reached by one path only. */
  lemma {:induction false} DirPathUnique(nodes: Nodes, root: Ino, p: Path, q: Path)
    requires Rooted(nodes, root)
    requires Walk(nodes, root, p).Some? && Walk(nodes, root, p) == Walk(nodes, root, q)
    requires nodes[Walk(nodes, root, p).value].Dir?
    ensures p == q
    decreases |p|
  {
    var r :| Ranks(nodes, r);
    if p != [] { RankFalls(nodes, root, r, p); }
    if q != [] { RankFalls(nodes, root, r, q); }
    if p != [] && q != [] {
      var p', q' := p[..|p| - 1], q[..|q| - 1];
      WalkLive(nodes, root, p');
      WalkLive(nodes, root, q');
      var d, e := Walk(nodes, root, p').value, Walk(nodes, root, q').value;
      assert Has(nodes, d, p[|p| - 1]) && Has(nodes, e, q[|q| - 1]);
      DirPathUnique(nodes, root, p', q');
      assert p == p' + [p[|p| - 1]] && q == q' + [q[|q| - 1]];
    }
  }

  // ---- names and link counts -------------------------------------------------

  /** Every name an inode has, anywhere in the file system. */
  function NamesOf(nodes: Nodes, x: Ino): set<(Ino, string)> {
    set d, n | d in nodes && nodes[d].Dir? && n in nodes[d].entries && nodes[d].entries[n] == x :: (d, n)
  }

  function LinkCount(nodes: Nodes, x: Ino): nat {
    |NamesOf(nodes, x)|
  }

  lemma SetOfOne<T>(s: set<T>, a: T, b: T)
    requires |s| <= 1 && a in s && b in s
    ensures a == b
  {
    if a != b { assert |{a, b}| == 2; assert {a, b} <= s; SubsetSize({a, b}, s); }
  }

  lemma {:induction false} SubsetSize<T>(a: set<T>, b: set<T>)
    requires a <= b
    ensures |a| <= |b|
    ensures |a| == |b| ==> a == b
  {
    assert b == a + (b - a);
    assert |b| == |a| + |b - a|;
  }

  // ---- what lies outside ---------------------------------------------------------

  ghost predicate Reachable(nodes: Nodes, root: Ino, x: Ino) {
    exists p :: Walk(nodes, root, p) == Some(x)
  }

  /** An inode that is not this tree's own: it is not below the root at all, or it is a
      non-directory that also has a name in a directory that is not below the root. */
  ghost predicate Foreign(nodes: Nodes, root: Ino, x: Ino) {
    x in nodes &&
    (|| !Reachable(nodes, root, x)
     || (!nodes[x].Dir? && NamedOutside(nodes, root, x)))
  }

  /** A non-directory below the root that also has a name in a directory outside it. */
  ghost predicate NamedBothSides(nodes: Nodes, root: Ino, x: Ino) {
    x in nodes && !nodes[x].Dir? && Reachable(nodes, root, x) && NamedOutside(nodes, root, x)
  }

  ghost predicate NamedOutside(nodes: Nodes, root: Ino, x: Ino) {
    exists d, n :: Has(nodes, d, n) && Get(nodes, d, n) == x && !Reachable(nodes, root, d)
  }

  /** Nothing outside the root changed, nothing outside came in, and nothing inside got a
      name outside. */
  ghost predicate Quiet(nodes: Nodes, nodes': Nodes, root: Ino) {
    && (forall x :: Foreign(nodes, root, x) ==> x in nodes' && nodes'[x] == nodes[x] && Foreign(nodes', root, x))
    && (forall x :: NamedBothSides(nodes', root, x) ==> NamedBothSides(nodes, root, x))
  }

  lemma QuietItself(nodes: Nodes, root: Ino)
    ensures Quiet(nodes, nodes, root)
  {
  }

  lemma QuietTransitive(a: Nodes, b: Nodes, c: Nodes, root: Ino)
    requires Quiet(a, b, root) && Quiet(b, c, root)
    ensures Quiet(a, c, root)
  {
  }

  // ---- the four elementary changes ---------------------------------------------------

  /** Give a new inode a name. */
  function LinkNew(nodes: Nodes, d: Ino, n: string, x: Ino, node: Node): Nodes
    requires d in nodes && nodes[d].Dir?
  {
    nodes[d := nodes[d].(entries := nodes[d].entries[n := x])][x := node]
  }

  /** Take a name away. A directory has no other, so it is gone. */
  function Unlink(nodes: Nodes, d: Ino, n: string): Nodes
    requires Has(nodes, d, n)
  {
    var x := Get(nodes, d, n);
    var rest := nodes[d := nodes[d].(entries := nodes[d].entries - {n})];
    if x in rest && rest[x].Dir? then rest[x := rest[x].(removed := true)] else rest
  }

  /** A node that has nothing below it and could be created now. */
  predicate Fresh(node: Node) {
    match node
    case File(_, mode) => mode < 0x1000
    case Dir(entries, mode, removed) => mode < 0x1000 && entries == map[] && !removed
    case _ => true
  }

  lemma LinkNewRooted(nodes: Nodes, root: Ino, d: Ino, n: string, x: Ino, node: Node)
    requires Rooted(nodes, root)
    requires d in nodes && nodes[d].Dir? && !nodes[d].removed && n !in nodes[d].entries && ValidName(n)
    requires x !in nodes && Fresh(node)
    ensures Rooted(LinkNew(nodes, d, n, x, node), root)
  {
    var nodes' := LinkNew(nodes, d, n, x, node);
    var r :| Ranks(nodes, r);
    var r' := map y | y in nodes' :: if y == x then 0 else r[y] + 1;
    forall e, m | Has(nodes', e, m)
      ensures ValidName(m) && Get(nodes', e, m) in nodes'
      ensures nodes'[Get(nodes', e, m)].Dir? ==> !nodes'[Get(nodes', e, m)].removed
      ensures (e == d && m == n && Get(nodes', e, m) == x) || (Has(nodes, e, m) && Get(nodes, e, m) == Get(nodes', e, m) != x)
    {
      assert e != x;
      if !(e == d && m == n) { assert Has(nodes, e, m); }
    }
    assert Ranks(nodes', r');
  }

  lemma {:induction false} LinkNewWalk(nodes: Nodes, root: Ino, pd: Path, d: Ino, n: string, x: Ino, node: Node, q: Path)
    requires Rooted(nodes, root) && Walk(nodes, root, pd) == Some(d)
    requires d in nodes && nodes[d].Dir? && n !in nodes[d].entries
    requires x !in nodes && Fresh(node)
    ensures Walk(LinkNew(nodes, d, n, x, node), root, q) == if q == pd + [n] then Some(x) else Walk(nodes, root, q)
    decreases |q|
  {
    hide Rooted;
    if q != [] {
      var q', m := q[..|q| - 1], q[|q| - 1];
      assert q == q' + [m];
      LinkNewWalk(nodes, root, pd, d, n, x, node, q');
      if Walk(nodes, root, q').Some? {
        WalkLive(nodes, root, q');
        if Walk(nodes, root, q') == Some(d) { DirPathUnique(nodes, root, pd, q'); }
      }
    }
  }

  lemma UnlinkRooted(nodes: Nodes, root: Ino, d: Ino, n: string)
    requires Rooted(nodes, root) && Has(nodes, d, n)
    requires nodes[Get(nodes, d, n)].Dir? ==> nodes[Get(nodes, d, n)].entries == map[] && Get(nodes, d, n) != root
    ensures Rooted(Unlink(nodes, d, n), root)
  {
    var nodes' := Unlink(nodes, d, n);
    var x := Get(nodes, d, n);
    var r :| Ranks(nodes, r);
    forall e, m | Has(nodes', e, m)
      ensures Has(nodes, e, m) && Get(nodes, e, m) == Get(nodes', e, m)
      ensures nodes[x].Dir? ==> Get(nodes', e, m) != x
    {
      assert Has(nodes, e, m) && !(e == d && m == n);
    }
    assert Ranks(nodes', r);
  }

  lemma {:induction false} UnlinkWalk(nodes: Nodes, root: Ino, pd: Path, d: Ino, n: string, q: Path)
    requires Rooted(nodes, root) && Walk(nodes, root, pd) == Some(d) && Has(nodes, d, n)
    requires nodes[Get(nodes, d, n)].Dir? ==> nodes[Get(nodes, d, n)].entries == map[]
    ensures Walk(Unlink(nodes, d, n), root, q) == if q == pd + [n] then None else Walk(nodes, root, q)
    decreases |q|
  {
    hide Rooted;
    if q != [] {
      var q', m := q[..|q| - 1], q[|q| - 1];
      assert q == q' + [m];
      UnlinkWalk(nodes, root, pd, d, n, q');
      WalkStep(nodes, root, pd, n);
      if Walk(nodes, root, q').Some? {
        WalkLive(nodes, root, q');
        if Walk(nodes, root, q') == Some(d) { DirPathUnique(nodes, root, pd, q'); }
      }
    }
  }

  /** New contents or a new mode for an inode that stays where it is. */
  predicate SameShape(a: Node, b: Node) {
    || (a.File? && b.File? && b.mode < 0x1000)
    || (a.Dir? && b.Dir? && a.entries == b.entries && a.removed == b.removed && b.mode < 0x1000)
  }

  lemma {:induction false} RewriteWalk(nodes: Nodes, root: Ino, x: Ino, node: Node, q: Path)
    requires x in nodes && SameShape(nodes[x], node)
    ensures Walk(nodes[x := node], root, q) == Walk(nodes, root, q)
    decreases |q|
  {
    if q != [] { RewriteWalk(nodes, root, x, node, q[..|q| - 1]); }
  }

  lemma RewriteRooted(nodes: Nodes, root: Ino, x: Ino, node: Node)
    requires Rooted(nodes, root) && x in nodes && SameShape(nodes[x], node)
    ensures Rooted(nodes[x := node], root)
  {
    var nodes' := nodes[x := node];
    var r :| Ranks(nodes, r);
    assert forall e, m :: Has(nodes', e, m) <==> Has(nodes, e, m);
    assert Ranks(nodes', r);
  }

  // ---- none of them reaches outside ------------------------------------------------------

  lemma LinkNewQuiet(nodes: Nodes, root: Ino, pd: Path, d: Ino, n: string, x: Ino, node: Node)
    requires Rooted(nodes, root) && Walk(nodes, root, pd) == Some(d)
    requires d in nodes && nodes[d].Dir? && n !in nodes[d].entries
    requires x !in nodes && Fresh(node)
    ensures Quiet(nodes, LinkNew(nodes, d, n, x, node), root)
  {
    var nodes' := LinkNew(nodes, d, n, x, node);
    forall y | y in nodes && Reachable(nodes', root, y) ensures Reachable(nodes, root, y) {
      var q :| Walk(nodes', root, q) == Some(y);
      LinkNewWalk(nodes, root, pd, d, n, x, node, q);
    }
    forall e: Ino, m: string | Has(nodes', e, m) && !Reachable(nodes', root, e) ensures HadOutside(nodes, nodes', root, e, m) {
      LinkNewWalk(nodes, root, pd, d, n, x, node, pd);
      assert e != d && e != x;
      if q :| Walk(nodes, root, q) == Some(e) {
        LinkNewWalk(nodes, root, pd, d, n, x, node, q);
        WalkStep(nodes, root, pd, n);
      }
    }
    QuietIf(nodes, nodes', root);
  }

  lemma UnlinkReaches(nodes: Nodes, root: Ino, pd: Path, d: Ino, n: string)
    requires Rooted(nodes, root) && Walk(nodes, root, pd) == Some(d) && Has(nodes, d, n)
    requires nodes[Get(nodes, d, n)].Dir? ==> nodes[Get(nodes, d, n)].entries == map[]
    ensures var nodes' := Unlink(nodes, d, n);
      && (forall y :: y in nodes && Reachable(nodes', root, y) ==> Reachable(nodes, root, y))
      && forall e: Ino, m: string :: Has(nodes', e, m) && !Reachable(nodes', root, e) ==> HadOutside(nodes, nodes', root, e, m)
  {
    hide Acyclic, SingleParent, Closed;
    var nodes' := Unlink(nodes, d, n);
    forall y | y in nodes && Reachable(nodes', root, y) ensures Reachable(nodes, root, y) {
      var q :| Walk(nodes', root, q) == Some(y);
      UnlinkWalk(nodes, root, pd, d, n, q);
    }
    forall e: Ino, m: string | Has(nodes', e, m) && !Reachable(nodes', root, e) ensures HadOutside(nodes, nodes', root, e, m) {
      if q :| Walk(nodes, root, q) == Some(e) { UnlinkWalk(nodes, root, pd, d, n, q); }
    }
  }

  lemma UnlinkQuiet(nodes: Nodes, root: Ino, pd: Path, d: Ino, n: string)
    requires Rooted(nodes, root) && Walk(nodes, root, pd) == Some(d) && Has(nodes, d, n)
    requires nodes[Get(nodes, d, n)].Dir? ==> nodes[Get(nodes, d, n)].entries == map[]
    ensures Quiet(nodes, Unlink(nodes, d, n), root)
  {
    hide Quiet, Acyclic;
    var nodes' := Unlink(nodes, d, n);
    WalkStep(nodes, root, pd, n);
    assert Reachable(nodes, root, d) && Reachable(nodes, root, Get(nodes, d, n));
    assert forall y :: y in nodes && nodes'[y] != nodes[y] ==> !Foreign(nodes, root, y);
    UnlinkReaches(nodes, root, pd, d, n);
    QuietIf(nodes, nodes', root);
  }

  lemma RewriteQuiet(nodes: Nodes, root: Ino, x: Ino, node: Node)
    requires Rooted(nodes, root) && x in nodes && SameShape(nodes[x], node)
    requires !Foreign(nodes, root, x)
    ensures Quiet(nodes, nodes[x := node], root)
  {
    var nodes' := nodes[x := node];
    forall y | y in nodes && Reachable(nodes', root, y) ensures Reachable(nodes, root, y) {
      var q :| Walk(nodes', root, q) == Some(y);
      RewriteWalk(nodes, root, x, node, q);
    }
    forall e: Ino, m: string | Has(nodes', e, m) && !Reachable(nodes', root, e) ensures HadOutside(nodes, nodes', root, e, m) {
      if q :| Walk(nodes, root, q) == Some(e) { RewriteWalk(nodes, root, x, node, q); }
    }
    QuietIf(nodes, nodes', root);
  }

  /** The name was there before, in a directory outside the root. */
  ghost predicate HadOutside(nodes: Nodes, nodes': Nodes, root: Ino, e: Ino, m: string)
    requires Has(nodes', e, m)
  {
    Has(nodes, e, m) && Get(nodes, e, m) == Get(nodes', e, m) && !Reachable(nodes, root, e)
  }

  /** Enough to keep out: only the tree's own inodes differ, and nothing becomes reachable. */
  lemma QuietIf(nodes: Nodes, nodes': Nodes, root: Ino)
    requires nodes.Keys <= nodes'.Keys
    requires forall y :: y in nodes && nodes'[y] != nodes[y] ==> !Foreign(nodes, root, y)
    requires forall y :: y in nodes && Reachable(nodes', root, y) ==> Reachable(nodes, root, y)
    requires Closed(nodes) && forall y :: y in nodes ==> nodes'[y].Dir? == nodes[y].Dir?
    requires forall e: Ino, m: string :: Has(nodes', e, m) && !Reachable(nodes', root, e) ==> HadOutside(nodes, nodes', root, e, m)
    ensures Quiet(nodes, nodes', root)
  {
    forall x | NamedBothSides(nodes', root, x) ensures NamedBothSides(nodes, root, x) {
      var e, m :| Has(nodes', e, m) && Get(nodes', e, m) == x && !Reachable(nodes', root, e);
      assert HadOutside(nodes, nodes', root, e, m);
    }
    forall y | Foreign(nodes, root, y) ensures nodes'[y] == nodes[y] && Foreign(nodes', root, y) {
      if Reachable(nodes, root, y) {
        var e, m :| Has(nodes, e, m) && Get(nodes, e, m) == y && !Reachable(nodes, root, e);
        assert Foreign(nodes, root, e);
        assert Has(nodes', e, m) && Get(nodes', e, m) == y && !Reachable(nodes', root, e);
      }
    }
  }

  lemma ReachedDirIsOwn(nodes: Nodes, root: Ino, p: Path)
    requires Rooted(nodes, root)
    requires Walk(nodes, root, p).Some? && nodes[Walk(nodes, root, p).value].Dir?
    ensures !Foreign(nodes, root, Walk(nodes, root, p).value)
  {
  }

  /** A file with one name is shown by one path, and that name is inside. */
  lemma SoleName(nodes: Nodes, root: Ino, p: Path)
    requires Rooted(nodes, root)
    requires p != [] && Walk(nodes, root, p).Some?
    requires LinkCount(nodes, Walk(nodes, root, p).value) <= 1
    ensures !Foreign(nodes, root, Walk(nodes, root, p).value)
    ensures forall q :: q != [] && Walk(nodes, root, q) == Walk(nodes, root, p) ==> q == p
  {
    var x := Walk(nodes, root, p).value;
    var up, n := p[..|p| - 1], p[|p| - 1];
    WalkLive(nodes, root, p);
    WalkLive(nodes, root, up);
    var d := Walk(nodes, root, up).value;
    assert (d, n) in NamesOf(nodes, x);
    forall q | q != [] && Walk(nodes, root, q) == Some(x) ensures q == p {
      var uq, m := q[..|q| - 1], q[|q| - 1];
      WalkLive(nodes, root, uq);
      var e := Walk(nodes, root, uq).value;
      assert (e, m) in NamesOf(nodes, x);
      SetOfOne(NamesOf(nodes, x), (d, n), (e, m));
      DirPathUnique(nodes, root, up, uq);
      assert p == up + [n] && q == uq + [m];
    }
    forall e: Ino, m: string | Has(nodes, e, m) && Get(nodes, e, m) == x ensures Reachable(nodes, root, e) {
      assert (e, m) in NamesOf(nodes, x);
      SetOfOne(NamesOf(nodes, x), (d, n), (e, m));
    }
  }

  // ---- what each change does to the tree a user sees ------------------------------------------

  lemma LinkNewEffect(nodes: Nodes, root: Ino, pd: Path, d: Ino, n: string, x: Ino, node: Node)
    requires Rooted(nodes, root) && Walk(nodes, root, pd) == Some(d)
    requires d in nodes && nodes[d].Dir? && n !in nodes[d].entries && ValidName(n)
    requires x !in nodes && Fresh(node)
    ensures var nodes' := LinkNew(nodes, d, n, x, node);
      && Rooted(nodes', root) && Quiet(nodes, nodes', root)
      && (forall q :: Walk(nodes', root, q) == if q == pd + [n] then Some(x) else Walk(nodes, root, q))
      && (forall q :: At(nodes', root, q) == if q == pd + [n] then Show(node) else At(nodes, root, q))
      && NamesOf(nodes', x) == {(d, n)}
  {
    var nodes' := LinkNew(nodes, d, n, x, node);
    WalkLive(nodes, root, pd);
    LinkNewRooted(nodes, root, d, n, x, node);
    LinkNewQuiet(nodes, root, pd, d, n, x, node);
    forall q ensures Walk(nodes', root, q) == if q == pd + [n] then Some(x) else Walk(nodes, root, q)
      ensures At(nodes', root, q) == if q == pd + [n] then Show(node) else At(nodes, root, q)
    {
      LinkNewWalk(nodes, root, pd, d, n, x, node, q);
      if Walk(nodes, root, q).Some? { WalkLive(nodes, root, q); }
    }
    assert Has(nodes', d, n) && Get(nodes', d, n) == x;
    forall e: Ino, m: string | Has(nodes', e, m) && Get(nodes', e, m) == x ensures e == d && m == n {
      if !(e == d && m == n) { assert Has(nodes, e, m); }
    }
    NamesAre(nodes', x, d, n);
  }

  lemma NamesAre(nodes: Nodes, x: Ino, d: Ino, n: string)
    requires Has(nodes, d, n) && Get(nodes, d, n) == x
    requires forall e: Ino, m: string :: Has(nodes, e, m) && Get(nodes, e, m) == x ==> e == d && m == n
    ensures NamesOf(nodes, x) == {(d, n)}
  {
    forall w | w in NamesOf(nodes, x) ensures w == (d, n) {
      assert Has(nodes, w.0, w.1) && Get(nodes, w.0, w.1) == x;
    }
    assert (d, n) in NamesOf(nodes, x);
  }

  lemma UnlinkEffect(nodes: Nodes, root: Ino, pd: Path, d: Ino, n: string)
    requires Rooted(nodes, root) && Walk(nodes, root, pd) == Some(d) && Has(nodes, d, n)
    requires nodes[Get(nodes, d, n)].Dir? ==> nodes[Get(nodes, d, n)].entries == map[]
    ensures var nodes' := Unlink(nodes, d, n);
      && Rooted(nodes', root) && Quiet(nodes, nodes', root)
      && (forall q :: Walk(nodes', root, q) == if q == pd + [n] then None else Walk(nodes, root, q))
      && (forall q :: At(nodes', root, q) == if q == pd + [n] then Absent else At(nodes, root, q))
  {
    hide Acyclic, SingleParent, Sane;
    var nodes' := Unlink(nodes, d, n);
    WalkStep(nodes, root, pd, n);
    if nodes[Get(nodes, d, n)].Dir? && Get(nodes, d, n) == root { DirPathUnique(nodes, root, [], pd + [n]); }
    UnlinkRooted(nodes, root, d, n);
    UnlinkQuiet(nodes, root, pd, d, n);
    forall q ensures Walk(nodes', root, q) == if q == pd + [n] then None else Walk(nodes, root, q)
      ensures At(nodes', root, q) == if q == pd + [n] then Absent else At(nodes, root, q)
    {
      UnlinkWalk(nodes, root, pd, d, n, q);
      if Walk(nodes, root, q).Some? { WalkLive(nodes, root, q); }
    }
  }

  lemma RewriteAt(nodes: Nodes, root: Ino, p: Path, x: Ino, node: Node, q: Path)
    requires Rooted(nodes, root) && Walk(nodes, root, p) == Some(x)
    requires x in nodes && SameShape(nodes[x], node)
    requires node.Dir? || LinkCount(nodes, x) <= 1
    ensures At(nodes[x := node], root, q) == if q == p then Show(node) else At(nodes, root, q)
  {
    RewriteWalk(nodes, root, x, node, q);
    if Walk(nodes, root, q) == Some(x) && q != p {
      if node.Dir? { DirPathUnique(nodes, root, p, q); } else { SoleName(nodes, root, p); }
    }
  }

  lemma RewriteEffect(nodes: Nodes, root: Ino, p: Path, x: Ino, node: Node)
    requires Rooted(nodes, root) && Walk(nodes, root, p) == Some(x)
    requires x in nodes && SameShape(nodes[x], node)
    requires node.Dir? || LinkCount(nodes, x) <= 1
    ensures var nodes' := nodes[x := node];
      && Rooted(nodes', root) && Quiet(nodes, nodes', root)
      && (forall q :: Walk(nodes', root, q) == Walk(nodes, root, q))
      && (forall q :: At(nodes', root, q) == if q == p then Show(node) else At(nodes, root, q))
      && NamesOf(nodes', x) == NamesOf(nodes, x)
  {
    hide Acyclic, Closed, SingleParent, Sane;
    var nodes' := nodes[x := node];
    RewriteRooted(nodes, root, x, node);
    if node.Dir? { ReachedDirIsOwn(nodes, root, p); } else { assert p != []; SoleName(nodes, root, p); }
    RewriteQuiet(nodes, root, x, node);
    forall q ensures Walk(nodes', root, q) == Walk(nodes, root, q) { RewriteWalk(nodes, root, x, node, q); }
    forall q ensures At(nodes', root, q) == if q == p then Show(node) else At(nodes, root, q) {
      RewriteAt(nodes, root, p, x, node, q);
    }
    forall e: Ino, m: string ensures Has(nodes', e, m) <==> Has(nodes, e, m) {}
    assert forall w :: w in NamesOf(nodes', x) <==> w in NamesOf(nodes, x);
  }

  predicate AllBelow(s: set<Ino>, b: Ino) {
    forall y :: y in s ==> y < b
  }

  lemma {:induction false} Bounded(s: set<Ino>)
    ensures exists b :: AllBelow(s, b)
  {
    if s == {} {
      assert AllBelow(s, 0);
    } else {
      var x :| x in s;
      Bounded(s - {x});
      var b :| AllBelow(s - {x}, b);
      assert forall y :: y in s ==> y == x || y in s - {x};
      assert AllBelow(s, if x < b then b else x + 1);
    }
  }

  lemma FreshInoExists(nodes: Nodes)
    ensures exists x: Ino :: x !in nodes
  {
    Bounded(nodes.Keys);
    var b :| AllBelow(nodes.Keys, b);
    assert b !in nodes;
  }
}
