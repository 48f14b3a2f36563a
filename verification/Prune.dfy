/** Delete what a manifest does not name (crates/marid/src/supervisor.rs). */
module Prunes {
  import opened Basics
  import opened Paths
  import opened Disk
  import opened Errors
  import opened FileSystems
  import opened RootDirs
  import opened RootWalks
  import opened Manifests

  function KindOf(v: View): EntryKind {
    match v
    case IsDir(_) => DirKind
    case IsLink(_) => SymlinkKind
    case _ => FileKind
  }

  /** Which kind the manifest has at each path; a repeated path keeps its last kind. */
  function Kinds(es: seq<ManifestEntry>): map<string, EntryKind> {
    if es == [] then map[]
    else Kinds(es[..|es| - 1])[es[|es| - 1].path := es[|es| - 1].kind]
  }

  /** A node the prune leaves alone on its own account. */
  predicate Keeps(kinds: map<string, EntryKind>, excl: string -> bool, path: string, kind: EntryKind) {
    excl(path) || (path in kinds && kinds[path] == kind)
  }

  /** Something at or below `p` is left alone, so `p` has to stay. */
  ghost predicate Survives(nodes: Nodes, root: Ino, kinds: map<string, EntryKind>, excl: string -> bool, p: Path) {
    exists q :: p <= q && !At(nodes, root, q).Absent? && Keeps(kinds, excl, Join(q), KindOf(At(nodes, root, q)))
  }

  /** Entry `i` is the last with this path. */
  ghost predicate LastAt(es: seq<ManifestEntry>, path: string, i: nat) {
    i < |es| && es[i].path == path && forall j :: i < j < |es| ==> es[j].path != path
  }

  lemma {:induction false} KindsAreLast(es: seq<ManifestEntry>, path: string)
    ensures path in Kinds(es) <==> exists i: nat :: LastAt(es, path, i)
    ensures forall i: nat :: LastAt(es, path, i) ==> path in Kinds(es) && Kinds(es)[path] == es[i].kind
    decreases |es|
  {
    if es != [] {
      var last := |es| - 1;
      KindsAreLast(es[..last], path);
      if es[last].path == path {
        assert LastAt(es, path, last);
      } else {
        assert forall i: nat :: LastAt(es, path, i) <==> LastAt(es[..last], path, i);
      }
    }
  }

  /** What a directory walk calls a file, a directory or a link; anything else counts as a file. */
  predicate OfThatKind(v: View, kind: EntryKind) {
    match kind
    case DirKind => v.IsDir?
    case SymlinkKind => v.IsLink?
    case FileKind => !v.IsDir? && !v.IsLink?
  }

  /** The node at `q` is excluded, or the manifest's last entry for its path is of its kind. */
  ghost predicate Spared(nodes: Nodes, root: Ino, es: seq<ManifestEntry>, excl: string -> bool, q: Path) {
    excl(Join(q)) || exists i: nat :: LastAt(es, Join(q), i) && OfThatKind(At(nodes, root, q), es[i].kind)
  }

  /** A path survives exactly when a node that is there, at it or below it, is spared. */
  lemma SurvivesIff(nodes: Nodes, root: Ino, es: seq<ManifestEntry>, excl: string -> bool, p: Path)
    ensures Survives(nodes, root, Kinds(es), excl, p) <==> exists q :: p <= q && !At(nodes, root, q).Absent? && Spared(nodes, root, es, excl, q)
  {
    hide At, Join, Kinds, LastAt;
    forall q ensures Keeps(Kinds(es), excl, Join(q), KindOf(At(nodes, root, q))) <==> Spared(nodes, root, es, excl, q) {
      KindsAreLast(es, Join(q));
    }
  }

  /** Exactly what survives is left, unchanged. */
  ghost predicate Pruned(nodes: Nodes, nodes': Nodes, root: Ino, kinds: map<string, EntryKind>, excl: string -> bool) {
    forall p :: At(nodes', root, p) ==
      if p == [] || Survives(nodes, root, kinds, excl, p) then At(nodes, root, p) else Absent
  }

  /** The first `k` nodes of the listing are decided; the rest is as it was. */
  ghost predicate Upto(nodes: Nodes, now: Nodes, root: Ino, kinds: map<string, EntryKind>, excl: string -> bool, all: seq<Found>, k: nat)
    requires k <= |all|
  {
    && (forall i :: 0 <= i < k ==>
          At(now, root, all[i].at) == if Survives(nodes, root, kinds, excl, all[i].at) then At(nodes, root, all[i].at) else Absent)
    && (forall q :: (forall i :: 0 <= i < k ==> all[i].at != q) ==> At(now, root, q) == At(nodes, root, q))
  }

  lemma KindShown(nodes: Nodes, root: Ino, f: Found)
    requires Shows(nodes, root, f)
    ensures !At(nodes, root, f.at).Absent? && f.kind == KindOf(At(nodes, root, f.at))
  {
  }

  lemma DistinctPaths(all: seq<Found>, i: nat, j: nat)
    requires InOrder(all) && i < |all| && j < |all| && i != j
    ensures all[i].at != all[j].at
    ensures all[i].at < all[j].at ==> j < i
  {
    if i < j { BeforeMeans(all[i].at, all[j].at); } else { BeforeMeans(all[j].at, all[i].at); }
  }

  /** When its turn comes, a directory holds exactly what survives below it. */
  lemma OccupiedBySurvivors(nodes: Nodes, now: Nodes, root: Ino, kinds: map<string, EntryKind>, excl: string -> bool, all: seq<Found>, k: nat, n: string)
    requires Rooted(nodes, root) && InOrder(all) && Lists(nodes, root, all, []) && k < |all|
    requires Upto(nodes, now, root, kinds, excl, all, k)
    ensures !At(now, root, all[k].at + [n]).Absent? <==> Survives(nodes, root, kinds, excl, all[k].at + [n])
  {
    var q := all[k].at + [n];
    if Walk(nodes, root, q).Some? {
      assert Mentions(all, q);
      var j :| 0 <= j < |all| && all[j].at == q;
      assert all[k].at < q;
      DistinctPaths(all, k, j);
      KindShown(nodes, root, all[j]);
    } else {
      forall i | 0 <= i < k ensures all[i].at != q { assert all[i] in all; }
      if Survives(nodes, root, kinds, excl, q) {
        var z :| q <= z && !At(nodes, root, z).Absent? && Keeps(kinds, excl, Join(z), KindOf(At(nodes, root, z)));
        WalkAbove(nodes, root, z, q);
      }
    }
  }

  lemma SurvivesThroughChild(nodes: Nodes, root: Ino, kinds: map<string, EntryKind>, excl: string -> bool, p: Path)
    requires !At(nodes, root, p).Absent?
    ensures Survives(nodes, root, kinds, excl, p) <==>
      || Keeps(kinds, excl, Join(p), KindOf(At(nodes, root, p)))
      || (exists n :: Survives(nodes, root, kinds, excl, p + [n]))
  {
    hide At, Keeps, Join, KindOf;
    if Survives(nodes, root, kinds, excl, p) {
      var q :| p <= q && !At(nodes, root, q).Absent? && Keeps(kinds, excl, Join(q), KindOf(At(nodes, root, q)));
      if q != p {
        assert p + [q[|p|]] <= q;
        assert Survives(nodes, root, kinds, excl, p + [q[|p|]]);
      }
    }
    if n :| Survives(nodes, root, kinds, excl, p + [n]) {
      var q :| p + [n] <= q && !At(nodes, root, q).Absent? && Keeps(kinds, excl, Join(q), KindOf(At(nodes, root, q)));
      assert p <= q;
    }
  }

  /** A node not kept on its own account survives exactly when it still holds something. */
  lemma TurnDecides(nodes: Nodes, now: Nodes, root: Ino, kinds: map<string, EntryKind>, excl: string -> bool, all: seq<Found>, k: nat)
    requires Rooted(nodes, root) && InOrder(all) && Lists(nodes, root, all, []) && k < |all|
    requires Upto(nodes, now, root, kinds, excl, all, k)
    ensures At(now, root, all[k].at) == At(nodes, root, all[k].at)
    ensures !At(nodes, root, all[k].at).Absent? && all[k].kind == KindOf(At(nodes, root, all[k].at))
    ensures Survives(nodes, root, kinds, excl, all[k].at) <==>
      Keeps(kinds, excl, Join(all[k].at), all[k].kind) || Occupied(now, root, all[k].at)
  {
    var p := all[k].at;
    assert all[k] in all;
    KindShown(nodes, root, all[k]);
    forall i | 0 <= i < k ensures all[i].at != p { DistinctPaths(all, i, k); }
    SurvivesThroughChild(nodes, root, kinds, excl, p);
    forall n ensures !At(now, root, p + [n]).Absent? <==> Survives(nodes, root, kinds, excl, p + [n]) {
      OccupiedBySurvivors(nodes, now, root, kinds, excl, all, k, n);
    }
    hide At, Survives, Keeps;
    if Occupied(now, root, p) {
      var n :| !At(now, root, p + [n]).Absent?;
      assert Survives(nodes, root, kinds, excl, p + [n]);
    }
  }

  lemma UptoKept(nodes: Nodes, now: Nodes, root: Ino, kinds: map<string, EntryKind>, excl: string -> bool, all: seq<Found>, k: nat)
    requires k < |all| && Upto(nodes, now, root, kinds, excl, all, k)
    requires At(now, root, all[k].at) == At(nodes, root, all[k].at) && Survives(nodes, root, kinds, excl, all[k].at)
    ensures Upto(nodes, now, root, kinds, excl, all, k + 1)
  {
    hide At, Survives;
    forall q | forall i :: 0 <= i < k + 1 ==> all[i].at != q ensures At(now, root, q) == At(nodes, root, q) {
      assert forall i :: 0 <= i < k ==> all[i].at != q;
    }
  }

  lemma UptoRemoved(nodes: Nodes, a: Nodes, b: Nodes, root: Ino, kinds: map<string, EntryKind>, excl: string -> bool, all: seq<Found>, k: nat)
    requires k < |all| && InOrder(all) && Upto(nodes, a, root, kinds, excl, all, k)
    requires Cleared(a, b, root, all[k].at) && !Survives(nodes, root, kinds, excl, all[k].at)
    ensures Upto(nodes, b, root, kinds, excl, all, k + 1)
  {
    hide At, Survives, Walk;
    forall i | 0 <= i < k + 1
      ensures At(b, root, all[i].at) == if Survives(nodes, root, kinds, excl, all[i].at) then At(nodes, root, all[i].at) else Absent
    {
      if i < k { DistinctPaths(all, i, k); }
    }
    forall q | forall i :: 0 <= i < k + 1 ==> all[i].at != q ensures At(b, root, q) == At(nodes, root, q) {
      assert all[k].at != q;
      assert forall i :: 0 <= i < k ==> all[i].at != q;
    }
  }

  lemma UptoAll(nodes: Nodes, now: Nodes, root: Ino, kinds: map<string, EntryKind>, excl: string -> bool, all: seq<Found>)
    requires Rooted(nodes, root) && Lists(nodes, root, all, []) && Upto(nodes, now, root, kinds, excl, all, |all|)
    ensures Pruned(nodes, now, root, kinds, excl)
  {
    forall p ensures At(now, root, p) ==
      if p == [] || Survives(nodes, root, kinds, excl, p) then At(nodes, root, p) else Absent
    {
      if p != [] && Walk(nodes, root, p).Some? {
        assert [] < p;
        assert Mentions(all, p);
      } else {
        forall i | 0 <= i < |all| ensures all[i].at != p { assert all[i] in all; }
        if Walk(nodes, root, p).Some? { WalkLive(nodes, root, p); }
      }
    }
  }

  datatype PruneOutcome = PruneOutcome(removed: nat, refused: nat)

  /** How many of the first `k` nodes do not survive. */
  ghost function Doomed(nodes: Nodes, root: Ino, kinds: map<string, EntryKind>, excl: string -> bool, all: seq<Found>, k: nat): nat
    requires k <= |all|
  {
    if k == 0 then 0
    else Doomed(nodes, root, kinds, excl, all, k - 1) + if Survives(nodes, root, kinds, excl, all[k - 1].at) then 0 else 1
  }

  /** Decide one node of the walk. */
  method PruneNode(rootfs: RootDir, kinds: map<string, EntryKind>, excl: string -> bool, entry: WalkEntry, out: PruneOutcome,
                   ghost start: Nodes, ghost all: seq<Found>, ghost k: nat) returns (out': PruneOutcome)
    requires rootfs.Valid() && Rooted(start, rootfs.root) && k < |all|
    requires InOrder(all) && Lists(start, rootfs.root, all, []) && entry == Text(all[k])
    requires Upto(start, rootfs.fs.nodes, rootfs.root, kinds, excl, all, k)
    modifies rootfs, rootfs.fs
    ensures rootfs.Valid() && Quiet(old(rootfs.fs.nodes), rootfs.fs.nodes, rootfs.root)
    ensures Upto(start, rootfs.fs.nodes, rootfs.root, kinds, excl, all, k + 1)
    ensures SameBut(old(rootfs.fs.nodes), rootfs.fs.nodes, rootfs.root, all[k].at)
    ensures out' == if Survives(start, rootfs.root, kinds, excl, all[k].at) then out else out.(removed := out.removed + 1)
  {
    hide Rooted, Coherent, Survives, Keeps, InOrder, Upto, Walk, At;
    ghost var now, p := rootfs.fs.nodes, all[k].at;
    QuietItself(now, rootfs.root);
    TurnDecides(start, now, rootfs.root, kinds, excl, all, k);
    ListedIsValid(start, rootfs.root, all, k);
    ComponentsOfJoin(p);
    if Keeps(kinds, excl, entry.path, entry.kind) {
      UptoKept(start, now, rootfs.root, kinds, excl, all, k);
      return out;
    }
    ReachedIsNotMissing(now, rootfs.root, p);
    var gone := rootfs.RemovePath(entry.path);
    match gone
    case Ok(true) =>
      UptoRemoved(start, now, rootfs.fs.nodes, rootfs.root, kinds, excl, all, k);
      return out.(removed := out.removed + 1);
    case Err(e) =>
      assert e == Io(NOTEMPTY) && entry.kind == DirKind by { OccupiedIsDir(now, rootfs.root, p); }
      UptoKept(start, now, rootfs.root, kinds, excl, all, k);
      // a directory that still holds something is expected; no other refusal can happen
      return out;
  }

  lemma ListedIsValid(nodes: Nodes, root: Ino, all: seq<Found>, k: nat)
    requires Rooted(nodes, root) && Lists(nodes, root, all, []) && k < |all|
    ensures ValidPath(all[k].at) && all[k].at != []
  {
    assert all[k] in all;
    WalkLive(nodes, root, all[k].at);
  }

  lemma OccupiedIsDir(nodes: Nodes, root: Ino, p: Path)
    requires Rooted(nodes, root) && Occupied(nodes, root, p)
    ensures At(nodes, root, p).IsDir?
  {
    var n :| !At(nodes, root, p + [n]).Absent?;
    WalkAbove(nodes, root, p + [n], p);
  }

  /** Nothing is decided before the walk begins. */
  lemma UptoNone(nodes: Nodes, root: Ino, kinds: map<string, EntryKind>, excl: string -> bool, all: seq<Found>)
    ensures Upto(nodes, nodes, root, kinds, excl, all, 0)
  {
  }

  lemma RestOf(all: seq<Found>, k: nat)
    requires k <= |all|
    ensures all[k..] == [] <==> k == |all|
    ensures k < |all| ==> all[k..][0] == all[k] && all[k..][1..] == all[k + 1..]
  {
  }

  /** Remove every node that the manifest does not have with the same kind and that is not
      excluded, contents first; a directory stays while something in it stays. */
  method PruneToManifest(fs: FileSystem, root: Ino, es: seq<ManifestEntry>, excl: string -> bool) returns (out: PruneOutcome)
    requires Rooted(fs.nodes, root)
    modifies fs
    ensures Rooted(fs.nodes, root) && Quiet(old(fs.nodes), fs.nodes, root)
    ensures Pruned(old(fs.nodes), fs.nodes, root, Kinds(es), excl)
    ensures out.refused == 0
    ensures out.removed == Doomed(old(fs.nodes), root, Kinds(es), excl, Below(old(fs.nodes), root, []), |Below(old(fs.nodes), root, [])|)
  {
    hide Pruned, Upto, Quiet, Coherent, StackOk, InOrder, Lists, Survives, Closed, SingleParent, Sane, Acyclic, Below, Walk, At, Todo;
    var kinds := Kinds(es);
    ghost var start := fs.nodes;
    var rootfs := new RootDir(fs, root);
    var walk := new RootWalk(fs, root);
    ghost var all, k := walk.Rest(), 0;
    WholeTree(start, root);
    UptoNone(start, root, kinds, excl, all);
    QuietItself(start, root);
    out := PruneOutcome(0, 0);
    RestOf(all, 0);
    var entry := walk.Next();
    while entry.Some?
      invariant rootfs.Valid() && walk.Valid() && Quiet(start, fs.nodes, root)
      invariant entry.Some? ==> k < |all| && entry.value == Text(all[k]) && Clear(walk.stack, all[k].at) && walk.Rest() == all[k + 1..]
      invariant entry.None? ==> k == |all|
      invariant k <= |all| && Upto(start, fs.nodes, root, kinds, excl, all, k)
      invariant out == PruneOutcome(Doomed(start, root, kinds, excl, all, k), 0)
      decreases |all| - k
    {
      ghost var now := fs.nodes;
      out := PruneNode(rootfs, kinds, excl, entry.value, out, start, all, k);
      QuietTransitive(start, now, fs.nodes, root);
      DeletingHandedOut(now, fs.nodes, root, all[k].at, walk.stack);
      k := k + 1;
      RestOf(all, k);
      entry := walk.Next();
    }
    UptoAll(start, fs.nodes, root, kinds, excl, all);
  }
}
