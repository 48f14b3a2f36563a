/** Snapshot and restore undo each other: a restored copy shows what was captured, and
    capturing the copy gives the same entries. */
module RoundTrips {
  import opened Basics
  import opened Ordering
  import opened Paths
  import opened Disk
  import opened RootDirs
  import opened RootWalks
  import opened Manifests
  import opened ChunkStores
  import opened Errors
  import opened FileSystems
  import opened Restores
  import opened Snapshots
  import opened Reverts

  // ---- a directory walk exists -------------------------------------------------------

  ghost function Reversed(all: seq<Found>): (r: seq<Path>)
    ensures |r| == |all| + 1 && r[0] == []
    ensures forall i :: 1 <= i < |r| ==> r[i] == all[|all| - i].at
  {
    [[]] + seq(|all|, i requires 0 <= i < |all| => all[|all| - 1 - i].at)
  }

  /** The contents-first order read backwards names every node once, directories first. */
  lemma WalkExists(nodes: Nodes, root: Ino)
    requires Rooted(nodes, root)
    ensures Enumerates(nodes, root, Reversed(Below(nodes, root, [])))
  {
    hide Closed, SingleParent, Sane, Acyclic, Below, Walk, Shows, Mentions;
    var all := Below(nodes, root, []);
    var walk := Reversed(all);
    WholeTree(nodes, root);
    forall i, j | 0 <= i < j < |walk| ensures walk[i] != walk[j] && !(walk[j] < walk[i]) {
      ReversedOrder(nodes, root, all, i, j);
    }
    EnumeratesWhole(nodes, root, all);
  }

  lemma ReversedOrder(nodes: Nodes, root: Ino, all: seq<Found>, i: nat, j: nat)
    requires InOrder(all) && Lists(nodes, root, all, []) && i < j <= |all|
    ensures Reversed(all)[i] != Reversed(all)[j] && !(Reversed(all)[j] < Reversed(all)[i])
  {
    hide Walk, Shows, Mentions, Before;
    if i == 0 {
      assert all[|all| - j] in all;
    } else {
      BeforeMeans(all[|all| - j].at, all[|all| - i].at);
    }
  }

  lemma EnumeratesWhole(nodes: Nodes, root: Ino, all: seq<Found>)
    requires Lists(nodes, root, all, [])
    ensures forall q :: q in Reversed(all) <==> Walk(nodes, root, q).Some?
  {
    hide Walk, Shows;
    var walk := Reversed(all);
    forall q ensures q in walk <==> Walk(nodes, root, q).Some? {
      if q in walk {
        var i :| 0 <= i < |walk| && walk[i] == q;
        if i > 0 { assert all[|all| - i] in all; } else { RootIsThere(nodes, root); }
      }
      if Walk(nodes, root, q).Some? && q != [] {
        assert [] < q && Mentions(all, q);
        var k :| 0 <= k < |all| && all[k].at == q;
        assert walk[|all| - k] == q;
      }
    }
  }

  lemma RootIsThere(nodes: Nodes, root: Ino)
    ensures Walk(nodes, root, []).Some?
  {
  }

  /** What the directory walk of any tree yields. */
  ghost predicate Walks(root: Ino, walkOf: Nodes -> seq<Path>) {
    forall nodes :: Rooted(nodes, root) ==> Enumerates(nodes, root, walkOf(nodes))
  }

  lemma WalksExist(root: Ino)
    ensures exists walkOf: Nodes -> seq<Path> :: Walks(root, walkOf)
  {
    var walkOf: Nodes -> seq<Path> := nodes => if Rooted(nodes, root) then Reversed(Below(nodes, root, [])) else [];
    hide Rooted, Enumerates;
    forall nodes | Rooted(nodes, root) ensures Enumerates(nodes, root, walkOf(nodes)) { WalkExists(nodes, root); }
    assert Walks(root, walkOf);
  }

  // ---- into an empty root ---------------------------------------------------------------

  /** Nothing stands below the root. */
  ghost predicate Bare(nodes: Nodes, root: Ino) {
    forall q :: q != [] ==> At(nodes, root, q).Absent?
  }

  /** A copy under `root2`: every recorded path, the root's own view if that is recorded, and nothing
      else below the root. */
  ghost predicate CopyOf(nodes0: Nodes, root0: Ino, nodes2: Nodes, root2: Ino, excl: string -> bool) {
    forall q :: CopiedAt(nodes0, root0, nodes2, root2, excl, q)
  }

  ghost predicate CopiedAt(nodes0: Nodes, root0: Ino, nodes2: Nodes, root2: Ino, excl: string -> bool, q: Path) {
    if Recorded(nodes0, root0, excl, q) then At(nodes2, root2, q) == At(nodes0, root0, q)
    else q != [] ==> At(nodes2, root2, q).Absent?
  }

  /** Restoring a snapshot of one root into another that is empty always succeeds and gives the
      tree back, less what the snapshot leaves out, however the chunker cut the files. */
  lemma RestoreGivesTheTreeBack(nodes0: Nodes, root0: Ino, nodes1: Nodes, root: Ino, excl: string -> bool, cut: seq<byte> -> seq<nat>, es: seq<ManifestEntry>, chunks: Chunks)
    requires Rooted(nodes0, root0) && SmallFiles(nodes0) && Tiles(cut) && Captures(nodes0, root0, excl, cut, es)
    requires Sound(chunks) && Supplied(chunks, es) && Rooted(nodes1, root) && Bare(nodes1, root)
    ensures TreeShaped(es) && Restorable(nodes1, root, chunks, es)
    ensures forall nodes2 :: Realised(nodes1, nodes2, root, chunks, es) ==> CopyOf(nodes0, root0, nodes2, root, excl)
  {
    hide Rooted, SmallFiles, Tiles, Captures, Sound, Supplied, Recorded, At, Readable, Wanted, Covered, TreeShaped;
    CapturedIsTree(nodes0, root0, excl, cut, es);
    assert Restorable(nodes1, root, chunks, es) by {
      hide *;
      RestorableWhenBare(nodes0, root0, nodes1, root, excl, cut, es, chunks);
    }
    forall nodes2 | Realised(nodes1, nodes2, root, chunks, es) ensures CopyOf(nodes0, root0, nodes2, root, excl) {
      forall q ensures CopiedAt(nodes0, root0, nodes2, root, excl, q) {
        EntriesAreRecorded(nodes0, root0, excl, cut, es, q);
        if Recorded(nodes0, root0, excl, q) {
          var i :| 0 <= i < |es| && LexicalComponents(es[i].path).Some? && q == Comps(es[i]);
          var p := AllExact(nodes0, root0, excl, cut, es, chunks, i);
        }
      }
    }
  }

  lemma RestorableWhenBare(nodes0: Nodes, root0: Ino, nodes1: Nodes, root: Ino, excl: string -> bool, cut: seq<byte> -> seq<nat>, es: seq<ManifestEntry>, chunks: Chunks)
    requires Rooted(nodes0, root0) && SmallFiles(nodes0) && Tiles(cut) && Captures(nodes0, root0, excl, cut, es)
    requires Sound(chunks) && Supplied(chunks, es) && Bare(nodes1, root)
    ensures Restorable(nodes1, root, chunks, es)
  {
    hide Rooted, SmallFiles, Tiles, Captures, Sound, Supplied, Recorded, At, FileContent, Wanted;
    forall i | 0 <= i < |es| ensures Readable(chunks, es[i]) && (es[i].kind != DirKind ==> !Occupied(nodes1, root, Comps(es[i]))) {
      var p := AllExact(nodes0, root0, excl, cut, es, chunks, i);
    }
  }

  // ---- and captured again ------------------------------------------------------------------

  /** A copy made in an empty root shares no file with anything outside the root. */
  lemma CopyIsUnshared(nodes1: Nodes, nodes2: Nodes, root: Ino, x: Ino)
    requires Rooted(nodes1, root) && Bare(nodes1, root) && Quiet(nodes1, nodes2, root)
    ensures !NamedBothSides(nodes2, root, x)
  {
    hide Foreign, NamedBothSides, Rooted, Bare;
    BareIsUnshared(nodes1, root, x);
  }

  lemma BareIsUnshared(nodes: Nodes, root: Ino, x: Ino)
    requires Rooted(nodes, root) && Bare(nodes, root)
    ensures !NamedBothSides(nodes, root, x)
  {
    if Reachable(nodes, root, x) {
      var p :| Walk(nodes, root, p) == Some(x);
      OnlyTheRoot(nodes, root, p);
    }
  }

  lemma OnlyTheRoot(nodes: Nodes, root: Ino, p: Path)
    requires Rooted(nodes, root) && Bare(nodes, root) && Walk(nodes, root, p).Some?
    ensures p == []
  {
    hide Rooted, Walk;
    WalkLive(nodes, root, p);
    var v := At(nodes, root, p);
  }

  /** Every name of a file of the copy is a recorded path. */
  lemma CopyIsAccounted(nodes0: Nodes, root0: Ino, nodes2: Nodes, root: Ino, excl: string -> bool, p: Path)
    requires Rooted(nodes2, root) && CopyOf(nodes0, root0, nodes2, root, excl) && At(nodes2, root, p).IsFile?
    requires forall x :: !NamedBothSides(nodes2, root, x)
    ensures Walk(nodes2, root, p).Some? && Attributable(nodes2, root, excl, p)
  {
    hide Rooted, Attributable;
    var x := Walk(nodes2, root, p).value;
    forall d, n | (d, n) in NamesOf(nodes2, x) ensures exists r :: !Hidden(excl, r) && NamesAt(nodes2, root, r, d, n) {
      assert Has(nodes2, d, n) && Get(nodes2, d, n) == x;
      assert Reachable(nodes2, root, d) by { assert !NamedBothSides(nodes2, root, x); }
      var up :| Walk(nodes2, root, up) == Some(d);
      WalkStep(nodes2, root, up, n);
      var r := up + [n];
      assert r[..|r| - 1] == up;
      WalkLive(nodes2, root, r);
      assert CopiedAt(nodes0, root0, nodes2, root, excl, r);
      assert Recorded(nodes0, root0, excl, r);
    }
    assert Accounted(nodes2, root, excl, x);
    assert Attributable(nodes2, root, excl, p) by { AccountedIsAttributable(nodes2, root, excl, p); }
  }

  lemma AccountedIsAttributable(nodes: Nodes, root: Ino, excl: string -> bool, p: Path)
    requires Walk(nodes, root, p).Some? && Accounted(nodes, root, excl, Walk(nodes, root, p).value)
    ensures Attributable(nodes, root, excl, p)
  {
  }

  /** The copy is recorded at the same paths as the original. */
  lemma SamePathsRecorded(nodes0: Nodes, root0: Ino, nodes2: Nodes, root: Ino, excl: string -> bool, p: Path)
    requires Rooted(nodes0, root0) && Rooted(nodes2, root) && CopyOf(nodes0, root0, nodes2, root, excl)
    requires forall x :: !NamedBothSides(nodes2, root, x)
    ensures Recorded(nodes0, root0, excl, p) <==> Recorded(nodes2, root, excl, p)
  {
    hide Attributable, Hidden, Acyclic, Closed, SingleParent, Sane;
    assert CopiedAt(nodes0, root0, nodes2, root, excl, p);
    if p != [] && At(nodes2, root, p).IsFile? { CopyIsAccounted(nodes0, root0, nodes2, root, excl, p); }
  }

  /** Capturing the restored copy gives the same entry list. */
  lemma CapturedAgain(nodes0: Nodes, root0: Ino, nodes1: Nodes, nodes2: Nodes, root: Ino, excl: string -> bool, cut: seq<byte> -> seq<nat>,
                      es: seq<ManifestEntry>, es2: seq<ManifestEntry>)
    requires Rooted(nodes0, root0) && Captures(nodes0, root0, excl, cut, es)
    requires Rooted(nodes1, root) && Bare(nodes1, root) && Quiet(nodes1, nodes2, root)
    requires Rooted(nodes2, root) && CopyOf(nodes0, root0, nodes2, root, excl)
    requires Captures(nodes2, root, excl, cut, es2)
    ensures es2 == es
  {
    hide Rooted, Recorded, At, EntryOf, Quiet, Bare;
    forall x ensures !NamedBothSides(nodes2, root, x) { CopyIsUnshared(nodes1, nodes2, root, x); }
    forall p ensures Recorded(nodes0, root0, excl, p) <==> Recorded(nodes2, root, excl, p)
      ensures Recorded(nodes0, root0, excl, p) ==> At(nodes0, root0, p) == At(nodes2, root, p)
    {
      assert CopiedAt(nodes0, root0, nodes2, root, excl, p);
      SamePathsRecorded(nodes0, root0, nodes2, root, excl, p);
    }
    forall e ensures e in es <==> e in es2 {
      if e in es { var p :| Recorded(nodes0, root0, excl, p) && e == EntryOf(At(nodes0, root0, p), p, cut); }
      if e in es2 { var p :| Recorded(nodes2, root, excl, p) && e == EntryOf(At(nodes2, root, p), p, cut); }
    }
    SortedEntriesUnique(es2, es);
  }

  /** The whole round trip: a tree is snapshotted, restored into an empty root elsewhere, and the
      copy is snapshotted; `walkOf` is what the directory walk yields. */
  method SnapshotRestoreSnapshot(store: ChunkStore, from: FileSystem, root0: Ino, walk: seq<Path>, into: FileSystem, root: Ino, walkOf: Nodes -> seq<Path>,
                                 excl: string -> bool, cut: seq<byte> -> seq<nat>, idOf: Manifest -> ManifestId, now: nat, heat: seq<string>)
      returns (first: seq<ManifestEntry>, restored: Result<RestoreStats, Error>, second: seq<ManifestEntry>)
    requires from != into && Rooted(from.nodes, root0) && SmallFiles(from.nodes) && Enumerates(from.nodes, root0, walk)
    requires Rooted(into.nodes, root) && Bare(into.nodes, root) && Sound(store.chunks) && Tiles(cut)
    requires Walks(root, walkOf)
    modifies store, from, into
    ensures from.nodes == old(from.nodes) && Captures(from.nodes, root0, excl, cut, first)
    ensures restored.Ok? && CopyOf(from.nodes, root0, into.nodes, root, excl)
    ensures second == first
  {
    hide Rooted, SmallFiles, Enumerates, Tiles, Sound, Captures, Supplied, LeftOut, Bare, CopyOf, Quiet, Recorded, At, Restorable, Realised, TreeShaped;
    ghost var empty := into.nodes;
    var taken := Snapshot(store, from, root0, walk, excl, cut, None, now, now, idOf);
    RestoreGivesTheTreeBack(from.nodes, root0, empty, root, excl, cut, taken.manifest.entries, store.chunks);
    restored := Restore(store, taken.manifest, into, root, heat);
    var again := Snapshot(store, into, root, walkOf(into.nodes), excl, cut, None, now, now, idOf);
    first, second := taken.manifest.entries, again.manifest.entries;
    CapturedAgain(from.nodes, root0, empty, into.nodes, root, excl, cut, first, second);
  }
}
