/** The authoritative revert (crates/marid/src/supervisor.rs): prune what the manifest does
    not name, then restore over the top. */
module Reverts {
  import opened Basics
  import opened Ordering
  import opened Paths
  import opened Disk
  import opened Errors
  import opened FileSystems
  import opened RootDirs
  import opened RootWalks
  import opened Manifests
  import opened ChunkStores
  import opened Restores
  import opened Prunes
  import opened Snapshots

  /** A prune to the manifest, then a restore of it, of which `ok` says whether it succeeded. */
  ghost predicate Reverted(nodes: Nodes, nodes': Nodes, root: Ino, chunks: Chunks, es: seq<ManifestEntry>, excl: string -> bool, ok: bool) {
    exists mid: Nodes ::
      && Rooted(mid, root) && Pruned(nodes, mid, root, Kinds(es), excl)
      && (TreeShaped(es) ==> (ok <==> Restorable(mid, root, chunks, es)))
      && (TreeShaped(es) && ok ==> Realised(mid, nodes', root, chunks, es))
      && OutsideKept(mid, nodes', root, es)
  }

  /** Where the manifest has nothing, nothing looks different. */
  ghost predicate OutsideKept(nodes: Nodes, nodes': Nodes, root: Ino, es: seq<ManifestEntry>) {
    forall q :: !Covered(es, q) ==> At(nodes', root, q) == At(nodes, root, q)
  }

  /** After the prune, the restore found the manifest invalid or came to a turn it could not take. */
  ghost predicate RestoreFailed(nodes: Nodes, nodes': Nodes, root: Ino, chunks: Chunks, es: seq<ManifestEntry>, excl: string -> bool, heat: seq<string>, why: Error) {
    exists mid: Nodes ::
      && Rooted(mid, root) && Pruned(nodes, mid, root, Kinds(es), excl)
      && if AllValid(es) then Stopped(mid, nodes', root, chunks, es, Turns(es, heat), why)
         else nodes' == mid && exists k :: FirstInvalid(es, k, why)
  }

  /** Put the tree back to a stored manifest; `heat` only orders the writes. */
  method RevertToManifest(store: ChunkStore, id: ManifestId, fs: FileSystem, root: Ino, excl: string -> bool, heat: seq<string>)
      returns (r: Result<(), Error>)
    requires Rooted(fs.nodes, root)
    modifies fs
    ensures Rooted(fs.nodes, root) && Quiet(old(fs.nodes), fs.nodes, root)
    ensures store.GetManifest(id).Err? ==> r == Err(store.GetManifest(id).error) && fs.nodes == old(fs.nodes)
    ensures store.GetManifest(id).Ok? ==>
      Reverted(old(fs.nodes), fs.nodes, root, store.chunks, store.GetManifest(id).value.entries, excl, r.Ok?)
    ensures store.GetManifest(id).Ok? && r.Err? ==>
      RestoreFailed(old(fs.nodes), fs.nodes, root, store.chunks, store.GetManifest(id).value.entries, excl, heat, r.error)
  {
    hide Rooted, Pruned, TreeShaped, Restorable, Realised, Quiet, Tallied, AllValid, Stopped, Turns, FirstInvalid;
    QuietItself(fs.nodes, root);
    var found := store.GetManifest(id);
    if found.Err? { return Err(found.error); }
    var pruned := PruneToManifest(fs, root, found.value.entries, excl);
    ghost var mid := fs.nodes;
    var restored := Restore(store, found.value, fs, root, heat);
    QuietTransitive(old(fs.nodes), mid, fs.nodes, root);
    return if restored.Ok? then Ok(()) else Err(restored.error);
  }

  // ---- a captured entry is exact ------------------------------------------------------

  lemma ModesComeBack(v: View)
    requires v.IsFile? || v.IsDir? ==> v.mode < 0x1000
    ensures v.IsFile? || v.IsDir? ==> PermBits(StMode(v)) == v.mode
  {
  }

  lemma RecordedIsSane(nodes: Nodes, root: Ino, excl: string -> bool, p: Path)
    requires Rooted(nodes, root) && SmallFiles(nodes) && Recorded(nodes, root, excl, p)
    ensures ValidPath(p)
    ensures var v := At(nodes, root, p);
      && (p == [] ==> v.IsDir?)
      && (v.IsFile? || v.IsDir? ==> v.mode < 0x1000)
      && (v.IsFile? ==> |v.bytes| < 0x8000_0000_0000_0000)
  {
    hide Attributable, Hidden, Acyclic, SingleParent, Closed;
    WalkLive(nodes, root, p);
  }

  lemma FileEntryIsExact(chunks: Chunks, p: Path, v: View, cut: seq<byte> -> seq<nat>, e: ManifestEntry)
    requires v.IsFile? && v.mode < 0x1000 && |v.bytes| < 0x8000_0000_0000_0000 && p != [] && ValidPath(p)
    requires e == EntryOf(v, p, cut) && Tiles(cut) && Sound(chunks)
    requires forall c :: c in e.chunks ==> c.chunk in chunks
    ensures LexicalComponents(e.path) == Some(p)
    ensures Readable(chunks, e) && Wanted(chunks, e) == v
  {
    hide Sound, Content, TotalLen, Refs, LexicalComponents, ManifestPath, Join, ValidPath, Tiles, StMode, PermBits, AsU64;
    ComponentsOfJoin(p);
    FileBytesComeBack(chunks, v.bytes, cut);
    ModesComeBack(v);
  }

  lemma FileBytesComeBack(chunks: Chunks, data: seq<byte>, cut: seq<byte> -> seq<nat>)
    requires |data| < 0x8000_0000_0000_0000 && Tiles(cut) && Sound(chunks)
    requires forall c :: c in Refs(data, cut(data)) ==> c.chunk in chunks
    ensures TotalLen(Refs(data, cut(data))) == |data| == AsU64(|data|)
    ensures Content(chunks, Refs(data, cut(data))) == Ok(data)
  {
    hide Sound, Content, TotalLen, Refs;
    RefsHoldTheData(chunks, data, cut(data));
  }

  lemma OtherEntryIsExact(chunks: Chunks, p: Path, v: View, cut: seq<byte> -> seq<nat>, e: ManifestEntry)
    requires (v.IsDir? && v.mode < 0x1000) || (v.IsLink? && p != [])
    requires ValidPath(p) && e == EntryOf(v, p, cut)
    ensures LexicalComponents(e.path) == Some(p)
    ensures Readable(chunks, e) && Wanted(chunks, e) == v
  {
    ComponentsOfJoin(p);
    hide LexicalComponents, ManifestPath;
    ModesComeBack(v);
  }

  lemma EntryIsExact(nodes: Nodes, root: Ino, excl: string -> bool, cut: seq<byte> -> seq<nat>, chunks: Chunks, p: Path, e: ManifestEntry)
    requires Rooted(nodes, root) && SmallFiles(nodes) && Tiles(cut) && Sound(chunks)
    requires Recorded(nodes, root, excl, p) && e == EntryOf(At(nodes, root, p), p, cut)
    requires forall c :: c in e.chunks ==> c.chunk in chunks
    ensures LexicalComponents(e.path) == Some(p)
    ensures Readable(chunks, e) && Wanted(chunks, e) == At(nodes, root, p)
  {
    hide Rooted, Attributable, Hidden, Sound, At, EntryOf, Readable, Wanted, Tiles, SmallFiles, ValidPath;
    var v := At(nodes, root, p);
    RecordedIsSane(nodes, root, excl, p);
    if v.IsFile? { FileEntryIsExact(chunks, p, v, cut, e); } else { OtherEntryIsExact(chunks, p, v, cut, e); }
  }

  /** What lies above a recorded path is a recorded directory. */
  lemma RecordedAbove(nodes: Nodes, root: Ino, excl: string -> bool, p: Path, q: Path)
    requires Rooted(nodes, root) && Recorded(nodes, root, excl, p) && q < p
    ensures Recorded(nodes, root, excl, q) && At(nodes, root, q).IsDir?
  {
    hide Rooted, Attributable;
    WalkAbove(nodes, root, p, q);
    forall z | z <= q ensures !excl(ManifestPath(z)) { assert z <= p; }
  }

  lemma EntryPath(nodes: Nodes, root: Ino, excl: string -> bool, cut: seq<byte> -> seq<nat>, es: seq<ManifestEntry>, i: nat) returns (p: Path)
    requires Rooted(nodes, root) && Captures(nodes, root, excl, cut, es) && i < |es|
    ensures Recorded(nodes, root, excl, p) && es[i] == EntryOf(At(nodes, root, p), p, cut)
    ensures LexicalComponents(es[i].path) == Some(p) && es[i].path == ManifestPath(p) && ValidPath(p)
    ensures es[i].kind == DirKind <==> At(nodes, root, p).IsDir?
  {
    hide Rooted, Attributable, Hidden, Walk;
    assert es[i] in es;
    p :| Recorded(nodes, root, excl, p) && es[i] == EntryOf(At(nodes, root, p), p, cut);
    WalkLive(nodes, root, p);
    ComponentsOfJoin(p);
  }

  lemma SamePathSameEntry(es: seq<ManifestEntry>, i: nat, j: nat)
    requires SortedByPath(es) && i < |es| && j < |es| && es[i].path == es[j].path
    ensures i == j
  {
    LessTrichotomy(es[i].path, es[j].path);
  }

  lemma CapturedIsTree(nodes: Nodes, root: Ino, excl: string -> bool, cut: seq<byte> -> seq<nat>, es: seq<ManifestEntry>)
    requires Rooted(nodes, root) && Captures(nodes, root, excl, cut, es)
    ensures TreeShaped(es)
  {
    hide Rooted, Attributable, Hidden, At, Captures, Recorded;
    forall i | 0 <= i < |es| ensures LexicalComponents(es[i].path).Some? {
      var p := EntryPath(nodes, root, excl, cut, es, i);
    }
    forall i, j | 0 <= i < |es| && 0 <= j < |es| && Comps(es[i]) <= Comps(es[j])
      ensures i == j || (es[i].kind == DirKind && Comps(es[i]) != Comps(es[j]))
    {
      var p := EntryPath(nodes, root, excl, cut, es, i);
      var q := EntryPath(nodes, root, excl, cut, es, j);
      if p == q {
        assert SortedByPath(es) by { CapturedIsSorted(nodes, root, excl, cut, es); }
        SamePathSameEntry(es, i, j);
      } else {
        RecordedAbove(nodes, root, excl, q, p);
      }
    }
  }

  lemma CapturedIsSorted(nodes: Nodes, root: Ino, excl: string -> bool, cut: seq<byte> -> seq<nat>, es: seq<ManifestEntry>)
    requires Captures(nodes, root, excl, cut, es)
    ensures SortedByPath(es)
    ensures forall p :: Recorded(nodes, root, excl, p) ==> EntryOf(At(nodes, root, p), p, cut) in es
  {
  }

  /** A captured list has an entry at exactly the recorded paths. */
  lemma EntriesAreRecorded(nodes: Nodes, root: Ino, excl: string -> bool, cut: seq<byte> -> seq<nat>, es: seq<ManifestEntry>, q: Path)
    requires Rooted(nodes, root) && Captures(nodes, root, excl, cut, es)
    ensures IsEntry(es, q) <==> Recorded(nodes, root, excl, q)
    ensures Covered(es, q) <==> Recorded(nodes, root, excl, q)
  {
    hide Rooted, Attributable, Hidden, At, Captures, Recorded;
    if Covered(es, q) {
      var i :| 0 <= i < |es| && LexicalComponents(es[i].path).Some? && q <= Comps(es[i]);
      var p := EntryPath(nodes, root, excl, cut, es, i);
      if q != p { RecordedAbove(nodes, root, excl, p, q); }
    }
    if Recorded(nodes, root, excl, q) {
      CapturedIsSorted(nodes, root, excl, cut, es);
      var i :| 0 <= i < |es| && es[i] == EntryOf(At(nodes, root, q), q, cut);
      var p := EntryPath(nodes, root, excl, cut, es, i);
      assert ValidPath(q) by { RecordedIsValid(nodes, root, excl, q); }
      JoinInjective(p, q);
      assert q == Comps(es[i]) && q <= Comps(es[i]);
    }
    if IsEntry(es, q) {
      var i :| 0 <= i < |es| && LexicalComponents(es[i].path).Some? && q == Comps(es[i]);
      assert q <= Comps(es[i]);
    }
  }

  lemma RecordedIsValid(nodes: Nodes, root: Ino, excl: string -> bool, p: Path)
    requires Rooted(nodes, root) && Recorded(nodes, root, excl, p)
    ensures ValidPath(p)
  {
    WalkLive(nodes, root, p);
  }

  // ---- what the prune leaves --------------------------------------------------------------

  lemma {:induction false} KindsComeFrom(es: seq<ManifestEntry>, path: string)
    requires path in Kinds(es)
    ensures exists i :: 0 <= i < |es| && es[i].path == path
    decreases |es|
  {
    var last := |es| - 1;
    if es[last].path != path {
      KindsComeFrom(es[..last], path);
      var i :| 0 <= i < |es[..last]| && es[..last][i].path == path;
      assert es[i].path == path;
    }
  }

  /** `p` matches the exclusion list itself, or something that exists below it does. */
  ghost predicate Guarded(nodes: Nodes, root: Ino, excl: string -> bool, p: Path) {
    exists q :: p <= q && !At(nodes, root, q).Absent? && excl(Join(q))
  }

  /** Where nothing was recorded, only exclusion saves a node from the prune. */
  lemma UnrecordedSurvivesIfGuarded(nodes0: Nodes, nodes1: Nodes, root: Ino, excl: string -> bool, cut: seq<byte> -> seq<nat>, es: seq<ManifestEntry>, q: Path)
    requires Rooted(nodes0, root) && Rooted(nodes1, root) && Captures(nodes0, root, excl, cut, es)
    requires q != [] && !Recorded(nodes0, root, excl, q)
    ensures Survives(nodes1, root, Kinds(es), excl, q) <==> Guarded(nodes1, root, excl, q)
  {
    hide Rooted, Attributable, Hidden, At, Captures, Recorded, Kinds;
    if Survives(nodes1, root, Kinds(es), excl, q) {
      var z :| q <= z && !At(nodes1, root, z).Absent? && Keeps(Kinds(es), excl, Join(z), KindOf(At(nodes1, root, z)));
      if !excl(Join(z)) {
        KindsComeFrom(es, Join(z));
        var i :| 0 <= i < |es| && es[i].path == Join(z);
        var p := EntryPath(nodes0, root, excl, cut, es, i);
        ExistingIsValid(nodes1, root, z);
        JoinInjective(p, z);
        if q != z { RecordedAbove(nodes0, root, excl, z, q); }
      }
    }
    if Guarded(nodes1, root, excl, q) {
      var z :| q <= z && !At(nodes1, root, z).Absent? && excl(Join(z));
      assert Keeps(Kinds(es), excl, Join(z), KindOf(At(nodes1, root, z)));
    }
  }

  lemma ExistingIsValid(nodes: Nodes, root: Ino, z: Path)
    requires Rooted(nodes, root) && !At(nodes, root, z).Absent?
    ensures ValidPath(z)
  {
    WalkLive(nodes, root, z);
  }

  /** After the prune, a recorded leaf's path holds something exactly when something excluded
      stands below it. */
  lemma LeafBlockedByExcluded(nodes0: Nodes, nodes1: Nodes, mid: Nodes, root: Ino, excl: string -> bool, cut: seq<byte> -> seq<nat>, es: seq<ManifestEntry>, p: Path)
    requires Rooted(nodes0, root) && Rooted(nodes1, root) && Captures(nodes0, root, excl, cut, es)
    requires Recorded(nodes0, root, excl, p) && !At(nodes0, root, p).IsDir?
    requires Pruned(nodes1, mid, root, Kinds(es), excl)
    ensures Occupied(mid, root, p) <==> exists n :: Guarded(nodes1, root, excl, p + [n])
  {
    hide Rooted, Attributable, Hidden, At, Captures, Recorded, Kinds, Survives;
    forall n ensures !At(mid, root, p + [n]).Absent? <==> Guarded(nodes1, root, excl, p + [n]) {
      var q := p + [n];
      if Recorded(nodes0, root, excl, q) { RecordedAbove(nodes0, root, excl, q, p); }
      UnrecordedSurvivesIfGuarded(nodes0, nodes1, root, excl, cut, es, q);
      if Guarded(nodes1, root, excl, q) { GuardedExists(nodes1, root, excl, q); }
    }
  }

  lemma GuardedExists(nodes: Nodes, root: Ino, excl: string -> bool, p: Path)
    requires Rooted(nodes, root) && Guarded(nodes, root, excl, p)
    ensures !At(nodes, root, p).Absent?
  {
    var q :| p <= q && !At(nodes, root, q).Absent? && excl(Join(q));
    WalkAbove(nodes, root, q, p);
    WalkLive(nodes, root, p);
  }

  // ---- the theorem ------------------------------------------------------------------------------

  /** Nothing excluded stands below a path that was recorded as a file or a link. */
  ghost predicate Revertible(nodes0: Nodes, nodes1: Nodes, root: Ino, excl: string -> bool) {
    forall p, n :: Recorded(nodes0, root, excl, p) && !At(nodes0, root, p).IsDir? ==> !Guarded(nodes1, root, excl, p + [n])
  }

  /** The tree after: every recorded path as it was recorded; of the rest, what is excluded
      and the directories that hold it as they are now; nothing else. */
  ghost predicate Back(nodes0: Nodes, nodes1: Nodes, nodes2: Nodes, root: Ino, excl: string -> bool) {
    forall q :: At(nodes2, root, q) == Expected(nodes0, nodes1, root, excl, q)
  }

  ghost function Expected(nodes0: Nodes, nodes1: Nodes, root: Ino, excl: string -> bool, q: Path): View {
    if Recorded(nodes0, root, excl, q) then At(nodes0, root, q)
    else if q == [] || Guarded(nodes1, root, excl, q) then At(nodes1, root, q)
    else Absent
  }

  lemma AllExact(nodes0: Nodes, root: Ino, excl: string -> bool, cut: seq<byte> -> seq<nat>, es: seq<ManifestEntry>, chunks: Chunks, i: nat) returns (p: Path)
    requires Rooted(nodes0, root) && SmallFiles(nodes0) && Tiles(cut) && Captures(nodes0, root, excl, cut, es)
    requires Sound(chunks) && Supplied(chunks, es) && i < |es|
    ensures Recorded(nodes0, root, excl, p) && LexicalComponents(es[i].path) == Some(p)
    ensures Readable(chunks, es[i]) && Wanted(chunks, es[i]) == At(nodes0, root, p)
    ensures es[i].kind == DirKind <==> At(nodes0, root, p).IsDir?
  {
    hide Rooted, SmallFiles, Tiles, Captures, Sound, Recorded, At, EntryOf, Readable;
    p := EntryPath(nodes0, root, excl, cut, es, i);
    assert es[i] in es;
    EntryIsExact(nodes0, root, excl, cut, chunks, p, es[i]);
  }

  lemma RestorableIffRevertible(nodes0: Nodes, nodes1: Nodes, mid: Nodes, root: Ino, excl: string -> bool, cut: seq<byte> -> seq<nat>, es: seq<ManifestEntry>, chunks: Chunks)
    requires Rooted(nodes0, root) && SmallFiles(nodes0) && Tiles(cut) && Captures(nodes0, root, excl, cut, es)
    requires Sound(chunks) && Supplied(chunks, es)
    requires Rooted(nodes1, root) && Pruned(nodes1, mid, root, Kinds(es), excl)
    ensures Restorable(mid, root, chunks, es) <==> Revertible(nodes0, nodes1, root, excl)
  {
    hide Rooted, SmallFiles, Tiles, Captures, Sound, Supplied, Recorded, At, FileContent, Pruned, Occupied, Guarded, Kinds, Wanted;
    if Revertible(nodes0, nodes1, root, excl) {
      forall i | 0 <= i < |es| ensures Readable(chunks, es[i]) && (es[i].kind != DirKind ==> !Occupied(mid, root, Comps(es[i]))) {
        var p := AllExact(nodes0, root, excl, cut, es, chunks, i);
        if es[i].kind != DirKind { LeafBlockedByExcluded(nodes0, nodes1, mid, root, excl, cut, es, p); }
      }
    }
    if Restorable(mid, root, chunks, es) {
      forall p, n | Recorded(nodes0, root, excl, p) && !At(nodes0, root, p).IsDir? ensures !Guarded(nodes1, root, excl, p + [n]) {
        EntriesAreRecorded(nodes0, root, excl, cut, es, p);
        var i :| 0 <= i < |es| && LexicalComponents(es[i].path).Some? && p == Comps(es[i]);
        var p' := AllExact(nodes0, root, excl, cut, es, chunks, i);
        LeafBlockedByExcluded(nodes0, nodes1, mid, root, excl, cut, es, p);
      }
    }
  }

  /** What was not recorded is settled by the prune. */
  lemma RestAt(nodes0: Nodes, nodes1: Nodes, mid: Nodes, root: Ino, excl: string -> bool, cut: seq<byte> -> seq<nat>, es: seq<ManifestEntry>, q: Path)
    requires Rooted(nodes0, root) && Captures(nodes0, root, excl, cut, es) && !Recorded(nodes0, root, excl, q)
    requires Rooted(nodes1, root) && Pruned(nodes1, mid, root, Kinds(es), excl)
    ensures !Covered(es, q) && At(mid, root, q) == Expected(nodes0, nodes1, root, excl, q)
  {
    hide Rooted, Captures, Recorded, At, Guarded, Kinds, Survives, Covered;
    EntriesAreRecorded(nodes0, root, excl, cut, es, q);
    if q != [] { UnrecordedSurvivesIfGuarded(nodes0, nodes1, root, excl, cut, es, q); }
  }

  lemma BackAt(nodes0: Nodes, nodes1: Nodes, mid: Nodes, nodes2: Nodes, root: Ino, excl: string -> bool, cut: seq<byte> -> seq<nat>, es: seq<ManifestEntry>, chunks: Chunks, q: Path)
    requires Rooted(nodes0, root) && SmallFiles(nodes0) && Tiles(cut) && Captures(nodes0, root, excl, cut, es)
    requires Sound(chunks) && Supplied(chunks, es)
    requires Rooted(nodes1, root) && Pruned(nodes1, mid, root, Kinds(es), excl) && Realised(mid, nodes2, root, chunks, es)
    ensures At(nodes2, root, q) == Expected(nodes0, nodes1, root, excl, q)
  {
    hide Rooted, SmallFiles, Tiles, Captures, Sound, Supplied, Recorded, At, Readable, Guarded, Kinds, Wanted, Survives, Covered;
    EntriesAreRecorded(nodes0, root, excl, cut, es, q);
    if Recorded(nodes0, root, excl, q) {
      var i :| 0 <= i < |es| && LexicalComponents(es[i].path).Some? && q == Comps(es[i]);
      var p := AllExact(nodes0, root, excl, cut, es, chunks, i);
    } else if q != [] {
      UnrecordedSurvivesIfGuarded(nodes0, nodes1, root, excl, cut, es, q);
    }
  }

  /** Snapshot a tree, let it be changed into anything, revert: the revert succeeds exactly
      when no excluded node has come to stand below a path recorded as a file or a link,
      and then the tree is the recorded one with the excluded nodes of now. Even when it
      fails, everything that was not recorded is as it should be. */
  lemma RevertTheorem(nodes0: Nodes, nodes1: Nodes, nodes2: Nodes, root: Ino, excl: string -> bool, cut: seq<byte> -> seq<nat>, es: seq<ManifestEntry>, chunks: Chunks, ok: bool)
    requires Rooted(nodes0, root) && SmallFiles(nodes0) && Tiles(cut) && Captures(nodes0, root, excl, cut, es)
    requires Sound(chunks) && Supplied(chunks, es)
    requires Rooted(nodes1, root) && Reverted(nodes1, nodes2, root, chunks, es, excl, ok)
    ensures ok <==> Revertible(nodes0, nodes1, root, excl)
    ensures ok ==> Back(nodes0, nodes1, nodes2, root, excl)
    ensures forall q :: !Recorded(nodes0, root, excl, q) ==> At(nodes2, root, q) == Expected(nodes0, nodes1, root, excl, q)
  {
    hide Rooted, SmallFiles, Tiles, Captures, Sound, Supplied, Recorded, At, Guarded, Pruned, TreeShaped, Restorable, Realised, Revertible, Covered;
    CapturedIsTree(nodes0, root, excl, cut, es);
    var mid :| Rooted(mid, root) && Pruned(nodes1, mid, root, Kinds(es), excl)
      && (TreeShaped(es) ==> (ok <==> Restorable(mid, root, chunks, es)))
      && (TreeShaped(es) && ok ==> Realised(mid, nodes2, root, chunks, es))
      && OutsideKept(mid, nodes2, root, es);
    RestorableIffRevertible(nodes0, nodes1, mid, root, excl, cut, es, chunks);
    forall q | !Recorded(nodes0, root, excl, q) ensures At(nodes2, root, q) == Expected(nodes0, nodes1, root, excl, q) {
      RestAt(nodes0, nodes1, mid, root, excl, cut, es, q);
    }
    if ok {
      forall q ensures At(nodes2, root, q) == Expected(nodes0, nodes1, root, excl, q) {
        BackAt(nodes0, nodes1, mid, nodes2, root, excl, cut, es, chunks, q);
      }
    }
  }

  lemma AddingKeepsSound(chunks: Chunks, added: Chunks, es: seq<ManifestEntry>)
    requires Sound(chunks) && Sound(added) && Supplied(chunks, es)
    ensures Sound(chunks + added) && Supplied(chunks + added, es)
  {
  }

  /** The life of a run as a user sees it: the tree is snapshotted, the run leaves `changed` in
      its place while others add to the store, and the user goes back. */
  method SnapshotRunRevert(store: ChunkStore, fs: FileSystem, root: Ino, walk: seq<Path>, excl: string -> bool, cut: seq<byte> -> seq<nat>,
                           idOf: Manifest -> ManifestId, now: nat, changed: Nodes, added: Chunks, heat: seq<string>) returns (r: Result<(), Error>)
    requires Rooted(fs.nodes, root) && SmallFiles(fs.nodes) && Enumerates(fs.nodes, root, walk) && Tiles(cut)
    requires Sound(store.chunks) && Sound(added) && Rooted(changed, root) && forall m :: IsAddress(idOf(m))
    modifies store, fs
    ensures r.Ok? <==> Revertible(old(fs.nodes), changed, root, excl)
    ensures r.Ok? ==> Back(old(fs.nodes), changed, fs.nodes, root, excl)
    ensures forall q :: !Recorded(old(fs.nodes), root, excl, q) ==>
      At(fs.nodes, root, q) == Expected(old(fs.nodes), changed, root, excl, q)
    ensures Quiet(changed, fs.nodes, root)
  {
    hide Rooted, SmallFiles, Enumerates, Tiles, Sound, Captures, Supplied, Reverted, Revertible, Back, Quiet, LeftOut, IsAddress, Recorded, Expected, At;
    ghost var before := fs.nodes;
    var taken := Snapshot(store, fs, root, walk, excl, cut, None, now, now, idOf);
    AddingKeepsSound(store.chunks, added, taken.manifest.entries);
    store.chunks := store.chunks + added;
    fs.nodes := changed;
    r := RevertToManifest(store, taken.manifestId, fs, root, excl, heat);
    RevertTheorem(before, changed, fs.nodes, root, excl, cut, taken.manifest.entries, store.chunks, r.Ok?);
  }

  // ---- a revert of an unchanged tree -----------------------------------------------------------------

  /** The snapshot did not record this node and nothing excluded saves it: below an excluded directory
      without matching itself, a device or socket, or a file with a name the snapshot cannot see. */
  ghost predicate Unsaved(nodes: Nodes, root: Ino, excl: string -> bool, q: Path) {
    var v := At(nodes, root, q);
    && q != [] && !v.Absent? && !Guarded(nodes, root, excl, q)
    && (Hidden(excl, q) || v.IsOther? || (v.IsFile? && Walk(nodes, root, q).Some? && !Attributable(nodes, root, excl, q)))
  }

  lemma UnchangedIsRevertible(nodes: Nodes, root: Ino, excl: string -> bool)
    requires Rooted(nodes, root)
    ensures Revertible(nodes, nodes, root, excl)
  {
    hide Rooted, Attributable, Hidden;
    forall p, n | Recorded(nodes, root, excl, p) && !At(nodes, root, p).IsDir? ensures !Guarded(nodes, root, excl, p + [n]) {
      if Guarded(nodes, root, excl, p + [n]) {
        GuardedExists(nodes, root, excl, p + [n]);
        ShownAbove(nodes, root, p + [n], p);
      }
    }
  }

  lemma UnsavedOrExpected(nodes: Nodes, root: Ino, excl: string -> bool, q: Path)
    requires Rooted(nodes, root)
    ensures Expected(nodes, nodes, root, excl, q) == if Unsaved(nodes, root, excl, q) then Absent else At(nodes, root, q)
  {
    hide Rooted, Attributable, Hidden, Guarded;
  }

  /** Reverting a tree that has not changed always succeeds, takes away exactly the unsaved nodes,
      and so is the identity exactly when there are none. */
  lemma UnchangedIsIdentityIff(nodes: Nodes, nodes2: Nodes, root: Ino, excl: string -> bool, cut: seq<byte> -> seq<nat>, es: seq<ManifestEntry>, chunks: Chunks, ok: bool)
    requires Rooted(nodes, root) && SmallFiles(nodes) && Tiles(cut) && Captures(nodes, root, excl, cut, es)
    requires Sound(chunks) && Supplied(chunks, es) && Reverted(nodes, nodes2, root, chunks, es, excl, ok)
    ensures ok
    ensures forall q :: At(nodes2, root, q) == if Unsaved(nodes, root, excl, q) then Absent else At(nodes, root, q)
    ensures (forall q :: At(nodes2, root, q) == At(nodes, root, q)) <==> forall q :: !Unsaved(nodes, root, excl, q)
  {
    hide Rooted, SmallFiles, Tiles, Captures, Sound, Supplied, Reverted, Revertible, Recorded, Expected;
    UnchangedIsRevertible(nodes, root, excl);
    RevertTheorem(nodes, nodes, nodes2, root, excl, cut, es, chunks, ok);
    forall q ensures At(nodes2, root, q) == if Unsaved(nodes, root, excl, q) then Absent else At(nodes, root, q) {
      UnsavedOrExpected(nodes, root, excl, q);
    }
    forall q | Unsaved(nodes, root, excl, q) ensures At(nodes2, root, q) != At(nodes, root, q) {}
  }

  /** A root with a file that has a second name in a directory outside, and a device. */
  const SHARED: Nodes := map[
    0 := Dir(map["a" := 1, "d" := 2], 0x1ED, false), 1 := File([7], 0x1A4), 2 := Other(true), 3 := Dir(map["b" := 1], 0x1ED, false)]

  lemma SharedNames(d: Ino, n: string)
    requires Has(SHARED, d, n)
    ensures (d, n, Get(SHARED, d, n)) in {(0, "a", 1), (0, "d", 2), (3, "b", 1)}
  {
  }

  lemma SharedIsClosed()
    ensures Closed(SHARED) && SingleParent(SHARED)
  {
    forall d, n | Has(SHARED, d, n) ensures Get(SHARED, d, n) in SHARED { SharedNames(d, n); }
    forall d, n | Has(SHARED, d, n) ensures !SHARED[Get(SHARED, d, n)].Dir? { SharedNames(d, n); }
  }

  lemma SharedIsAcyclic()
    ensures Acyclic(SHARED)
  {
    var r: map<Ino, nat> := map[0 := 1, 1 := 0, 2 := 0, 3 := 1];
    forall d, n | Has(SHARED, d, n) ensures ValidName(n) && r[Get(SHARED, d, n)] < r[d] { SharedNames(d, n); }
    assert Ranks(SHARED, r);
  }

  lemma SharedIsRooted()
    ensures Rooted(SHARED, 0)
  {
    SharedIsClosed();
    SharedIsAcyclic();
    hide Closed, SingleParent, Acyclic;
  }

  lemma SharedPaths(p: Path)
    ensures Walk(SHARED, 0, p) == if p == [] then Some(0) else if p == ["a"] then Some(1) else if p == ["d"] then Some(2) else None
    decreases |p|
  {
    if p != [] {
      var up, n := p[..|p| - 1], p[|p| - 1];
      SharedPaths(up);
      assert p == up + [n];
      hide Walk;
      assert Walk(SHARED, 0, p) == if Walk(SHARED, 0, up).Some? && Has(SHARED, Walk(SHARED, 0, up).value, n) then Some(Get(SHARED, Walk(SHARED, 0, up).value, n)) else None by { WalkStep(SHARED, 0, up, n); }
    }
  }

  /** The snapshot cannot account for the name outside. */
  lemma SharedIsUnattributable(excl: string -> bool)
    ensures Walk(SHARED, 0, ["a"]).Some? && !Attributable(SHARED, 0, excl, ["a"])
  {
    SharedPaths(["a"]);
    var names := NamesOf(SHARED, 1);
    assert (0, "a") in names && (3, "b") in names;
    SubsetSize({(0, "a"), (3, "b")}, names);
    if Accounted(SHARED, 0, excl, 1) {
      var p :| !Hidden(excl, p) && NamesAt(SHARED, 0, p, 3, "b");
      SharedPaths(p[..|p| - 1]);
    }
  }

  /** With nothing excluded and no change in between, such a revert removes the file and the device. */
  lemma UnchangedCanLose(nodes2: Nodes)
    requires Back(SHARED, SHARED, nodes2, 0, _ => false)
    ensures Rooted(SHARED, 0) && Revertible(SHARED, SHARED, 0, _ => false)
    ensures At(SHARED, 0, ["a"]).IsFile? && At(nodes2, 0, ["a"]).Absent?
    ensures At(SHARED, 0, ["d"]).IsOther? && At(nodes2, 0, ["d"]).Absent?
  {
    var excl: string -> bool := _ => false;
    SharedIsRooted();
    SharedPaths(["a"]);
    SharedPaths(["d"]);
    SharedIsUnattributable(excl);
    hide Rooted, Attributable, Walk;
    UnchangedIsRevertible(SHARED, 0, excl);
    UnsavedOrExpected(SHARED, 0, excl, ["a"]);
    UnsavedOrExpected(SHARED, 0, excl, ["d"]);
  }

  // ---- what becomes of excluded nodes ---------------------------------------------------------------

  /** A node that is excluded by its own path is left as it was. */
  lemma ExcludedUntouched(nodes0: Nodes, nodes1: Nodes, nodes2: Nodes, root: Ino, excl: string -> bool, q: Path)
    requires Rooted(nodes1, root) && Back(nodes0, nodes1, nodes2, root, excl)
    requires excl(ManifestPath(q))
    ensures At(nodes2, root, q) == At(nodes1, root, q)
  {
    hide Rooted, At, Attributable;
    assert q <= q && Hidden(excl, q);
    if q != [] && Guarded(nodes1, root, excl, q) { GuardedExists(nodes1, root, excl, q); }
  }

  lemma ShownAbove(nodes: Nodes, root: Ino, z: Path, q: Path)
    requires Rooted(nodes, root) && !At(nodes, root, z).Absent? && q <= z
    ensures !At(nodes, root, q).Absent? && (q < z ==> At(nodes, root, q).IsDir?)
  {
    WalkAbove(nodes, root, z, q);
  }

  /** All that is left beyond what was recorded and what is excluded are directories that
      still hold an excluded node. */
  lemma ExtrasHoldExcluded(nodes0: Nodes, nodes1: Nodes, nodes2: Nodes, root: Ino, excl: string -> bool, q: Path) returns (z: Path)
    requires Rooted(nodes1, root) && Back(nodes0, nodes1, nodes2, root, excl)
    requires q != [] && !At(nodes2, root, q).Absent? && !Recorded(nodes0, root, excl, q) && !excl(Join(q))
    ensures At(nodes2, root, q) == At(nodes1, root, q) && At(nodes1, root, q).IsDir?
    ensures q < z && excl(Join(z)) && !At(nodes2, root, z).Absent?
  {
    hide Rooted, Recorded, At;
    z :| q <= z && !At(nodes1, root, z).Absent? && excl(Join(z));
    assert |z| == |q| ==> z == q;
    ShownAbove(nodes1, root, z, q);
    ExcludedUntouched(nodes0, nodes1, nodes2, root, excl, z);
  }

  /** Whatever lies below an excluded directory is excluded by its own path too. */
  ghost predicate SubtreeClosed(excl: string -> bool) {
    forall q :: ValidPath(q) && q != [] && Hidden(excl, q) ==> excl(Join(q))
  }

  /** With a closed exclusion list, nothing the snapshot skipped is touched by the revert. */
  lemma HiddenUntouched(nodes0: Nodes, nodes1: Nodes, nodes2: Nodes, root: Ino, excl: string -> bool, q: Path)
    requires Rooted(nodes1, root) && Back(nodes0, nodes1, nodes2, root, excl)
    requires SubtreeClosed(excl) && Hidden(excl, q)
    ensures At(nodes2, root, q) == At(nodes1, root, q)
  {
    hide Rooted, At, Attributable;
    if Guarded(nodes1, root, excl, q) { GuardedExists(nodes1, root, excl, q); }
    if q != [] && !At(nodes1, root, q).Absent? {
      ExistingIsValid(nodes1, root, q);
      assert q <= q && Guarded(nodes1, root, excl, q);
    }
  }

  /** A root with one directory inside the other down to path `q`. */
  function Chain(q: Path): Nodes {
    map i: Ino | 0 <= i <= |q| :: Dir(if i < |q| then map[q[i] := i + 1] else map[], NEW_DIR_MODE, false)
  }

  lemma ChainRooted(q: Path)
    requires ValidPath(q)
    ensures Rooted(Chain(q), 0)
  {
    var nodes := Chain(q);
    var r: map<Ino, nat> := map i: Ino | i in nodes :: |q| - i;
    assert Ranks(nodes, r);
  }

  lemma {:induction false} ChainWalk(q: Path, p: Path)
    ensures Walk(Chain(q), 0, p) == if p <= q then Some(|p|) else None
    decreases |p|
  {
    if p != [] { ChainWalk(q, p[..|p| - 1]); }
  }

  lemma ChainAt(q: Path, p: Path)
    ensures At(Chain(q), 0, p) == if p <= q then IsDir(NEW_DIR_MODE) else Absent
    ensures Walk(Chain(q), 0, p).Some? <==> p <= q
  {
    ChainWalk(q, p);
  }

  /** Where the exclusion list is not closed, a revert destroys what the snapshot skipped,
      even when nothing at all changed in between. */
  lemma UnclosedLoses(excl: string -> bool, q: Path)
    requires ValidPath(q) && q != [] && Hidden(excl, q) && !excl(Join(q))
    ensures var nodes := Chain(q);
      && Rooted(nodes, 0) && At(nodes, 0, q).IsDir?
      && Revertible(nodes, nodes, 0, excl)
      && forall nodes2 :: Back(nodes, nodes, nodes2, 0, excl) ==> At(nodes2, 0, q).Absent?
  {
    var nodes := Chain(q);
    ChainRooted(q);
    ChainWalk(q, q);
    assert !Guarded(nodes, 0, excl, q) by {
      forall z | q <= z && !At(nodes, 0, z).Absent? ensures z == q { ChainWalk(q, z); }
    }
    forall p | Recorded(nodes, 0, excl, p) ensures At(nodes, 0, p).IsDir? { ChainWalk(q, p); }
    assert !Recorded(nodes, 0, excl, q);
  }

  /** A path the snapshot skips but the prune does not recognise. */
  ghost predicate Gap(excl: string -> bool, q: Path) {
    ValidPath(q) && q != [] && Hidden(excl, q) && !excl(Join(q))
  }

  lemma {:induction false} ShortestGap(excl: string -> bool, q: Path) returns (p: Path)
    requires Gap(excl, q)
    ensures Gap(excl, p) && forall z :: z < p ==> !Gap(excl, z)
    decreases |q|
  {
    if z :| z < q && Gap(excl, z) { p := ShortestGap(excl, z); } else { p := q; }
  }

  /** A tree such a revert leads to: the chain without its last directory. */
  lemma ChainAfter(excl: string -> bool, q: Path)
    requires Gap(excl, q) && forall z :: z < q ==> !Gap(excl, z)
    ensures Back(Chain(q), Chain(q), Chain(q[..|q| - 1]), 0, excl)
  {
    hide Chain, Walk, At, Attributable, Rooted;
    var nodes, up := Chain(q), q[..|q| - 1];
    ChainAt(q, q);
    forall p ensures At(Chain(up), 0, p) == Expected(nodes, nodes, 0, excl, p) {
      ChainAt(q, p);
      ChainAt(up, p);
      assert p <= up <==> p < q;
      if Guarded(nodes, 0, excl, p) {
        var z :| p <= z && !At(nodes, 0, z).Absent? && excl(Join(z));
        ChainAt(q, z);
        assert |p| == |q| ==> z == q;
      } else {
        assert p <= p && (p < q ==> !Gap(excl, p));
      }
    }
  }

  /** The revert spares everything the snapshot skips, whatever the trees, exactly when the
      exclusion list is closed under going down. */
  lemma SparesTheSkippedIffClosed(excl: string -> bool)
    ensures SubtreeClosed(excl) <==>
      forall nodes0, nodes1, nodes2, root, q ::
        Rooted(nodes1, root) && Back(nodes0, nodes1, nodes2, root, excl) && Hidden(excl, q)
        ==> At(nodes2, root, q) == At(nodes1, root, q)
  {
    hide Rooted, At, Back, Hidden, Revertible, Chain;
    if SubtreeClosed(excl) {
      forall nodes0, nodes1, nodes2, root, q | Rooted(nodes1, root) && Back(nodes0, nodes1, nodes2, root, excl) && Hidden(excl, q)
        ensures At(nodes2, root, q) == At(nodes1, root, q)
      {
        HiddenUntouched(nodes0, nodes1, nodes2, root, excl, q);
      }
    } else {
      var some :| ValidPath(some) && some != [] && Hidden(excl, some) && !excl(Join(some));
      var q := ShortestGap(excl, some);
      UnclosedLoses(excl, q);
      ChainAfter(excl, q);
      var nodes, nodes2 := Chain(q), Chain(q[..|q| - 1]);
      assert At(nodes2, 0, q) != At(nodes, 0, q);
    }
  }
}
