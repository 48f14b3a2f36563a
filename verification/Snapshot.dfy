/** Turn a tree into a stored manifest (crates/mari-core/src/snapshot.rs). */
module Snapshots {
  import opened Basics
  import opened Ordering
  import opened Paths
  import opened Disk
  import opened Errors
  import opened FileSystems
  import opened RootDirs
  import opened Manifests
  import opened ChunkStores
  import opened Restores

  // ---- what a snapshot should record --------------------------------------------

  /** `p` or a directory above it matches the exclusion list. */
  ghost predicate Hidden(excl: string -> bool, p: Path) {
    exists q :: q <= p && excl(ManifestPath(q))
  }

  /** `p` is one of the names of inode `x`: entry `n` of directory `d`. */
  ghost predicate NamesAt(nodes: Nodes, root: Ino, p: Path, d: Ino, n: string) {
    p != [] && p[|p| - 1] == n && Walk(nodes, root, p[..|p| - 1]) == Some(d)
  }

  /** Every name the file system has for `x` is a path this snapshot is recording. */
  ghost predicate Accounted(nodes: Nodes, root: Ino, excl: string -> bool, x: Ino) {
    forall d, n :: (d, n) in NamesOf(nodes, x) ==> exists p :: !Hidden(excl, p) && NamesAt(nodes, root, p, d, n)
  }

  ghost predicate Attributable(nodes: Nodes, root: Ino, excl: string -> bool, p: Path)
    requires Walk(nodes, root, p).Some?
  {
    var x := Walk(nodes, root, p).value;
    LinkCount(nodes, x) <= 1 || Accounted(nodes, root, excl, x)
  }

  /** The walk records this path, before anything is read. */
  ghost predicate Drafted(nodes: Nodes, root: Ino, excl: string -> bool, p: Path) {
    var v := At(nodes, root, p);
    !Hidden(excl, p) && (v.IsDir? || v.IsLink? || v.IsFile?)
  }

  ghost predicate Recorded(nodes: Nodes, root: Ino, excl: string -> bool, p: Path) {
    && Drafted(nodes, root, excl, p)
    && Walk(nodes, root, p).Some?
    && (At(nodes, root, p).IsFile? ==> Attributable(nodes, root, excl, p))
  }

  /** `data` cut into pieces of the given lengths. */
  function Refs(data: seq<byte>, lens: seq<nat>): seq<ChunkRef> {
    if lens == [] || lens[0] > |data| then []
    else [ChunkRef(Address(data[..lens[0]]), AsU64(lens[0]))] + Refs(data[lens[0]..], lens[1..])
  }

  /** `as u64` */
  function AsU64(n: nat): u64 {
    n % 0x1_0000_0000_0000_0000
  }

  function Sum(lens: seq<nat>): nat {
    if lens == [] then 0 else lens[0] + Sum(lens[1..])
  }

  /** A content-defined chunker may cut anywhere as long as the cuts tile the input. */
  ghost predicate Tiles(cut: seq<byte> -> seq<nat>) {
    forall data :: Sum(cut(data)) == |data|
  }

  function EntryOf(v: View, p: Path, cut: seq<byte> -> seq<nat>): ManifestEntry {
    match v
    case IsFile(bytes, _) => ManifestEntry(ManifestPath(p), FileKind, StMode(v), AsU64(|bytes|), None, Refs(bytes, cut(bytes)))
    case IsLink(text) => ManifestEntry(ManifestPath(p), SymlinkKind, StMode(v), AsU64(|text|), Some(text), [])
    case _ => ManifestEntry(ManifestPath(p), DirKind, StMode(v), 0, None, [])
  }

  /** The entries are exactly the recorded paths, each with what it shows, in path order. */
  ghost predicate Captures(nodes: Nodes, root: Ino, excl: string -> bool, cut: seq<byte> -> seq<nat>, es: seq<ManifestEntry>) {
    && SortedByPath(es)
    && (forall e :: e in es ==> exists p :: Recorded(nodes, root, excl, p) && e == EntryOf(At(nodes, root, p), p, cut))
    && (forall p :: Recorded(nodes, root, excl, p) ==> EntryOf(At(nodes, root, p), p, cut) in es)
  }

  ghost predicate Supplied(chunks: Chunks, es: seq<ManifestEntry>) {
    forall e, c :: e in es && c in e.chunks ==> c.chunk in chunks
  }

  /** st_size is a 63-bit number. */
  ghost predicate SmallFiles(nodes: Nodes) {
    forall x :: x in nodes ==>
      match nodes[x]
      case File(bytes, _) => |bytes| < 0x8000_0000_0000_0000
      case Symlink(text) => |text| < 0x8000_0000_0000_0000
      case _ => true
  }

  // ---- chunk lists stand for the bytes they were cut from ---------------------------------

  lemma OneRef(chunks: Chunks, data: seq<byte>, lens: seq<nat>)
    requires lens != [] && lens[0] <= |data| < 0x8000_0000_0000_0000
    requires Sound(chunks) && Address(data[..lens[0]]) in chunks
    ensures var refs := Refs(data, lens);
      && refs != [] && refs[1..] == Refs(data[lens[0]..], lens[1..])
      && Fetch(chunks, refs[0].chunk) == Ok(data[..lens[0]]) && refs[0].len == lens[0]
  {
  }

  lemma {:induction false} RefsHoldTheData(chunks: Chunks, data: seq<byte>, lens: seq<nat>)
    requires Sum(lens) == |data| && |data| < 0x8000_0000_0000_0000
    requires Sound(chunks) && forall c :: c in Refs(data, lens) ==> c.chunk in chunks
    ensures Content(chunks, Refs(data, lens)) == Ok(data)
    ensures TotalLen(Refs(data, lens)) == |data|
    decreases |lens|
  {
    if lens != [] {
      var rest, refs := data[lens[0]..], Refs(data, lens);
      assert refs[0] in refs && refs[0].chunk == Address(data[..lens[0]]);
      OneRef(chunks, data, lens);
      hide Sound, Fetch, Refs;
      forall c | c in refs[1..] ensures c.chunk in chunks { assert c in refs; }
      RefsHoldTheData(chunks, rest, lens[1..]);
      assert data[..lens[0]] + rest == data;
    } else {
      assert data == [];
    }
  }

  // ---- the pigeonhole ---------------------------------------------------------------------------

  ghost function NameOf(nodes: Nodes, root: Ino, p: Path): (Ino, string)
    requires p != [] && Walk(nodes, root, p[..|p| - 1]).Some?
  {
    (Walk(nodes, root, p[..|p| - 1]).value, p[|p| - 1])
  }

  /** A path of an inode is one of its names, and different paths are different names. */
  lemma PathIsName(nodes: Nodes, root: Ino, p: Path, x: Ino)
    requires Rooted(nodes, root) && p != [] && Walk(nodes, root, p) == Some(x)
    ensures Walk(nodes, root, p[..|p| - 1]).Some?
    ensures NameOf(nodes, root, p) in NamesOf(nodes, x)
  {
    WalkLive(nodes, root, p[..|p| - 1]);
    assert Has(nodes, Walk(nodes, root, p[..|p| - 1]).value, p[|p| - 1]);
  }

  lemma DifferentNames(nodes: Nodes, root: Ino, p: Path, q: Path)
    requires Rooted(nodes, root) && p != [] && q != [] && p != q
    requires Walk(nodes, root, p).Some? && Walk(nodes, root, q).Some?
    ensures Walk(nodes, root, p[..|p| - 1]).Some? && Walk(nodes, root, q[..|q| - 1]).Some?
    ensures NameOf(nodes, root, p) != NameOf(nodes, root, q)
  {
    var up, uq := p[..|p| - 1], q[..|q| - 1];
    assert p == up + [p[|p| - 1]] && q == uq + [q[|q| - 1]];
    if NameOf(nodes, root, p) == NameOf(nodes, root, q) {
      WalkLive(nodes, root, up);
      assert Has(nodes, Walk(nodes, root, up).value, p[|p| - 1]);
      DirPathUnique(nodes, root, up, uq);
    }
  }

  /** `found` lists different paths of inode `x`. */
  ghost predicate PathsOfInode(nodes: Nodes, root: Ino, x: Ino, found: seq<Path>) {
    && (forall i :: 0 <= i < |found| ==> found[i] != [] && Walk(nodes, root, found[i]) == Some(x))
    && (forall i, j :: 0 <= i < j < |found| ==> found[i] != found[j])
  }

  /** The names the paths in `found` stand for. */
  ghost predicate NamedBy(nodes: Nodes, root: Ino, found: seq<Path>, names: set<(Ino, string)>) {
    forall w :: w in names <==> exists i :: 0 <= i < |found| && NamesAt(nodes, root, found[i], w.0, w.1)
  }

  lemma OneMoreName(nodes: Nodes, root: Ino, less: seq<Path>, last: Path, names: set<(Ino, string)>, name: (Ino, string))
    requires NamedBy(nodes, root, less, names)
    requires forall w: (Ino, string) :: NamesAt(nodes, root, last, w.0, w.1) <==> w == name
    ensures NamedBy(nodes, root, less + [last], names + {name})
  {
    hide NamesAt;
    var found := less + [last];
    forall w ensures w in names + {name} <==> exists i :: 0 <= i < |found| && NamesAt(nodes, root, found[i], w.0, w.1) {
      if w in names {
        var i :| 0 <= i < |less| && NamesAt(nodes, root, less[i], w.0, w.1);
        assert NamesAt(nodes, root, found[i], w.0, w.1);
      }
      if i :| 0 <= i < |found| && NamesAt(nodes, root, found[i], w.0, w.1) {
        if i < |less| { assert NamesAt(nodes, root, less[i], w.0, w.1); }
      }
      if w == name { assert NamesAt(nodes, root, found[|less|], w.0, w.1); }
    }
  }

  lemma {:induction false} NamesCounted(nodes: Nodes, root: Ino, x: Ino, found: seq<Path>) returns (names: set<(Ino, string)>)
    requires Rooted(nodes, root) && PathsOfInode(nodes, root, x, found)
    ensures |names| == |found| && names <= NamesOf(nodes, x)
    ensures NamedBy(nodes, root, found, names)
    decreases |found|
  {
    hide Rooted, Walk;
    if found == [] {
      names := {};
    } else {
      var last, less := found[|found| - 1], found[..|found| - 1];
      assert found == less + [last];
      var rest := NamesCounted(nodes, root, x, less);
      PathIsName(nodes, root, last, x);
      var name := NameOf(nodes, root, last);
      forall i | 0 <= i < |less| ensures !NamesAt(nodes, root, less[i], name.0, name.1) {
        assert less[i] == found[i];
        DifferentNames(nodes, root, less[i], last);
      }
      OneMoreName(nodes, root, less, last, rest, name);
      names := rest + {name};
    }
  }

  /** Finding as many recorded paths of an inode as it has names means that every name is a
      recorded path, and conversely. */
  lemma CountingDecides(nodes: Nodes, root: Ino, excl: string -> bool, x: Ino, found: seq<Path>)
    requires Rooted(nodes, root) && PathsOfInode(nodes, root, x, found)
    requires forall i :: 0 <= i < |found| ==> !Hidden(excl, found[i])
    requires forall p :: p != [] && Walk(nodes, root, p) == Some(x) && !Hidden(excl, p) ==> p in found
    ensures |found| <= LinkCount(nodes, x)
    ensures |found| >= LinkCount(nodes, x) <==> Accounted(nodes, root, excl, x)
  {
    var names := NamesCounted(nodes, root, x, found);
    SubsetSize(names, NamesOf(nodes, x));
    if |found| >= LinkCount(nodes, x) {
      forall d, n | (d, n) in NamesOf(nodes, x) ensures exists p :: !Hidden(excl, p) && NamesAt(nodes, root, p, d, n) {
        assert (d, n) in names;
        var i :| 0 <= i < |found| && NamesAt(nodes, root, found[i], (d, n).0, (d, n).1);
      }
    }
    if Accounted(nodes, root, excl, x) {
      forall w | w in NamesOf(nodes, x) ensures w in names {
        var p :| !Hidden(excl, p) && NamesAt(nodes, root, p, w.0, w.1);
        assert Has(nodes, w.0, w.1) && Get(nodes, w.0, w.1) == x;
        assert p in found;
        var i :| 0 <= i < |found| && found[i] == p;
        assert NamesAt(nodes, root, found[i], w.0, w.1);
      }
      assert names == NamesOf(nodes, x);
    }
  }

  // ---- the walk ------------------------------------------------------------------------------------

  /** A directory walk names every node once, a directory before what it holds. */
  ghost predicate Enumerates(nodes: Nodes, root: Ino, walk: seq<Path>) {
    && (forall q :: q in walk <==> Walk(nodes, root, q).Some?)
    && (forall i, j :: 0 <= i < j < |walk| ==> walk[i] != walk[j])
    && (forall i, j :: 0 <= i < |walk| && 0 <= j < |walk| && walk[i] < walk[j] ==> i < j)
  }

  /** The text every path below a pruned directory starts with. */
  function PrunePrefix(path: string): string {
    if path == "/" then "/" else path + "/"
  }

  lemma JoinIsLong(q: Path)
    requires ValidPath(q) && q != []
    ensures |Join(q)| >= 2
  {
    assert ValidName(q[|q| - 1]);
  }

  lemma PrunePrefixOf(q: Path)
    requires ValidPath(q)
    ensures PrunePrefix(ManifestPath(q)) == Join(q) + "/"
  {
    if q != [] { JoinIsLong(q); }
  }

  ghost predicate HiddenAbove(excl: string -> bool, p: Path) {
    exists q :: q < p && excl(ManifestPath(q))
  }

  /** The prefixes collected so far are those of the topmost excluded directories met. */
  ghost predicate Prefixes(nodes: Nodes, root: Ino, excl: string -> bool, done: seq<Path>, pruned: set<string>) {
    && (forall x :: x in pruned ==> exists q :: q in done && excl(ManifestPath(q)) && x == Join(q) + "/")
    && (forall q :: q in done && excl(ManifestPath(q)) && !HiddenAbove(excl, q) && At(nodes, root, q).IsDir? ==> Join(q) + "/" in pruned)
  }

  /** The excluded paths with nothing excluded above them, in the order of the walk. */
  ghost function Topmost(excl: string -> bool, walk: seq<Path>): seq<string> {
    if walk == [] then []
    else
      var p := walk[|walk| - 1];
      Topmost(excl, walk[..|walk| - 1]) + if excl(ManifestPath(p)) && !HiddenAbove(excl, p) then [ManifestPath(p)] else []
  }

  lemma {:induction false} TopmostExcluded(excl: string -> bool, p: Path, q: Path) returns (top: Path)
    requires q < p && excl(ManifestPath(q))
    ensures top <= q && top < p && excl(ManifestPath(top)) && !HiddenAbove(excl, top)
    decreases |q|
  {
    if HiddenAbove(excl, q) {
      var up :| up < q && excl(ManifestPath(up));
      top := TopmostExcluded(excl, p, up);
    } else {
      top := q;
    }
  }

  /** Testing the text against the collected prefixes asks whether a directory above is excluded. */
  lemma PrefixTest(nodes: Nodes, root: Ino, excl: string -> bool, walk: seq<Path>, k: nat, pruned: set<string>)
    requires Rooted(nodes, root) && Enumerates(nodes, root, walk) && k < |walk|
    requires Prefixes(nodes, root, excl, walk[..k], pruned)
    ensures (exists x :: x in pruned && x <= ManifestPath(walk[k])) <==> HiddenAbove(excl, walk[k])
  {
    var p := walk[k];
    assert p in walk;
    WalkLive(nodes, root, p);
    if x :| x in pruned && x <= ManifestPath(p) {
      var q :| q in walk[..k] && excl(ManifestPath(q)) && x == Join(q) + "/";
      assert q in walk;
      WalkLive(nodes, root, q);
      var i :| 0 <= i < k && walk[i] == q;
      if q != [] { JoinIsLong(q); }
      if p != [] { TextPrefixIsAncestor(q, p); }
      assert q < p;
    }
    if HiddenAbove(excl, p) {
      var q :| q < p && excl(ManifestPath(q));
      var top := TopmostExcluded(excl, p, q);
      WalkAbove(nodes, root, p, top);
      assert top in walk;
      var i :| 0 <= i < |walk| && walk[i] == top;
      assert walk[i] < walk[k];
      assert walk[..k][i] == top;
      TextPrefixOfDescendant(top, p);
      assert Join(top) + "/" in pruned && Join(top) + "/" <= ManifestPath(p);
    }
  }

  lemma HiddenSplits(excl: string -> bool, p: Path)
    ensures Hidden(excl, p) <==> HiddenAbove(excl, p) || excl(ManifestPath(p))
  {
    if Hidden(excl, p) {
      var q :| q <= p && excl(ManifestPath(q));
      assert q == p || q < p;
    }
    if HiddenAbove(excl, p) {
      var q :| q < p && excl(ManifestPath(q));
      assert q <= p;
    }
    if excl(ManifestPath(p)) { assert p <= p; }
  }

  lemma PrefixesGrow(nodes: Nodes, root: Ino, excl: string -> bool, walk: seq<Path>, k: nat, pruned: set<string>)
    requires k < |walk| && Prefixes(nodes, root, excl, walk[..k], pruned) && ValidPath(walk[k])
    ensures HiddenAbove(excl, walk[k]) || !excl(ManifestPath(walk[k])) || !At(nodes, root, walk[k]).IsDir? ==>
      Prefixes(nodes, root, excl, walk[..k + 1], pruned)
    ensures excl(ManifestPath(walk[k])) ==>
      Prefixes(nodes, root, excl, walk[..k + 1], pruned + {PrunePrefix(ManifestPath(walk[k]))})
  {
    Grow(walk, k);
    PrunePrefixOf(walk[k]);
  }

  datatype PendingFile = PendingFile(entry: nat, comps: Path)

  /** What the walk leaves for the read pass. */
  datatype Walked = Walked(drafts: seq<ManifestEntry>, pending: seq<PendingFile>, names: map<Ino, seq<nat>>)

  /** `paths[i]` is the path of draft `i`: the drafted paths among `done`, each once. */
  ghost predicate DraftsOk(nodes: Nodes, root: Ino, excl: string -> bool, cut: seq<byte> -> seq<nat>, done: seq<Path>,
                           drafts: seq<ManifestEntry>, paths: seq<Path>) {
    && |paths| == |drafts|
    && (forall i, j :: 0 <= i < j < |paths| ==> paths[i] != paths[j])
    && (forall p :: p in paths <==> p in done && Drafted(nodes, root, excl, p))
    && (forall i :: 0 <= i < |drafts| ==> DraftOf(At(nodes, root, paths[i]), paths[i], cut, drafts[i]))
  }

  /** A file's draft is filled in by the read pass. */
  ghost predicate DraftOf(v: View, p: Path, cut: seq<byte> -> seq<nat>, e: ManifestEntry) {
    && e.path == ManifestPath(p)
    && (e.kind == FileKind <==> v.IsFile?)
    && e == if v.IsFile? then ManifestEntry(ManifestPath(p), FileKind, StMode(v), 0, None, []) else EntryOf(v, p, cut)
  }

  ghost predicate PendingOk(drafts: seq<ManifestEntry>, paths: seq<Path>, pending: seq<PendingFile>)
    requires |paths| == |drafts|
  {
    && (forall j :: 0 <= j < |pending| ==>
          pending[j].entry < |drafts| && drafts[pending[j].entry].kind == FileKind && pending[j].comps == paths[pending[j].entry])
    && (forall j, k :: 0 <= j < k < |pending| ==> pending[j].entry < pending[k].entry)
    && (forall i :: 0 <= i < |drafts| && drafts[i].kind == FileKind ==> exists j :: 0 <= j < |pending| && pending[j].entry == i)
  }

  /** For each multiply-linked inode, the pending files that named it. */
  ghost predicate NamesOk(nodes: Nodes, root: Ino, pending: seq<PendingFile>, names: map<Ino, seq<nat>>) {
    && (forall x :: x in names ==> ListsPathsOf(nodes, root, pending, x, names[x]))
    && (forall j :: 0 <= j < |pending| ==> NameKnown(nodes, root, pending, names, j))
  }

  /** Different pending files, each of which names `x`. */
  ghost predicate ListsPathsOf(nodes: Nodes, root: Ino, pending: seq<PendingFile>, x: Ino, js: seq<nat>) {
    && (forall a :: 0 <= a < |js| ==> js[a] < |pending| && Walk(nodes, root, pending[js[a]].comps) == Some(x))
    && (forall a, b :: 0 <= a < b < |js| ==> js[a] < js[b])
  }

  ghost predicate NameKnown(nodes: Nodes, root: Ino, pending: seq<PendingFile>, names: map<Ino, seq<nat>>, j: nat)
    requires j < |pending|
  {
    var w := Walk(nodes, root, pending[j].comps);
    w.Some? && (LinkCount(nodes, w.value) > 1 ==> w.value in names && j in names[w.value])
  }

  /** The state of the walk after `done`: `paths` goes with the drafts, `pruned` prunes. */
  ghost predicate WalkedOk(nodes: Nodes, root: Ino, excl: string -> bool, cut: seq<byte> -> seq<nat>, done: seq<Path>, w: Walked, paths: seq<Path>) {
    && DraftsOk(nodes, root, excl, cut, done, w.drafts, paths)
    && PendingOk(w.drafts, paths, w.pending)
    && NamesOk(nodes, root, w.pending, w.names)
    && PathsOf(w.pending) == FilesIn(nodes, root, excl, done)
  }

  ghost function PathsOf(pending: seq<PendingFile>): seq<Path> {
    if pending == [] then [] else PathsOf(pending[..|pending| - 1]) + [pending[|pending| - 1].comps]
  }

  /** The files among these paths that the walk drafts, in the order of the walk. */
  ghost function FilesIn(nodes: Nodes, root: Ino, excl: string -> bool, walk: seq<Path>): seq<Path> {
    if walk == [] then []
    else
      var p := walk[|walk| - 1];
      FilesIn(nodes, root, excl, walk[..|walk| - 1]) + if Drafted(nodes, root, excl, p) && At(nodes, root, p).IsFile? then [p] else []
  }

  lemma FilesMore(nodes: Nodes, root: Ino, excl: string -> bool, done: seq<Path>, p: Path)
    ensures FilesIn(nodes, root, excl, done + [p]) ==
      if Drafted(nodes, root, excl, p) && At(nodes, root, p).IsFile? then FilesIn(nodes, root, excl, done) + [p] else FilesIn(nodes, root, excl, done)
  {
    assert (done + [p])[..|done|] == done;
  }

  lemma PathsMore(pending: seq<PendingFile>, f: PendingFile)
    ensures PathsOf(pending + [f]) == PathsOf(pending) + [f.comps]
  {
    assert (pending + [f])[..|pending|] == pending;
  }

  lemma SkippedPath(nodes: Nodes, root: Ino, excl: string -> bool, cut: seq<byte> -> seq<nat>, done: seq<Path>, w: Walked, paths: seq<Path>, p: Path)
    requires WalkedOk(nodes, root, excl, cut, done, w, paths) && !Drafted(nodes, root, excl, p)
    ensures WalkedOk(nodes, root, excl, cut, done + [p], w, paths)
  {
    FilesMore(nodes, root, excl, done, p);
  }

  lemma DraftedPath(nodes: Nodes, root: Ino, excl: string -> bool, cut: seq<byte> -> seq<nat>, done: seq<Path>,
                    drafts: seq<ManifestEntry>, paths: seq<Path>, p: Path, e: ManifestEntry)
    requires DraftsOk(nodes, root, excl, cut, done, drafts, paths) && p !in done
    requires Drafted(nodes, root, excl, p) && DraftOf(At(nodes, root, p), p, cut, e)
    ensures DraftsOk(nodes, root, excl, cut, done + [p], drafts + [e], paths + [p])
  {
    hide Drafted, DraftOf, At;
    forall i, j | 0 <= i < j < |paths + [p]| ensures (paths + [p])[i] != (paths + [p])[j] {
      if j == |paths| { assert paths[i] in paths; }
    }
  }

  /** A directory or a link is final at once. */
  lemma FinalDraft(nodes: Nodes, root: Ino, excl: string -> bool, cut: seq<byte> -> seq<nat>, done: seq<Path>, w: Walked, paths: seq<Path>, p: Path)
    requires WalkedOk(nodes, root, excl, cut, done, w, paths) && p !in done
    requires Drafted(nodes, root, excl, p) && !At(nodes, root, p).IsFile?
    ensures WalkedOk(nodes, root, excl, cut, done + [p], w.(drafts := w.drafts + [EntryOf(At(nodes, root, p), p, cut)]), paths + [p])
  {
    var e := EntryOf(At(nodes, root, p), p, cut);
    FilesMore(nodes, root, excl, done, p);
    DraftedPath(nodes, root, excl, cut, done, w.drafts, paths, p, e);
    PendingKept(w.drafts, paths, w.pending, e, p);
  }

  lemma PendingKept(drafts: seq<ManifestEntry>, paths: seq<Path>, pending: seq<PendingFile>, e: ManifestEntry, p: Path)
    requires |paths| == |drafts| && PendingOk(drafts, paths, pending) && e.kind != FileKind
    ensures PendingOk(drafts + [e], paths + [p], pending)
  {
  }

  lemma PendingMore(drafts: seq<ManifestEntry>, paths: seq<Path>, pending: seq<PendingFile>, e: ManifestEntry, p: Path)
    requires |paths| == |drafts| && PendingOk(drafts, paths, pending) && e.kind == FileKind
    ensures PendingOk(drafts + [e], paths + [p], pending + [PendingFile(|drafts|, p)])
  {
    var more := pending + [PendingFile(|drafts|, p)];
    forall i | 0 <= i < |drafts + [e]| && (drafts + [e])[i].kind == FileKind
      ensures exists j :: 0 <= j < |more| && more[j].entry == i
    {
      if i < |drafts| {
        var j :| 0 <= j < |pending| && pending[j].entry == i;
        assert more[j].entry == i;
      } else {
        assert more[|pending|].entry == i;
      }
    }
  }

  function AddName(names: map<Ino, seq<nat>>, x: Ino, j: nat): map<Ino, seq<nat>> {
    names[x := (if x in names then names[x] else []) + [j]]
  }

  lemma NameStillKnown(nodes: Nodes, root: Ino, pending: seq<PendingFile>, names: map<Ino, seq<nat>>, f: PendingFile, x: Ino, j: nat)
    requires j < |pending| && NameKnown(nodes, root, pending, names, j)
    ensures NameKnown(nodes, root, pending + [f], names, j)
    ensures NameKnown(nodes, root, pending + [f], AddName(names, x, |pending|), j)
  {
    hide Walk, LinkCount;
    assert (pending + [f])[j] == pending[j];
  }

  lemma StillLists(nodes: Nodes, root: Ino, pending: seq<PendingFile>, f: PendingFile, x: Ino, js: seq<nat>)
    requires ListsPathsOf(nodes, root, pending, x, js)
    ensures ListsPathsOf(nodes, root, pending + [f], x, js)
    ensures Walk(nodes, root, f.comps) == Some(x) ==> ListsPathsOf(nodes, root, pending + [f], x, js + [|pending|])
  {
    hide Walk;
  }

  lemma SoleNameMore(nodes: Nodes, root: Ino, pending: seq<PendingFile>, names: map<Ino, seq<nat>>, f: PendingFile, x: Ino)
    requires NamesOk(nodes, root, pending, names) && Walk(nodes, root, f.comps) == Some(x) && LinkCount(nodes, x) <= 1
    ensures NamesOk(nodes, root, pending + [f], names)
  {
    hide Walk, LinkCount, ListsPathsOf;
    assert NameKnown(nodes, root, pending + [f], names, |pending|);
    hide NameKnown;
    forall j | 0 <= j < |pending| ensures NameKnown(nodes, root, pending + [f], names, j) {
      NameStillKnown(nodes, root, pending, names, f, x, j);
    }
    forall y | y in names ensures ListsPathsOf(nodes, root, pending + [f], y, names[y]) {
      StillLists(nodes, root, pending, f, y, names[y]);
    }
  }

  lemma NamesMore(nodes: Nodes, root: Ino, pending: seq<PendingFile>, names: map<Ino, seq<nat>>, f: PendingFile, x: Ino)
    requires NamesOk(nodes, root, pending, names) && Walk(nodes, root, f.comps) == Some(x)
    ensures NamesOk(nodes, root, pending + [f], AddName(names, x, |pending|))
  {
    hide Walk, LinkCount, ListsPathsOf;
    var names' := AddName(names, x, |pending|);
    assert NameKnown(nodes, root, pending + [f], names', |pending|);
    hide NameKnown;
    forall j | 0 <= j < |pending| ensures NameKnown(nodes, root, pending + [f], names', j) {
      NameStillKnown(nodes, root, pending, names, f, x, j);
    }
    forall y | y in names' ensures ListsPathsOf(nodes, root, pending + [f], y, names'[y]) {
      var js := if y in names then names[y] else [];
      assert ListsPathsOf(nodes, root, pending, y, js) by { if y !in names { ListsNone(nodes, root, pending, y); } }
      StillLists(nodes, root, pending, f, y, js);
    }
  }

  lemma ListsNone(nodes: Nodes, root: Ino, pending: seq<PendingFile>, x: Ino)
    ensures ListsPathsOf(nodes, root, pending, x, [])
  {
  }

  /** A regular file is drafted now and read later. */
  lemma FileDraft(nodes: Nodes, root: Ino, excl: string -> bool, cut: seq<byte> -> seq<nat>, done: seq<Path>, w: Walked, paths: seq<Path>, p: Path, x: Ino, e: ManifestEntry, names: map<Ino, seq<nat>>)
    requires WalkedOk(nodes, root, excl, cut, done, w, paths) && p !in done
    requires Drafted(nodes, root, excl, p) && At(nodes, root, p).IsFile? && Walk(nodes, root, p) == Some(x)
    requires DraftOf(At(nodes, root, p), p, cut, e) && e.kind == FileKind
    requires names == if LinkCount(nodes, x) > 1 then AddName(w.names, x, |w.pending|) else w.names
    ensures WalkedOk(nodes, root, excl, cut, done + [p], Walked(w.drafts + [e], w.pending + [PendingFile(|w.drafts|, p)], names), paths + [p])
  {
    hide DraftsOk, PendingOk, NamesOk, FilesIn, PathsOf;
    FilesMore(nodes, root, excl, done, p);
    PathsMore(w.pending, PendingFile(|w.drafts|, p));
    DraftedPath(nodes, root, excl, cut, done, w.drafts, paths, p, e);
    assert |w.drafts| == |paths| by { DraftsAligned(nodes, root, excl, cut, done, w.drafts, paths); }
    PendingMore(w.drafts, paths, w.pending, e, p);
    if LinkCount(nodes, x) > 1 {
      NamesMore(nodes, root, w.pending, w.names, PendingFile(|w.drafts|, p), x);
    } else {
      SoleNameMore(nodes, root, w.pending, w.names, PendingFile(|w.drafts|, p), x);
    }
  }

  lemma DraftsAligned(nodes: Nodes, root: Ino, excl: string -> bool, cut: seq<byte> -> seq<nat>, done: seq<Path>, drafts: seq<ManifestEntry>, paths: seq<Path>)
    requires DraftsOk(nodes, root, excl, cut, done, drafts, paths)
    ensures |drafts| == |paths|
  {
  }

  /** Draft one node the walk came to, which is not below an excluded directory. */
  method DraftNode(rootfs: RootDir, w: Walked, p: Path, excl: string -> bool, cut: seq<byte> -> seq<nat>, ghost done: seq<Path>, ghost paths: seq<Path>)
      returns (w': Walked, ghost paths': seq<Path>)
    requires rootfs.Valid() && Walk(rootfs.fs.nodes, rootfs.root, p).Some? && !Hidden(excl, p) && p !in done
    requires WalkedOk(rootfs.fs.nodes, rootfs.root, excl, cut, done, w, paths)
    modifies rootfs, rootfs.fs
    ensures rootfs.Valid() && rootfs.fs.nodes == old(rootfs.fs.nodes)
    ensures WalkedOk(rootfs.fs.nodes, rootfs.root, excl, cut, done + [p], w', paths')
  {
    hide WalkedOk, Hidden;
    WalkLive(rootfs.fs.nodes, rootfs.root, p);
    ComponentsOfJoin(p);
    ghost var nodes := rootfs.fs.nodes;
    var mpath := ManifestPath(p);
    var x := Walk(rootfs.fs.nodes, rootfs.root, p).value;
    var node := rootfs.fs.nodes[x];
    match node {
      case Dir(_, mode, _) =>
        FinalDraft(nodes, rootfs.root, excl, cut, done, w, paths, p);
        return w.(drafts := w.drafts + [ManifestEntry(mpath, DirKind, StMode(Show(node)), 0, None, [])]), paths + [p];
      case Symlink(_) =>
        var comps := LexicalComponents(mpath).value;
        var target := rootfs.ReadLink(comps);
        assert target.Ok?;
        FinalDraft(nodes, rootfs.root, excl, cut, done, w, paths, p);
        return w.(drafts := w.drafts + [ManifestEntry(mpath, SymlinkKind, StMode(Show(node)), AsU64(|target.value|), Some(target.value), [])]), paths + [p];
      case File(_, _) =>
        var comps := LexicalComponents(mpath).value;
        var names := if LinkCount(rootfs.fs.nodes, x) > 1 then AddName(w.names, x, |w.pending|) else w.names;
        var e := ManifestEntry(mpath, FileKind, StMode(Show(node)), 0, None, []);
        FileDraft(nodes, rootfs.root, excl, cut, done, w, paths, p, x, e, names);
        return Walked(w.drafts + [e], w.pending + [PendingFile(|w.drafts|, comps)], names), paths + [p];
      case Other(_) =>
        SkippedPath(nodes, rootfs.root, excl, cut, done, w, paths, p);
        return w, paths;
    }
  }

  lemma WalkPrefixIsNew(nodes: Nodes, root: Ino, walk: seq<Path>, k: nat)
    requires Rooted(nodes, root) && Enumerates(nodes, root, walk) && k < |walk|
    ensures walk[k] !in walk[..k] && Walk(nodes, root, walk[k]).Some? && ValidPath(walk[k])
  {
    assert walk[k] in walk;
    WalkLive(nodes, root, walk[k]);
  }

  lemma HiddenIsNotDrafted(nodes: Nodes, root: Ino, excl: string -> bool, p: Path)
    requires Hidden(excl, p)
    ensures !Drafted(nodes, root, excl, p)
  {
  }

  lemma NothingWalked(nodes: Nodes, root: Ino, excl: string -> bool, cut: seq<byte> -> seq<nat>)
    ensures WalkedOk(nodes, root, excl, cut, [], Walked([], [], map[]), [])
    ensures Prefixes(nodes, root, excl, [], {})
  {
  }

  /** First pass: record what is there, drop what is excluded, read no file. */
  method WalkPass(rootfs: RootDir, walk: seq<Path>, excl: string -> bool, cut: seq<byte> -> seq<nat>)
      returns (w: Walked, excluded: seq<string>, ghost paths: seq<Path>)
    requires rootfs.Valid() && Enumerates(rootfs.fs.nodes, rootfs.root, walk)
    modifies rootfs, rootfs.fs
    ensures rootfs.Valid() && rootfs.fs.nodes == old(rootfs.fs.nodes)
    ensures WalkedOk(rootfs.fs.nodes, rootfs.root, excl, cut, walk, w, paths)
    ensures excluded == Topmost(excl, walk)
  {
    hide WalkedOk, Hidden, HiddenAbove, Enumerates, Prefixes, Rooted, Coherent, Walk;
    ghost var nodes, root := rootfs.fs.nodes, rootfs.root;
    NothingWalked(nodes, root, excl, cut);
    w, excluded, paths := Walked([], [], map[]), [], [];
    var pruned: set<string> := {};
    assert walk[..0] == [];
    for k := 0 to |walk|
      invariant rootfs.Valid() && rootfs.fs.nodes == nodes
      invariant WalkedOk(nodes, root, excl, cut, walk[..k], w, paths)
      invariant Prefixes(nodes, root, excl, walk[..k], pruned)
      invariant excluded == Topmost(excl, walk[..k])
    {
      var p := walk[k];
      var mpath := ManifestPath(p);
      WalkPrefixIsNew(nodes, root, walk, k);
      PrefixTest(nodes, root, excl, walk, k, pruned);
      HiddenSplits(excl, p);
      PrefixesGrow(nodes, root, excl, walk, k, pruned);
      Grow(walk, k);
      if exists x :: x in pruned && x <= mpath {
        HiddenIsNotDrafted(nodes, root, excl, p);
        SkippedPath(nodes, root, excl, cut, walk[..k], w, paths, p);
      } else if excl(mpath) {
        HiddenIsNotDrafted(nodes, root, excl, p);
        SkippedPath(nodes, root, excl, cut, walk[..k], w, paths, p);
        excluded := excluded + [mpath];
        if At(rootfs.fs.nodes, rootfs.root, p).IsDir? { pruned := pruned + {PrunePrefix(mpath)}; }
      } else {
        w, paths := DraftNode(rootfs, w, p, excl, cut, walk[..k], paths);
      }
    }
    Whole(walk);
  }

  // ---- the read pass --------------------------------------------------------------------------------

  /** The recorded paths of an inode that the walk remembered. */
  ghost function Remembered(pending: seq<PendingFile>, names: map<Ino, seq<nat>>, x: Ino): (found: seq<Path>)
    requires forall y, a :: y in names && 0 <= a < |names[y]| ==> names[y][a] < |pending|
  {
    if x in names then seq(|names[x]|, a requires 0 <= a < |names[x]| => pending[names[x][a]].comps) else []
  }

  lemma PendingIsDrafted(nodes: Nodes, root: Ino, excl: string -> bool, cut: seq<byte> -> seq<nat>, walk: seq<Path>, w: Walked, paths: seq<Path>, j: nat)
    requires WalkedOk(nodes, root, excl, cut, walk, w, paths) && j < |w.pending|
    ensures w.pending[j].entry < |w.drafts| && |paths| == |w.drafts| && w.pending[j].comps == paths[w.pending[j].entry]
    ensures w.pending[j].comps in paths && Drafted(nodes, root, excl, w.pending[j].comps)
    ensures At(nodes, root, w.pending[j].comps).IsFile? && Walk(nodes, root, w.pending[j].comps).Some?
    ensures w.pending[j].comps != [] || !Rooted(nodes, root)
    ensures w.drafts[w.pending[j].entry] ==
      ManifestEntry(ManifestPath(w.pending[j].comps), FileKind, StMode(At(nodes, root, w.pending[j].comps)), 0, None, [])
  {
    var i := w.pending[j].entry;
    assert DraftOf(At(nodes, root, paths[i]), paths[i], cut, w.drafts[i]);
  }

  lemma DifferentPending(nodes: Nodes, root: Ino, excl: string -> bool, cut: seq<byte> -> seq<nat>, walk: seq<Path>, w: Walked, paths: seq<Path>, j: nat, k: nat)
    requires WalkedOk(nodes, root, excl, cut, walk, w, paths) && j < k < |w.pending|
    ensures w.pending[j].entry != w.pending[k].entry && w.pending[j].comps != w.pending[k].comps
  {
    hide Drafted, DraftOf, NamesOk;
  }

  lemma RememberedIsFound(nodes: Nodes, root: Ino, excl: string -> bool, cut: seq<byte> -> seq<nat>, walk: seq<Path>, w: Walked, paths: seq<Path>, x: Ino)
    requires Rooted(nodes, root) && WalkedOk(nodes, root, excl, cut, walk, w, paths)
    ensures PathsOfInode(nodes, root, x, Remembered(w.pending, w.names, x))
    ensures forall i :: 0 <= i < |Remembered(w.pending, w.names, x)| ==> !Hidden(excl, Remembered(w.pending, w.names, x)[i])
  {
    var found := Remembered(w.pending, w.names, x);
    forall i | 0 <= i < |found| ensures found[i] != [] && Walk(nodes, root, found[i]) == Some(x) && !Hidden(excl, found[i]) {
      PendingIsDrafted(nodes, root, excl, cut, walk, w, paths, w.names[x][i]);
    }
    forall i, j | 0 <= i < j < |found| ensures found[i] != found[j] {
      DifferentPending(nodes, root, excl, cut, walk, w, paths, w.names[x][i], w.names[x][j]);
    }
  }

  lemma RememberedIsAll(nodes: Nodes, root: Ino, excl: string -> bool, cut: seq<byte> -> seq<nat>, walk: seq<Path>, w: Walked, paths: seq<Path>, x: Ino, p: Path)
    requires Rooted(nodes, root) && WalkedOk(nodes, root, excl, cut, walk, w, paths) && Enumerates(nodes, root, walk)
    requires x in nodes && nodes[x].File? && LinkCount(nodes, x) > 1
    requires Walk(nodes, root, p) == Some(x) && !Hidden(excl, p)
    ensures p in Remembered(w.pending, w.names, x)
  {
    var found := Remembered(w.pending, w.names, x);
    assert At(nodes, root, p).IsFile? && Drafted(nodes, root, excl, p) && p in walk;
    hide Rooted, Enumerates, Drafted, At, Walk, Hidden, FilesIn, PathsOf;
    assert p in paths;
    var i :| 0 <= i < |paths| && paths[i] == p;
    assert DraftOf(At(nodes, root, paths[i]), paths[i], cut, w.drafts[i]);
    var j :| 0 <= j < |w.pending| && w.pending[j].entry == i;
    assert w.pending[j].comps == p;
    assert NameKnown(nodes, root, w.pending, w.names, j);
    var a :| 0 <= a < |w.names[x]| && w.names[x][a] == j;
    assert found[a] == p;
  }

  /** The walk's memory of an inode settles whether every name it has is being recorded. */
  lemma RememberedDecides(nodes: Nodes, root: Ino, excl: string -> bool, cut: seq<byte> -> seq<nat>, walk: seq<Path>, w: Walked, paths: seq<Path>, x: Ino)
    requires Rooted(nodes, root) && WalkedOk(nodes, root, excl, cut, walk, w, paths) && Enumerates(nodes, root, walk)
    requires x in nodes && nodes[x].File? && LinkCount(nodes, x) > 1
    ensures |Remembered(w.pending, w.names, x)| >= LinkCount(nodes, x) <==> Accounted(nodes, root, excl, x)
  {
    hide WalkedOk, Enumerates, Accounted, Hidden, Remembered;
    RememberedIsFound(nodes, root, excl, cut, walk, w, paths, x);
    assert forall y, a :: y in w.names && 0 <= a < |w.names[y]| ==> w.names[y][a] < |w.pending| by { NamesInRange(nodes, root, excl, cut, walk, w, paths); }
    forall p | p != [] && Walk(nodes, root, p) == Some(x) && !Hidden(excl, p) ensures p in Remembered(w.pending, w.names, x) {
      RememberedIsAll(nodes, root, excl, cut, walk, w, paths, x, p);
    }
    CountingDecides(nodes, root, excl, x, Remembered(w.pending, w.names, x));
  }

  lemma NamesInRange(nodes: Nodes, root: Ino, excl: string -> bool, cut: seq<byte> -> seq<nat>, walk: seq<Path>, w: Walked, paths: seq<Path>)
    requires WalkedOk(nodes, root, excl, cut, walk, w, paths)
    ensures forall y, a :: y in w.names && 0 <= a < |w.names[y]| ==> w.names[y][a] < |w.pending|
  {
  }

  /** Whether every name the file system has for this inode is a path being recorded. */
  method LinksAreAccountedFor(rootfs: RootDir, w: Walked, facts: FileFacts, excl: string -> bool, ghost cut: seq<byte> -> seq<nat>, ghost walk: seq<Path>, ghost paths: seq<Path>)
      returns (ok: bool)
    requires rootfs.Valid() && Enumerates(rootfs.fs.nodes, rootfs.root, walk)
    requires WalkedOk(rootfs.fs.nodes, rootfs.root, excl, cut, walk, w, paths)
    requires facts.ino in rootfs.fs.nodes && rootfs.fs.nodes[facts.ino].File?
    requires facts.nlink == LinkCount(rootfs.fs.nodes, facts.ino) && facts.nlink > 1
    modifies rootfs, rootfs.fs
    ensures rootfs.Valid() && rootfs.fs.nodes == old(rootfs.fs.nodes)
    ensures ok <==> Accounted(rootfs.fs.nodes, rootfs.root, excl, facts.ino)
  {
    hide WalkedOk, Enumerates, Accounted, Hidden, Rooted, Coherent;
    ghost var nodes, root, x := rootfs.fs.nodes, rootfs.root, facts.ino;
    NamesInRange(nodes, root, excl, cut, walk, w, paths);
    RememberedDecides(nodes, root, excl, cut, walk, w, paths, x);
    if facts.ino !in w.names { return false; }
    var names := w.names[facts.ino];
    var found := 0;
    for i := 0 to |names|
      invariant rootfs.Valid() && rootfs.fs.nodes == nodes
      invariant found == i < facts.nlink
    {
      RememberedIsFound(nodes, root, excl, cut, walk, w, paths, x);
      PendingIsDrafted(nodes, root, excl, cut, walk, w, paths, names[i]);
      WalkLive(nodes, root, w.pending[names[i]].comps);
      assert Remembered(w.pending, w.names, x)[i] == w.pending[names[i]].comps;
      var st := rootfs.StatFile(w.pending[names[i]].comps);
      if st.Ok? && st.value.Some? && st.value.value.ino == facts.ino {
        found := found + 1;
        if found >= facts.nlink { return true; }
      }
    }
    return false;
  }

  // ---- chunking ----------------------------------------------------------------------------------------

  ghost predicate Named(unique: map<ChunkId, seq<byte>>) {
    forall id :: id in unique ==> Address(unique[id]) == id
  }

  ghost function Ids(refs: seq<ChunkRef>): set<ChunkId> {
    set c | c in refs :: c.chunk
  }

  lemma IdsOfNone()
    ensures Ids([]) == {}
  {
  }

  lemma RefAdds(refs: seq<ChunkRef>, ref: ChunkRef, unique: map<ChunkId, seq<byte>>, slice: seq<byte>)
    requires Named(unique) && ref.chunk == Address(slice)
    ensures Ids(refs + [ref]) == Ids(refs) + {ref.chunk}
    ensures Named(unique[ref.chunk := slice])
  {
  }

  /** Cut a file, remembering each distinct chunk once. */
  method ChunkFile(data: seq<byte>, lens: seq<nat>, unique: map<ChunkId, seq<byte>>) returns (refs: seq<ChunkRef>, unique': map<ChunkId, seq<byte>>)
    requires Named(unique) && Sum(lens) == |data|
    ensures refs == Refs(data, lens)
    ensures Named(unique') && unique'.Keys == unique.Keys + Ids(refs)
  {
    hide Named, AsU64, Ids;
    refs, unique' := [], unique;
    assert Ids([]) == {} by { IdsOfNone(); }
    var rest := data;
    ghost var all := Refs(data, lens);
    assert lens[0..] == lens;
    for k := 0 to |lens|
      invariant Sum(lens[k..]) == |rest|
      invariant all == refs + Refs(rest, lens[k..])
      invariant Named(unique') && unique'.Keys == unique.Keys + Ids(refs)
    {
      assert lens[k..][1..] == lens[k + 1..];
      var slice := rest[..lens[k]];
      var ref := ChunkRef(Address(slice), AsU64(lens[k]));
      RefAdds(refs, ref, unique', slice);
      if ref.chunk !in unique' { unique' := unique'[ref.chunk := slice]; }
      refs, rest := refs + [ref], rest[lens[k]..];
    }
  }

  /** What has been read so far. */
  datatype ReadState = ReadState(entries: seq<ManifestEntry>, dropped: set<nat>, unique: map<ChunkId, seq<byte>>,
                                 verdicts: map<Ino, bool>, unattributable: seq<string>, totalRefs: nat)

  /** The file behind pending `j` is final if it is attributable, and dropped if it is not. */
  ghost predicate Settles(nodes: Nodes, root: Ino, excl: string -> bool, cut: seq<byte> -> seq<nat>, f: PendingFile, s: ReadState) {
    && f.entry < |s.entries| && Walk(nodes, root, f.comps).Some?
    && (f.entry in s.dropped <==> !Attributable(nodes, root, excl, f.comps))
    && (f.entry in s.dropped ==> s.entries[f.entry].chunks == [])
    && (f.entry !in s.dropped ==> s.entries[f.entry] == EntryOf(At(nodes, root, f.comps), f.comps, cut))
    && (f.entry !in s.dropped ==> Ids(s.entries[f.entry].chunks) <= s.unique.Keys)
  }

  /** The paths of files whose bytes were not read. */
  ghost function Unread(nodes: Nodes, root: Ino, excl: string -> bool, pending: seq<PendingFile>): seq<string> {
    if pending == [] then []
    else
      var p := pending[|pending| - 1].comps;
      Unread(nodes, root, excl, pending[..|pending| - 1]) +
      if Walk(nodes, root, p).Some? && !Attributable(nodes, root, excl, p) then [ManifestPath(p)] else []
  }

  ghost predicate ReadUpto(nodes: Nodes, root: Ino, excl: string -> bool, cut: seq<byte> -> seq<nat>, w: Walked, j: nat, s: ReadState)
    requires j <= |w.pending|
  {
    && |s.entries| == |w.drafts| && Named(s.unique)
    && (forall i :: 0 <= i < |s.entries| && w.drafts[i].kind != FileKind ==> s.entries[i] == w.drafts[i])
    && (forall a :: 0 <= a < j ==> Settles(nodes, root, excl, cut, w.pending[a], s))
    && (forall a :: j <= a < |w.pending| ==> w.pending[a].entry < |s.entries| && s.entries[w.pending[a].entry] == w.drafts[w.pending[a].entry])
    && (forall i :: i in s.dropped ==> exists a :: 0 <= a < j && w.pending[a].entry == i)
    && (forall id :: id in s.unique ==> exists a :: 0 <= a < j && Provides(w.pending[a], s, id))
    && (forall x :: x in s.verdicts ==> s.verdicts[x] == Accounted(nodes, root, excl, x))
    && s.unattributable == Unread(nodes, root, excl, w.pending[..j])
    && s.totalRefs == RefCount(s.entries)
  }

  /** The chunk comes from this file, whose bytes were read. */
  ghost predicate Provides(f: PendingFile, s: ReadState, id: ChunkId) {
    f.entry < |s.entries| && f.entry !in s.dropped && id in Ids(s.entries[f.entry].chunks)
  }

  lemma {:induction false} NoRefs(es: seq<ManifestEntry>)
    requires forall i :: 0 <= i < |es| ==> es[i].chunks == []
    ensures RefCount(es) == 0
  {
    if es != [] { NoRefs(es[1..]); }
  }

  lemma {:induction false} RefCountAt(es: seq<ManifestEntry>, i: nat, e: ManifestEntry)
    requires i < |es| && es[i].chunks == []
    ensures RefCount(es[i := e]) == RefCount(es) + |e.chunks|
  {
    if i == 0 {
      assert es[i := e][1..] == es[1..];
    } else {
      assert es[i := e][1..] == es[1..][i - 1 := e];
      RefCountAt(es[1..], i - 1, e);
    }
  }

  lemma {:induction false} RefCountMore(es: seq<ManifestEntry>, e: ManifestEntry)
    ensures RefCount(es + [e]) == RefCount(es) + |e.chunks|
  {
    if es == [] {
      assert ([] + [e])[1..] == [];
    } else {
      assert (es + [e])[1..] == es[1..] + [e];
      RefCountMore(es[1..], e);
    }
  }

  lemma {:induction false} RefCountInserted(es: seq<ManifestEntry>, e: ManifestEntry)
    requires StrictOrder(Less) && SortedBy(es, PathOf, Less) && forall y :: y in es ==> PathOf(y) != PathOf(e)
    ensures RefCount(InsertBy(es, e, PathOf, Less)) == RefCount(es) + |e.chunks|
  {
    var r := InsertBy(es, e, PathOf, Less);
    if es == [] {
      assert r[1..] == [];
    } else if Less(e.path, es[0].path) {
      assert r[1..] == es;
    } else {
      assert r[1..] == InsertBy(es[1..], e, PathOf, Less);
      RefCountInserted(es[1..], e);
    }
  }

  /** A step that changes nothing at the earlier files' entries leaves them settled. */
  lemma OthersStay(nodes: Nodes, root: Ino, excl: string -> bool, cut: seq<byte> -> seq<nat>, w: Walked, j: nat, s: ReadState, s': ReadState)
    requires j < |w.pending| && |s'.entries| == |s.entries| && s.unique.Keys <= s'.unique.Keys
    requires forall a :: 0 <= a < j ==> Settles(nodes, root, excl, cut, w.pending[a], s)
    requires forall a :: 0 <= a < j ==> w.pending[a].entry != w.pending[j].entry
    requires forall i :: 0 <= i < |s.entries| && i != w.pending[j].entry ==> s'.entries[i] == s.entries[i] && (i in s'.dropped <==> i in s.dropped)
    ensures forall a :: 0 <= a < j ==> Settles(nodes, root, excl, cut, w.pending[a], s')
    ensures forall a, id :: 0 <= a < j && Provides(w.pending[a], s, id) ==> Provides(w.pending[a], s', id)
  {
    hide Attributable, Walk, At, Ids, EntryOf;
  }

  lemma SettledNow(nodes: Nodes, root: Ino, excl: string -> bool, cut: seq<byte> -> seq<nat>, f: PendingFile, s: ReadState)
    requires f.entry < |s.entries| && Walk(nodes, root, f.comps).Some?
    requires if Attributable(nodes, root, excl, f.comps)
      then f.entry !in s.dropped && s.entries[f.entry] == EntryOf(At(nodes, root, f.comps), f.comps, cut) && Ids(s.entries[f.entry].chunks) <= s.unique.Keys
      else f.entry in s.dropped && s.entries[f.entry].chunks == []
    ensures Settles(nodes, root, excl, cut, f, s)
  {
    hide Attributable, Walk, At, Ids, EntryOf;
  }

  lemma DropStep(nodes: Nodes, root: Ino, excl: string -> bool, cut: seq<byte> -> seq<nat>, w: Walked, j: nat, s: ReadState, s': ReadState)
    requires j < |w.pending| && ReadUpto(nodes, root, excl, cut, w, j, s)
    requires forall a :: 0 <= a < |w.pending| && a != j ==> w.pending[a].entry != w.pending[j].entry
    requires Walk(nodes, root, w.pending[j].comps).Some? && !Attributable(nodes, root, excl, w.pending[j].comps)
    requires w.pending[j].entry < |w.drafts| && w.drafts[w.pending[j].entry].chunks == []
    requires s' == s.(dropped := s.dropped + {w.pending[j].entry}, unattributable := s.unattributable + [ManifestPath(w.pending[j].comps)],
                      verdicts := s'.verdicts)
    requires forall x :: x in s'.verdicts ==> s'.verdicts[x] == Accounted(nodes, root, excl, x)
    ensures ReadUpto(nodes, root, excl, cut, w, j + 1, s')
  {
    hide Attributable, Accounted, Walk, At, Named, Ids, Settles, Provides, RefCount, EntryOf;
    var f := w.pending[j];
    SettledNow(nodes, root, excl, cut, f, s');
    OthersStay(nodes, root, excl, cut, w, j, s, s');
    assert w.pending[..j + 1][..j] == w.pending[..j];
    forall id | id in s'.unique ensures exists a :: 0 <= a < j + 1 && Provides(w.pending[a], s', id) {
      var a :| 0 <= a < j && Provides(w.pending[a], s, id);
    }
    forall i | i in s'.dropped ensures exists a :: 0 <= a < j + 1 && w.pending[a].entry == i {
      if i in s.dropped { var a :| 0 <= a < j && w.pending[a].entry == i; } else { assert w.pending[j].entry == i; }
    }
  }

  lemma UnreadGrows(nodes: Nodes, root: Ino, excl: string -> bool, pending: seq<PendingFile>, j: nat)
    requires j < |pending|
    ensures Unread(nodes, root, excl, pending[..j + 1]) == Unread(nodes, root, excl, pending[..j]) +
      if Walk(nodes, root, pending[j].comps).Some? && !Attributable(nodes, root, excl, pending[j].comps) then [ManifestPath(pending[j].comps)] else []
  {
    hide Attributable, Walk, ManifestPath;
    assert pending[..j + 1][..j] == pending[..j];
  }

  lemma KeepStep(nodes: Nodes, root: Ino, excl: string -> bool, cut: seq<byte> -> seq<nat>, w: Walked, j: nat, s: ReadState, s': ReadState, e: ManifestEntry)
    requires j < |w.pending| && ReadUpto(nodes, root, excl, cut, w, j, s)
    requires forall a :: 0 <= a < |w.pending| && a != j ==> w.pending[a].entry != w.pending[j].entry
    requires Walk(nodes, root, w.pending[j].comps).Some? && Attributable(nodes, root, excl, w.pending[j].comps)
    requires w.pending[j].entry < |w.drafts| && w.drafts[w.pending[j].entry].kind == FileKind && w.drafts[w.pending[j].entry].chunks == []
    requires e == EntryOf(At(nodes, root, w.pending[j].comps), w.pending[j].comps, cut)
    requires Named(s'.unique) && s'.unique.Keys == s.unique.Keys + Ids(e.chunks)
    requires s' == ReadState(s.entries[w.pending[j].entry := e], s.dropped, s'.unique, s'.verdicts, s.unattributable, s.totalRefs + |e.chunks|)
    requires forall x :: x in s'.verdicts ==> s'.verdicts[x] == Accounted(nodes, root, excl, x)
    ensures ReadUpto(nodes, root, excl, cut, w, j + 1, s')
  {
    hide Attributable, Accounted, Walk, At, Named, Ids, Settles, RefCount, EntryOf;
    var f := w.pending[j];
    RefCountAt(s.entries, f.entry, e);
    UnreadGrows(nodes, root, excl, w.pending, j);
    hide Unread;
    assert f.entry !in s.dropped;
    SettledNow(nodes, root, excl, cut, f, s');
    OthersStay(nodes, root, excl, cut, w, j, s, s');
    hide Provides;
    KeptProvides(w, j, s, s', e);
  }

  lemma KeptProvides(w: Walked, j: nat, s: ReadState, s': ReadState, e: ManifestEntry)
    requires j < |w.pending| && w.pending[j].entry < |s'.entries| && s'.entries[w.pending[j].entry] == e && w.pending[j].entry !in s'.dropped
    requires s'.unique.Keys == s.unique.Keys + Ids(e.chunks)
    requires forall id :: id in s.unique ==> exists a :: 0 <= a < j && Provides(w.pending[a], s, id)
    requires forall a, id :: 0 <= a < j && Provides(w.pending[a], s, id) ==> Provides(w.pending[a], s', id)
    ensures forall id :: id in s'.unique ==> exists a :: 0 <= a < j + 1 && Provides(w.pending[a], s', id)
  {
    forall id | id in s'.unique ensures exists a :: 0 <= a < j + 1 && Provides(w.pending[a], s', id) {
      assert id in Ids(e.chunks) ==> Provides(w.pending[j], s', id);
      hide Provides, Ids;
      if id in s.unique { var a :| 0 <= a < j && Provides(w.pending[a], s, id); }
    }
  }

  lemma NotYetRead(nodes: Nodes, root: Ino, excl: string -> bool, cut: seq<byte> -> seq<nat>, w: Walked, j: nat, s: ReadState)
    requires j < |w.pending| && ReadUpto(nodes, root, excl, cut, w, j, s)
    ensures w.pending[j].entry < |s.entries| == |w.drafts| && s.entries[w.pending[j].entry] == w.drafts[w.pending[j].entry]
    ensures Named(s.unique) && forall x :: x in s.verdicts ==> s.verdicts[x] == Accounted(nodes, root, excl, x)
  {
  }

  lemma OtherEntries(nodes: Nodes, root: Ino, excl: string -> bool, cut: seq<byte> -> seq<nat>, walk: seq<Path>, w: Walked, paths: seq<Path>, j: nat)
    requires WalkedOk(nodes, root, excl, cut, walk, w, paths) && j < |w.pending|
    ensures forall a :: 0 <= a < |w.pending| && a != j ==> w.pending[a].entry != w.pending[j].entry
  {
    hide WalkedOk;
    forall a | 0 <= a < |w.pending| && a != j ensures w.pending[a].entry != w.pending[j].entry {
      if a < j { DifferentPending(nodes, root, excl, cut, walk, w, paths, a, j); } else { DifferentPending(nodes, root, excl, cut, walk, w, paths, j, a); }
    }
  }

  /** What the descriptor tells, put into the draft, is the file's entry. */
  lemma EntryRead(nodes: Nodes, root: Ino, cut: seq<byte> -> seq<nat>, p: Path, facts: FileFacts, draft: ManifestEntry)
    requires FactsOf(nodes, root, p, facts)
    requires draft == ManifestEntry(ManifestPath(p), FileKind, StMode(At(nodes, root, p)), 0, None, [])
    ensures var data := nodes[facts.ino].bytes;
      draft.(mode := facts.mode, size := AsU64(|data|), chunks := Refs(data, cut(data))) == EntryOf(At(nodes, root, p), p, cut)
  {
    hide Walk, Refs, AsU64, ManifestPath;
  }

  /** Read one file, if this snapshot can account for every name its inode has. */
  method ReadNth(rootfs: RootDir, w: Walked, j: nat, s: ReadState, excl: string -> bool, cut: seq<byte> -> seq<nat>, ghost walk: seq<Path>, ghost paths: seq<Path>)
      returns (s': ReadState)
    requires rootfs.Valid() && Enumerates(rootfs.fs.nodes, rootfs.root, walk) && Tiles(cut)
    requires WalkedOk(rootfs.fs.nodes, rootfs.root, excl, cut, walk, w, paths)
    requires j < |w.pending| && ReadUpto(rootfs.fs.nodes, rootfs.root, excl, cut, w, j, s)
    modifies rootfs, rootfs.fs
    ensures rootfs.Valid() && rootfs.fs.nodes == old(rootfs.fs.nodes)
    ensures ReadUpto(rootfs.fs.nodes, rootfs.root, excl, cut, w, j + 1, s')
  {
    hide WalkedOk, Enumerates, Accounted, Hidden, Rooted, Coherent, Refs, Settles, Provides, Unread, Named, Ids, RefCount, ReadUpto, Walk, Quiet, EntryOf, At, StMode;
    ghost var nodes, root := rootfs.fs.nodes, rootfs.root;
    var f := w.pending[j];
    PendingIsDrafted(nodes, root, excl, cut, walk, w, paths, j);
    NotYetRead(nodes, root, excl, cut, w, j, s);
    OtherEntries(nodes, root, excl, cut, walk, w, paths, j);
    WalkLive(nodes, root, f.comps);
    var opened_ := rootfs.OpenFile(f.comps);
    assert opened_.Ok?;
    var facts := opened_.value;
    var verdicts := s.verdicts;
    if facts.nlink > 1 {
      if facts.ino !in verdicts {
        var ok := LinksAreAccountedFor(rootfs, w, facts, excl, cut, walk, paths);
        verdicts := verdicts[facts.ino := ok];
      }
      if !verdicts[facts.ino] {
        s' := s.(dropped := s.dropped + {f.entry}, unattributable := s.unattributable + [s.entries[f.entry].path], verdicts := verdicts);
        DropStep(nodes, root, excl, cut, w, j, s, s');
        return;
      }
    }
    var data := rootfs.fs.nodes[facts.ino].bytes;
    var refs, unique := ChunkFile(data, cut(data), s.unique);
    var e := s.entries[f.entry].(mode := facts.mode, size := AsU64(|data|), chunks := refs);
    s' := ReadState(s.entries[f.entry := e], s.dropped, unique, verdicts, s.unattributable, s.totalRefs + |refs|);
    EntryRead(nodes, root, cut, f.comps, facts, s.entries[f.entry]);
    KeepStep(nodes, root, excl, cut, w, j, s, s', e);
  }

  lemma DraftsHaveNoRefs(nodes: Nodes, root: Ino, excl: string -> bool, cut: seq<byte> -> seq<nat>, walk: seq<Path>, w: Walked, paths: seq<Path>)
    requires WalkedOk(nodes, root, excl, cut, walk, w, paths)
    ensures RefCount(w.drafts) == 0
    ensures forall j :: 0 <= j < |w.pending| ==> w.pending[j].entry < |w.drafts|
  {
    hide PendingOk, NamesOk, FilesIn, PathsOf;
    assert forall i :: 0 <= i < |w.drafts| ==> DraftOf(At(nodes, root, paths[i]), paths[i], cut, w.drafts[i]);
    NoRefs(w.drafts);
    forall j | 0 <= j < |w.pending| ensures w.pending[j].entry < |w.drafts| { PendingIsDrafted(nodes, root, excl, cut, walk, w, paths, j); }
  }

  lemma NothingRead(nodes: Nodes, root: Ino, excl: string -> bool, cut: seq<byte> -> seq<nat>, walk: seq<Path>, w: Walked, paths: seq<Path>)
    requires WalkedOk(nodes, root, excl, cut, walk, w, paths)
    ensures ReadUpto(nodes, root, excl, cut, w, 0, ReadState(w.drafts, {}, map[], map[], [], 0))
  {
    DraftsHaveNoRefs(nodes, root, excl, cut, walk, w, paths);
    hide WalkedOk, RefCount, Attributable, Settles, Provides;
    assert w.pending[..0] == [];
  }

  /** Second pass: read the files whose every name is being recorded. */
  method ReadPass(rootfs: RootDir, w: Walked, excl: string -> bool, cut: seq<byte> -> seq<nat>, ghost walk: seq<Path>, ghost paths: seq<Path>)
      returns (s: ReadState)
    requires rootfs.Valid() && Enumerates(rootfs.fs.nodes, rootfs.root, walk) && Tiles(cut)
    requires WalkedOk(rootfs.fs.nodes, rootfs.root, excl, cut, walk, w, paths)
    modifies rootfs, rootfs.fs
    ensures rootfs.Valid() && rootfs.fs.nodes == old(rootfs.fs.nodes)
    ensures ReadUpto(rootfs.fs.nodes, rootfs.root, excl, cut, w, |w.pending|, s)
  {
    hide WalkedOk, ReadUpto, Enumerates, Tiles, Rooted, Coherent;
    NothingRead(rootfs.fs.nodes, rootfs.root, excl, cut, walk, w, paths);
    s := ReadState(w.drafts, {}, map[], map[], [], 0);
    for j := 0 to |w.pending|
      invariant rootfs.Valid() && rootfs.fs.nodes == old(rootfs.fs.nodes)
      invariant ReadUpto(rootfs.fs.nodes, rootfs.root, excl, cut, w, j, s)
    {
      s := ReadNth(rootfs, w, j, s, excl, cut, walk, paths);
    }
  }

  // ---- putting the manifest together --------------------------------------------------------------------

  /** Entry `i` of the finished list, path by path: there and exact, or dropped. */
  lemma EntrySettled(nodes: Nodes, root: Ino, excl: string -> bool, cut: seq<byte> -> seq<nat>, walk: seq<Path>, w: Walked, paths: seq<Path>, s: ReadState, i: nat)
    requires Rooted(nodes, root) && WalkedOk(nodes, root, excl, cut, walk, w, paths)
    requires ReadUpto(nodes, root, excl, cut, w, |w.pending|, s) && i < |w.drafts|
    ensures |s.entries| == |w.drafts| == |paths|
    ensures i in s.dropped <==> !Recorded(nodes, root, excl, paths[i])
    ensures i !in s.dropped ==> s.entries[i] == EntryOf(At(nodes, root, paths[i]), paths[i], cut)
    ensures i !in s.dropped ==> Ids(s.entries[i].chunks) <= s.unique.Keys
  {
    assert DraftOf(At(nodes, root, paths[i]), paths[i], cut, w.drafts[i]);
    assert paths[i] in paths;
    if w.drafts[i].kind == FileKind {
      var j :| 0 <= j < |w.pending| && w.pending[j].entry == i;
      assert Settles(nodes, root, excl, cut, w.pending[j], s);
    } else {
      assert s.entries[i].chunks == [];
      forall a | 0 <= a < |w.pending| ensures w.pending[a].entry != i {}
    }
  }

  /** The entries kept so far: those of the first `n` drafts that were not dropped. */
  ghost predicate KeptUpto(s: ReadState, n: nat, es: seq<ManifestEntry>)
    requires n <= |s.entries|
  {
    && SortedByPath(es)
    && (forall i :: 0 <= i < n && i !in s.dropped ==> s.entries[i] in es)
    && (forall e :: e in es ==> exists i :: 0 <= i < n && i !in s.dropped && s.entries[i] == e)
  }

  lemma PathsDiffer(nodes: Nodes, root: Ino, excl: string -> bool, cut: seq<byte> -> seq<nat>, walk: seq<Path>, w: Walked, paths: seq<Path>, s: ReadState, i: nat, j: nat)
    requires Rooted(nodes, root) && WalkedOk(nodes, root, excl, cut, walk, w, paths)
    requires ReadUpto(nodes, root, excl, cut, w, |w.pending|, s) && i < j < |s.entries|
    requires i !in s.dropped && j !in s.dropped
    ensures s.entries[i].path != s.entries[j].path
  {
    hide ReadUpto;
    SameLength(nodes, root, excl, cut, w, s);
    EntrySettled(nodes, root, excl, cut, walk, w, paths, s, i);
    EntrySettled(nodes, root, excl, cut, walk, w, paths, s, j);
    WalkLive(nodes, root, paths[i]);
    WalkLive(nodes, root, paths[j]);
    if ManifestPath(paths[i]) == ManifestPath(paths[j]) { JoinInjective(paths[i], paths[j]); }
  }

  lemma SameLength(nodes: Nodes, root: Ino, excl: string -> bool, cut: seq<byte> -> seq<nat>, w: Walked, s: ReadState)
    requires ReadUpto(nodes, root, excl, cut, w, |w.pending|, s)
    ensures |s.entries| == |w.drafts| && Named(s.unique)
  {
  }

  method Assemble(s: ReadState, ghost nodes: Nodes, ghost root: Ino, ghost excl: string -> bool, ghost cut: seq<byte> -> seq<nat>, ghost walk: seq<Path>, ghost w: Walked, ghost paths: seq<Path>)
      returns (es: seq<ManifestEntry>)
    requires Rooted(nodes, root) && WalkedOk(nodes, root, excl, cut, walk, w, paths)
    requires ReadUpto(nodes, root, excl, cut, w, |w.pending|, s)
    ensures KeptUpto(s, |s.entries|, es) && RefCount(es) == s.totalRefs
  {
    hide Rooted, WalkedOk, ReadUpto, SortedByPath, SortedBy, StrictOrder, RefCount;
    NoneSorted();
    es := [];
    AllRefs(nodes, root, excl, cut, w, s);
    for i := 0 to |s.entries|
      invariant KeptUpto(s, i, es) && RefCount(es) == RefCount(s.entries[..i])
    {
      RefCountMore(s.entries[..i], s.entries[i]);
      assert s.entries[..i + 1] == s.entries[..i] + [s.entries[i]];
      assert i in s.dropped ==> s.entries[i].chunks == [];
      if i !in s.dropped {
        forall x | x in es ensures x.path != s.entries[i].path {
          var a :| 0 <= a < i && a !in s.dropped && s.entries[a] == x;
          PathsDiffer(nodes, root, excl, cut, walk, w, paths, s, a, i);
        }
        PathSorted(es);
        LessIsStrict();
        RefCountInserted(es, s.entries[i]);
        var more := InsertBy(es, s.entries[i], PathOf, Less);
        PathSorted(more);
        es := more;
      }
    }
    assert s.entries[..|s.entries|] == s.entries;
  }

  lemma AllRefs(nodes: Nodes, root: Ino, excl: string -> bool, cut: seq<byte> -> seq<nat>, w: Walked, s: ReadState)
    requires ReadUpto(nodes, root, excl, cut, w, |w.pending|, s)
    ensures s.totalRefs == RefCount(s.entries) && RefCount([]) == 0
    ensures forall i :: i in s.dropped && i < |s.entries| ==> s.entries[i].chunks == []
  {
    forall i | i in s.dropped && i < |s.entries| ensures s.entries[i].chunks == [] {
      var a :| 0 <= a < |w.pending| && w.pending[a].entry == i;
      assert Settles(nodes, root, excl, cut, w.pending[a], s);
    }
  }

  lemma KeptCaptures(nodes: Nodes, root: Ino, excl: string -> bool, cut: seq<byte> -> seq<nat>, walk: seq<Path>, w: Walked, paths: seq<Path>, s: ReadState, es: seq<ManifestEntry>)
    requires Rooted(nodes, root) && Enumerates(nodes, root, walk) && WalkedOk(nodes, root, excl, cut, walk, w, paths)
    requires ReadUpto(nodes, root, excl, cut, w, |w.pending|, s) && KeptUpto(s, |s.entries|, es)
    ensures Captures(nodes, root, excl, cut, es)
  {
    hide ReadUpto, Attributable, EntryOf, Rooted, Sum, Refs;
    SameLength(nodes, root, excl, cut, w, s);
    forall e | e in es ensures exists p :: Recorded(nodes, root, excl, p) && e == EntryOf(At(nodes, root, p), p, cut) {
      var i :| 0 <= i < |s.entries| && i !in s.dropped && s.entries[i] == e;
      EntrySettled(nodes, root, excl, cut, walk, w, paths, s, i);
      assert Recorded(nodes, root, excl, paths[i]);
    }
    forall p | Recorded(nodes, root, excl, p) ensures EntryOf(At(nodes, root, p), p, cut) in es {
      assert p in walk && p in paths;
      var i :| 0 <= i < |paths| && paths[i] == p;
      EntrySettled(nodes, root, excl, cut, walk, w, paths, s, i);
    }
  }

  // ---- the whole snapshot -----------------------------------------------------------------------------------

  datatype SnapshotResult = SnapshotResult(manifest: Manifest, manifestId: ManifestId, totalRefs: nat, uniqueChunks: nat, uploadedChunks: nat,
                                           reusedChunks: nat, excluded: seq<string>, unattributable: seq<string>)

  /** What is there stays as it was. */
  ghost predicate Kept(before: Chunks, after: Chunks) {
    forall id :: id in before ==> id in after && after[id] == before[id]
  }

  lemma KeptOneMore(before: Chunks, a: Chunks, id: ChunkId, s: Stored)
    requires Kept(before, a) && id !in before
    ensures Kept(before, a[id := s])
  {
  }

  /** What was added was written now, under the address of its plaintext. */
  ghost predicate WrittenNow(before: Chunks, after: Chunks, now: nat) {
    forall id :: id in after && id !in before ==> id.Blake3? && after[id] == Stored(Zstd(id.plain), Some(now))
  }

  lemma WrittenOneMore(before: Chunks, a: Chunks, id: ChunkId, now: nat)
    requires WrittenNow(before, a, now) && id.Blake3?
    ensures WrittenNow(before, a[id := Stored(Zstd(id.plain), Some(now))], now)
  {
  }

  /** Upload the chunks the store does not hold yet. */
  method UploadMissing(store: ChunkStore, unique: map<ChunkId, seq<byte>>, now: nat) returns (uploaded: nat)
    requires Named(unique)
    modifies store`chunks
    ensures store.chunks.Keys == old(store.chunks.Keys) + unique.Keys
    ensures Kept(old(store.chunks), store.chunks) && WrittenNow(old(store.chunks), store.chunks, now)
    ensures old(Sound(store.chunks)) ==> Sound(store.chunks)
    ensures uploaded == |unique.Keys - old(store.chunks.Keys)|
  {
    hide Sound, Kept, WrittenNow;
    var missing := store.MissingChunks(unique.Keys);
    uploaded := |missing|;
    KeptItself(store.chunks);
    while missing != {}
      invariant forall id :: id in missing ==> id in unique && id !in old(store.chunks)
      invariant forall id :: id in store.chunks <==> id in old(store.chunks) || (id in unique && id !in missing)
      invariant Kept(old(store.chunks), store.chunks) && WrittenNow(old(store.chunks), store.chunks, now)
      invariant old(Sound(store.chunks)) ==> Sound(store.chunks)
      decreases missing
    {
      var id :| id in missing;
      ghost var before := store.chunks;
      var put := store.PutChunk(unique[id], now);
      assert put == id;
      KeptOneMore(old(store.chunks), before, id, Stored(Zstd(unique[id]), Some(now)));
      WrittenOneMore(old(store.chunks), before, id, now);
      missing := missing - {id};
    }
  }

  lemma KeptItself(chunks: Chunks)
    ensures Kept(chunks, chunks) && forall now :: WrittenNow(chunks, chunks, now)
  {
  }

  lemma KeptIsSupplied(nodes: Nodes, root: Ino, excl: string -> bool, cut: seq<byte> -> seq<nat>, walk: seq<Path>, w: Walked, paths: seq<Path>, s: ReadState, es: seq<ManifestEntry>)
    requires Rooted(nodes, root) && WalkedOk(nodes, root, excl, cut, walk, w, paths)
    requires ReadUpto(nodes, root, excl, cut, w, |w.pending|, s) && KeptUpto(s, |s.entries|, es)
    ensures s.unique.Keys == ChunksOf(es)
  {
    hide WalkedOk, Settles, Unread, Rooted, SortedByPath, Accounted;
    SameLength(nodes, root, excl, cut, w, s);
    forall e, c | e in es && c in e.chunks ensures c.chunk in s.unique {
      var i :| 0 <= i < |s.entries| && i !in s.dropped && s.entries[i] == e;
      EntrySettled(nodes, root, excl, cut, walk, w, paths, s, i);
      assert c.chunk in Ids(e.chunks);
    }
    forall id | id in s.unique ensures exists e, c :: e in es && c in e.chunks && c.chunk == id {
      var a :| 0 <= a < |w.pending| && Provides(w.pending[a], s, id);
      var e := s.entries[w.pending[a].entry];
      var c :| c in e.chunks && c.chunk == id;
      assert e in es;
    }
  }

  /** A file is left out, unread, exactly when some name of its inode is not being recorded. */
  ghost predicate LeftOut(nodes: Nodes, root: Ino, excl: string -> bool, path: string) {
    exists p :: Drafted(nodes, root, excl, p) && At(nodes, root, p).IsFile? && !Recorded(nodes, root, excl, p) && path == ManifestPath(p)
  }

  /** The files left out, in the order of the walk. */
  ghost function LeftOutIn(nodes: Nodes, root: Ino, excl: string -> bool, walk: seq<Path>): seq<string> {
    if walk == [] then []
    else
      var p := walk[|walk| - 1];
      LeftOutIn(nodes, root, excl, walk[..|walk| - 1]) +
      if Drafted(nodes, root, excl, p) && At(nodes, root, p).IsFile? && !Recorded(nodes, root, excl, p) then [ManifestPath(p)] else []
  }

  lemma SameLast<T>(a: seq<T>, x: T, b: seq<T>, y: T)
    requires a + [x] == b + [y]
    ensures a == b && x == y
  {
    assert |a + [x]| == |b + [y]|;
    assert (a + [x])[|a|] == (b + [y])[|b|];
    assert a == (a + [x])[..|a|] == (b + [y])[..|b|] == b;
  }

  /** What was not read is what is left out, in the same order. */
  lemma {:induction false} UnreadInOrder(nodes: Nodes, root: Ino, excl: string -> bool, pending: seq<PendingFile>, walk: seq<Path>)
    requires PathsOf(pending) == FilesIn(nodes, root, excl, walk)
    requires forall p :: p in walk ==> Walk(nodes, root, p).Some?
    ensures Unread(nodes, root, excl, pending) == LeftOutIn(nodes, root, excl, walk)
    decreases |walk|
  {
    hide Attributable, Drafted, At, Walk, ManifestPath;
    if walk != [] {
      var p, front := walk[|walk| - 1], walk[..|walk| - 1];
      if Drafted(nodes, root, excl, p) && At(nodes, root, p).IsFile? {
        assert pending != [];
        var less := pending[..|pending| - 1];
        SameLast(PathsOf(less), pending[|pending| - 1].comps, FilesIn(nodes, root, excl, front), p);
        UnreadInOrder(nodes, root, excl, less, front);
      } else {
        UnreadInOrder(nodes, root, excl, pending, front);
      }
    } else {
      assert pending == [];
    }
  }

  lemma {:induction false} UnreadMeans(nodes: Nodes, root: Ino, excl: string -> bool, pending: seq<PendingFile>, path: string)
    requires forall j :: 0 <= j < |pending| ==> Drafted(nodes, root, excl, pending[j].comps) && At(nodes, root, pending[j].comps).IsFile?
    ensures path in Unread(nodes, root, excl, pending) <==>
      exists j :: 0 <= j < |pending| && !Recorded(nodes, root, excl, pending[j].comps) && path == ManifestPath(pending[j].comps)
    decreases |pending|
  {
    hide Drafted, Attributable, Walk, ManifestPath;
    if pending != [] {
      var less, f := pending[..|pending| - 1], pending[|pending| - 1];
      assert pending == less + [f];
      forall j | 0 <= j < |less| ensures Drafted(nodes, root, excl, less[j].comps) && At(nodes, root, less[j].comps).IsFile? { assert less[j] == pending[j]; }
      UnreadMeans(nodes, root, excl, less, path);
      if j :| 0 <= j < |pending| && !Recorded(nodes, root, excl, pending[j].comps) && path == ManifestPath(pending[j].comps) {
        if j < |less| { assert less[j] == pending[j]; }
      }
      if path in Unread(nodes, root, excl, less) {
        var j :| 0 <= j < |less| && !Recorded(nodes, root, excl, less[j].comps) && path == ManifestPath(less[j].comps);
        assert pending[j] == less[j];
      }
      assert Drafted(nodes, root, excl, pending[|less|].comps);
    }
  }

  lemma UnreadIsLeftOut(nodes: Nodes, root: Ino, excl: string -> bool, cut: seq<byte> -> seq<nat>, walk: seq<Path>, w: Walked, paths: seq<Path>, path: string)
    requires Rooted(nodes, root) && Enumerates(nodes, root, walk) && WalkedOk(nodes, root, excl, cut, walk, w, paths)
    ensures path in Unread(nodes, root, excl, w.pending) <==> LeftOut(nodes, root, excl, path)
  {
    forall j | 0 <= j < |w.pending| ensures Drafted(nodes, root, excl, w.pending[j].comps) && At(nodes, root, w.pending[j].comps).IsFile? {
      PendingIsDrafted(nodes, root, excl, cut, walk, w, paths, j);
    }
    UnreadMeans(nodes, root, excl, w.pending, path);
    if LeftOut(nodes, root, excl, path) {
      var p :| Drafted(nodes, root, excl, p) && At(nodes, root, p).IsFile? && !Recorded(nodes, root, excl, p) && path == ManifestPath(p);
      PendingHas(nodes, root, excl, cut, walk, w, paths, p);
      var j :| 0 <= j < |w.pending| && w.pending[j].comps == p;
    }
  }

  lemma PendingHas(nodes: Nodes, root: Ino, excl: string -> bool, cut: seq<byte> -> seq<nat>, walk: seq<Path>, w: Walked, paths: seq<Path>, p: Path)
    requires Rooted(nodes, root) && Enumerates(nodes, root, walk) && WalkedOk(nodes, root, excl, cut, walk, w, paths)
    requires Drafted(nodes, root, excl, p) && At(nodes, root, p).IsFile?
    ensures exists j :: 0 <= j < |w.pending| && w.pending[j].comps == p
  {
    assert p in walk && p in paths;
    var i :| 0 <= i < |paths| && paths[i] == p;
    assert DraftOf(At(nodes, root, paths[i]), paths[i], cut, w.drafts[i]);
    var j :| 0 <= j < |w.pending| && w.pending[j].entry == i;
    assert w.pending[j].comps == p;
  }

  /** Walk, read and assemble: the entries, their distinct chunks, and what was left out. */
  method Take(fs: FileSystem, root: Ino, walk: seq<Path>, excl: string -> bool, cut: seq<byte> -> seq<nat>)
      returns (es: seq<ManifestEntry>, unique: map<ChunkId, seq<byte>>, totalRefs: nat, excluded: seq<string>, unattributable: seq<string>)
    requires Rooted(fs.nodes, root) && Enumerates(fs.nodes, root, walk) && Tiles(cut)
    modifies fs
    ensures fs.nodes == old(fs.nodes)
    ensures Captures(fs.nodes, root, excl, cut, es)
    ensures Named(unique) && unique.Keys == ChunksOf(es) && totalRefs == RefCount(es)
    ensures excluded == Topmost(excl, walk)
    ensures unattributable == LeftOutIn(fs.nodes, root, excl, walk)
    ensures forall path :: path in unattributable <==> LeftOut(fs.nodes, root, excl, path)
  {
    hide Rooted, Enumerates, Captures, WalkedOk, ReadUpto, KeptUpto, LeftOut, LeftOutIn, Unread, Coherent, Tiles, Named, Topmost;
    ghost var nodes := fs.nodes;
    var rootfs := new RootDir(fs, root);
    var w, topmost, paths := WalkPass(rootfs, walk, excl, cut);
    var s := ReadPass(rootfs, w, excl, cut, walk, paths);
    SameLength(nodes, root, excl, cut, w, s);
    es := Assemble(s, nodes, root, excl, cut, walk, w, paths);
    KeptCaptures(nodes, root, excl, cut, walk, w, paths, s, es);
    KeptIsSupplied(nodes, root, excl, cut, walk, w, paths, s, es);
    AllRead(nodes, root, excl, cut, w, s);
    WalkedInOrder(nodes, root, excl, cut, walk, w, paths);
    UnreadInOrder(nodes, root, excl, w.pending, walk);
    forall path ensures path in s.unattributable <==> LeftOut(nodes, root, excl, path) {
      UnreadIsLeftOut(nodes, root, excl, cut, walk, w, paths, path);
    }
    return es, s.unique, s.totalRefs, topmost, s.unattributable;
  }

  lemma WalkedInOrder(nodes: Nodes, root: Ino, excl: string -> bool, cut: seq<byte> -> seq<nat>, walk: seq<Path>, w: Walked, paths: seq<Path>)
    requires Enumerates(nodes, root, walk) && WalkedOk(nodes, root, excl, cut, walk, w, paths)
    ensures PathsOf(w.pending) == FilesIn(nodes, root, excl, walk) && forall p :: p in walk ==> Walk(nodes, root, p).Some?
  {
    hide DraftsOk, PendingOk, NamesOk;
  }

  /** Field by field, what an entry says of what its path shows: st_mode has 8, 4 or 10 above the
      twelve permission bits of a file, a directory or a link. */
  ghost predicate Recounted(v: View, e: ManifestEntry) {
    match v
    case IsFile(bytes, mode) =>
      && e.kind == FileKind && e.mode / 0x1000 == 8 && e.mode % 0x1000 == mode && e.symlinkTarget == None
      && (|bytes| < 0x1_0000_0000_0000_0000 ==> e.size == |bytes|)
    case IsDir(mode) =>
      e.kind == DirKind && e.mode / 0x1000 == 4 && e.mode % 0x1000 == mode && e.symlinkTarget == None && e.size == 0 && e.chunks == []
    case IsLink(text) =>
      && e.kind == SymlinkKind && e.mode / 0x1000 == 10 && e.mode % 0x1000 == 0x1FF && e.symlinkTarget == Some(text) && e.chunks == []
      && (|text| < 0x1_0000_0000_0000_0000 ==> e.size == |text|)
    case _ => false
  }

  ghost predicate Recounts(nodes: Nodes, root: Ino, es: seq<ManifestEntry>) {
    forall e :: e in es ==> exists p :: e.path == ManifestPath(p) && Recounted(At(nodes, root, p), e)
  }

  lemma EntryRecounts(v: View, p: Path, cut: seq<byte> -> seq<nat>)
    requires v.IsFile? || v.IsDir? || v.IsLink?
    requires v.IsFile? || v.IsDir? ==> v.mode < 0x1000
    ensures Recounted(v, EntryOf(v, p, cut)) && EntryOf(v, p, cut).path == ManifestPath(p)
  {
  }

  lemma CapturedRecounts(nodes: Nodes, root: Ino, excl: string -> bool, cut: seq<byte> -> seq<nat>, es: seq<ManifestEntry>)
    requires Rooted(nodes, root) && Captures(nodes, root, excl, cut, es)
    ensures Recounts(nodes, root, es)
  {
    hide Attributable, Hidden, EntryOf, Recounted, ManifestPath;
    forall e | e in es ensures exists p :: e.path == ManifestPath(p) && Recounted(At(nodes, root, p), e) {
      var p :| Recorded(nodes, root, excl, p) && e == EntryOf(At(nodes, root, p), p, cut);
      WalkLive(nodes, root, p);
      EntryRecounts(At(nodes, root, p), p, cut);
    }
  }

  /** Snapshot the tree: `walk` is what the directory walk yields, `idOf` hashes a manifest. */
  method Snapshot(store: ChunkStore, fs: FileSystem, root: Ino, walk: seq<Path>, excl: string -> bool, cut: seq<byte> -> seq<nat>,
                  parent: Option<ManifestId>, createdAt: nat, now: nat, idOf: Manifest -> ManifestId) returns (r: SnapshotResult)
    requires Rooted(fs.nodes, root) && Enumerates(fs.nodes, root, walk) && Tiles(cut)
    modifies store, fs
    ensures fs.nodes == old(fs.nodes)
    ensures Captures(fs.nodes, root, excl, cut, r.manifest.entries) && Recounts(fs.nodes, root, r.manifest.entries)
    ensures r.manifest.parent == parent && r.manifest.createdAt == createdAt
    ensures store.chunks.Keys == old(store.chunks.Keys) + ManifestChunks(r.manifest)
    ensures Kept(old(store.chunks), store.chunks) && WrittenNow(old(store.chunks), store.chunks, now)
    ensures old(Sound(store.chunks)) ==> Sound(store.chunks)
    ensures store.manifests == old(store.manifests)[idOf(r.manifest) := r.manifest] && r.manifestId == idOf(r.manifest)
    ensures r.excluded == Topmost(excl, walk)
    ensures r.unattributable == LeftOutIn(fs.nodes, root, excl, walk)
    ensures forall path :: path in r.unattributable <==> LeftOut(fs.nodes, root, excl, path)
    ensures r.totalRefs == RefCount(r.manifest.entries) && r.uniqueChunks == |ManifestChunks(r.manifest)|
    ensures r.uploadedChunks == |ManifestChunks(r.manifest) - old(store.chunks.Keys)|
    ensures r.reusedChunks == |ManifestChunks(r.manifest) * old(store.chunks.Keys)|
    ensures Supplied(store.chunks, r.manifest.entries)
  {
    hide Rooted, Enumerates, Captures, Recounts, LeftOut, LeftOutIn, Sound, Kept, Tiles, Named, Topmost, WrittenNow, RefCount;
    var es, unique, totalRefs, excluded, unattributable := Take(fs, root, walk, excl, cut);
    CapturedRecounts(fs.nodes, root, excl, cut, es);
    var uploaded := UploadMissing(store, unique, now);
    SplitSize(unique.Keys, old(store.chunks.Keys));
    var m := Manifest(parent, createdAt, es);
    store.PutManifest(idOf(m), m);
    return SnapshotResult(m, idOf(m), totalRefs, |unique.Keys|, uploaded, |unique.Keys| - uploaded, excluded, unattributable);
  }

  lemma SplitSize<T>(a: set<T>, b: set<T>)
    ensures |a| == |a - b| + |a * b|
  {
    assert a == (a - b) + (a * b);
  }

  lemma AllRead(nodes: Nodes, root: Ino, excl: string -> bool, cut: seq<byte> -> seq<nat>, w: Walked, s: ReadState)
    requires ReadUpto(nodes, root, excl, cut, w, |w.pending|, s)
    ensures s.unattributable == Unread(nodes, root, excl, w.pending)
  {
    Whole(w.pending);
  }
}
