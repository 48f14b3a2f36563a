/** Rebuild a tree from a manifest (crates/mari-core/src/restore.rs). */
module Restores {
  import opened Basics
  import opened Ordering
  import opened Paths
  import opened Disk
  import opened Errors
  import opened FileSystems
  import opened RootDirs
  import opened Manifests
  import opened ChunkStores

  // ---- what a manifest says ----------------------------------------------------

  function Comps(e: ManifestEntry): Path
    requires LexicalComponents(e.path).Some?
  {
    LexicalComponents(e.path).value
  }

  function TotalLen(refs: seq<ChunkRef>): nat {
    if refs == [] then 0 else refs[0].len + TotalLen(refs[1..])
  }

  /** The bytes a chunk list stands for, or the first thing wrong with it. */
  function Content(chunks: Chunks, refs: seq<ChunkRef>): (r: Result<seq<byte>, Error>)
    ensures r.Ok? ==> |r.value| == TotalLen(refs)
  {
    if refs == [] then Ok([])
    else
      var first := Fetch(chunks, refs[0].chunk);
      if first.Err? then first
      else if |first.value| != refs[0].len then Err(InvalidManifest)
      else
        var rest := Content(chunks, refs[1..]);
        if rest.Err? then rest else Ok(first.value + rest.value)
  }

  function FileContent(chunks: Chunks, e: ManifestEntry): Result<seq<byte>, Error> {
    if TotalLen(e.chunks) != e.size then Err(InvalidManifest) else Content(chunks, e.chunks)
  }

  /** What restore checks before it writes anything. */
  predicate ValidEntry(e: ManifestEntry) {
    && LexicalComponents(e.path).Some?
    && (Comps(e) == [] ==> e.kind == DirKind)
    && (e.kind == FileKind ==> TotalLen(e.chunks) == e.size)
  }

  /** An entry whose contents can be had. */
  predicate Readable(chunks: Chunks, e: ManifestEntry) {
    && ValidEntry(e)
    && (e.kind == FileKind ==> FileContent(chunks, e).Ok?)
    && (e.kind == SymlinkKind ==> e.symlinkTarget.Some?)
  }

  /** What the entry's path must show afterwards. */
  function Wanted(chunks: Chunks, e: ManifestEntry): View
    requires Readable(chunks, e)
  {
    match e.kind
    case DirKind => IsDir(PermBits(e.mode))
    case FileKind => IsFile(FileContent(chunks, e).value, PermBits(e.mode))
    case SymlinkKind => IsLink(e.symlinkTarget.value)
  }

  ghost predicate AllValid(es: seq<ManifestEntry>) {
    forall i :: 0 <= i < |es| ==> ValidEntry(es[i])
  }

  /** The entries form a tree: one per path, and only a directory has others below it. */
  ghost predicate TreeShaped(es: seq<ManifestEntry>) {
    && (forall i :: 0 <= i < |es| ==> LexicalComponents(es[i].path).Some?)
    && (forall i, j :: 0 <= i < |es| && 0 <= j < |es| && Comps(es[i]) <= Comps(es[j]) ==> i == j || (es[i].kind == DirKind && Comps(es[i]) != Comps(es[j])))
  }

  /** Some entry lies at or below `q`. */
  ghost predicate Covered(es: seq<ManifestEntry>, q: Path) {
    exists i :: 0 <= i < |es| && LexicalComponents(es[i].path).Some? && q <= Comps(es[i])
  }

  ghost predicate IsEntry(es: seq<ManifestEntry>, q: Path) {
    exists i :: 0 <= i < |es| && LexicalComponents(es[i].path).Some? && q == Comps(es[i])
  }

  /** Every entry is realised exactly, and nothing else looks different except that the
      directories above the entries exist. */
  ghost predicate Realised(nodes: Nodes, nodes': Nodes, root: Ino, chunks: Chunks, es: seq<ManifestEntry>) {
    && (forall i :: 0 <= i < |es| ==> Readable(chunks, es[i]) && At(nodes', root, Comps(es[i])) == Wanted(chunks, es[i]))
    && (forall q :: !IsEntry(es, q) ==>
          At(nodes', root, q) == if Covered(es, q) && !At(nodes, root, q).IsDir? then IsDir(NEW_DIR_MODE) else At(nodes, root, q))
  }

  /** Nothing outside the root changed, and inside only entries and the directories above
      them look different. */
  ghost predicate Contained(nodes: Nodes, nodes': Nodes, root: Ino, es: seq<ManifestEntry>) {
    Quiet(nodes, nodes', root) && forall q :: !Covered(es, q) ==> At(nodes', root, q) == At(nodes, root, q)
  }

  lemma ContainedItself(nodes: Nodes, root: Ino, es: seq<ManifestEntry>)
    ensures Contained(nodes, nodes, root, es)
  {
    QuietItself(nodes, root);
  }

  lemma ContainedTransitive(a: Nodes, b: Nodes, c: Nodes, root: Ino, es: seq<ManifestEntry>)
    requires Contained(a, b, root, es) && Contained(b, c, root, es)
    ensures Contained(a, c, root, es)
  {
    hide Quiet, At, Covered;
    QuietTransitive(a, b, c, root);
  }

  lemma OpenedIsContained(a: Nodes, b: Nodes, root: Ino, es: seq<ManifestEntry>, k: nat, dirs: Path)
    requires k < |es| && LexicalComponents(es[k].path).Some? && dirs <= Comps(es[k])
    requires Quiet(a, b, root) && Opened(a, b, root, dirs)
    ensures Contained(a, b, root, es)
  {
    hide Quiet, At;
    forall q | !Covered(es, q) ensures At(b, root, q) == At(a, root, q) { assert !(q <= Comps(es[k])); }
  }

  /** Placing a leaf, or failing to. */
  ghost predicate LeafEffect(a: Nodes, b: Nodes, root: Ino, p: Path) {
    || a == b
    || (exists v :: Placed(a, b, root, p, v))
    || (p != [] && Opened(a, b, root, p[..|p| - 1]))
  }

  lemma LeafIsContained(a: Nodes, b: Nodes, root: Ino, es: seq<ManifestEntry>, k: nat)
    requires k < |es| && LexicalComponents(es[k].path).Some?
    requires Quiet(a, b, root) && LeafEffect(a, b, root, Comps(es[k]))
    ensures Contained(a, b, root, es)
  {
    hide Quiet, At;
    forall q | !Covered(es, q) ensures At(b, root, q) == At(a, root, q) {
      assert !(q <= Comps(es[k]));
      if Comps(es[k]) != [] { assert Comps(es[k])[..|Comps(es[k])| - 1] <= Comps(es[k]); }
    }
  }

  lemma ModeIsContained(a: Nodes, b: Nodes, root: Ino, es: seq<ManifestEntry>, k: nat, v: View)
    requires k < |es| && LexicalComponents(es[k].path).Some? && Quiet(a, b, root)
    requires forall q :: At(b, root, q) == if q == Comps(es[k]) then v else At(a, root, q)
    ensures Contained(a, b, root, es)
  {
    hide Quiet, At;
    assert Covered(es, Comps(es[k])) by { assert Comps(es[k]) <= Comps(es[k]); }
  }

  /** When restore succeeds: everything is readable and no directory that holds something
      stands where a file or a symlink belongs. */
  ghost predicate Restorable(nodes: Nodes, root: Ino, chunks: Chunks, es: seq<ManifestEntry>) {
    forall i :: 0 <= i < |es| ==>
      Readable(chunks, es[i]) && (es[i].kind != DirKind ==> !Occupied(nodes, root, Comps(es[i])))
  }

  // ---- the first three passes, entry by entry ------------------------------------------

  /** After the entries in `done`: files and links are final, directories exist. */
  ghost predicate Midway(nodes: Nodes, nodes': Nodes, root: Ino, chunks: Chunks, es: seq<ManifestEntry>, done: set<nat>) {
    && (forall i :: i in done ==> i < |es|)
    && (forall i :: i in done && es[i].kind != DirKind ==>
          Readable(chunks, es[i]) && At(nodes', root, Comps(es[i])) == Wanted(chunks, es[i]))
    && (forall q :: !Settled(es, done, q) ==>
          At(nodes', root, q) == if Reached(es, done, q) && !At(nodes, root, q).IsDir? then IsDir(NEW_DIR_MODE) else At(nodes, root, q))
  }

  ghost predicate Settled(es: seq<ManifestEntry>, done: set<nat>, q: Path) {
    exists i :: i in done && i < |es| && es[i].kind != DirKind && LexicalComponents(es[i].path).Some? && q == Comps(es[i])
  }

  ghost predicate Reached(es: seq<ManifestEntry>, done: set<nat>, q: Path) {
    exists i :: i in done && i < |es| && LexicalComponents(es[i].path).Some? && q <= Comps(es[i])
  }

  lemma DoneGrows(es: seq<ManifestEntry>, done: set<nat>, k: nat, q: Path)
    requires TreeShaped(es) && k < |es|
    ensures Reached(es, done + {k}, q) <==> Reached(es, done, q) || q <= Comps(es[k])
    ensures Settled(es, done + {k}, q) <==> Settled(es, done, q) || (es[k].kind != DirKind && q == Comps(es[k]))
  {
    if Reached(es, done, q) {
      var i :| i in done && i < |es| && q <= Comps(es[i]);
      assert i in done + {k};
    }
    if Settled(es, done, q) {
      var i :| i in done && i < |es| && es[i].kind != DirKind && q == Comps(es[i]);
      assert i in done + {k};
    }
    assert k in done + {k};
  }

  lemma DirStep(nodes: Nodes, a: Nodes, b: Nodes, root: Ino, chunks: Chunks, es: seq<ManifestEntry>, done: set<nat>, k: nat)
    requires TreeShaped(es) && k < |es| && es[k].kind == DirKind
    requires Midway(nodes, a, root, chunks, es, done) && Opened(a, b, root, Comps(es[k]))
    ensures Midway(nodes, b, root, chunks, es, done + {k})
  {
    forall q | !Settled(es, done + {k}, q)
      ensures At(b, root, q) ==
        if Reached(es, done + {k}, q) && !At(nodes, root, q).IsDir? then IsDir(NEW_DIR_MODE) else At(nodes, root, q)
    {
      DoneGrows(es, done, k, q);
    }
  }

  lemma LeafStep(nodes: Nodes, a: Nodes, b: Nodes, root: Ino, chunks: Chunks, es: seq<ManifestEntry>, done: set<nat>, k: nat)
    requires TreeShaped(es) && k < |es| && es[k].kind != DirKind && Readable(chunks, es[k])
    requires Midway(nodes, a, root, chunks, es, done) && Placed(a, b, root, Comps(es[k]), Wanted(chunks, es[k]))
    ensures Midway(nodes, b, root, chunks, es, done + {k})
  {
    forall q | !Settled(es, done + {k}, q)
      ensures At(b, root, q) ==
        if Reached(es, done + {k}, q) && !At(nodes, root, q).IsDir? then IsDir(NEW_DIR_MODE) else At(nodes, root, q)
    {
      DoneGrows(es, done, k, q);
    }
  }

  /** What stands at a leaf's path is never disturbed before its turn. */
  lemma LeafStillOccupied(nodes: Nodes, a: Nodes, root: Ino, chunks: Chunks, es: seq<ManifestEntry>, done: set<nat>, k: nat)
    requires TreeShaped(es) && k < |es| && es[k].kind != DirKind
    requires Midway(nodes, a, root, chunks, es, done)
    ensures Occupied(a, root, Comps(es[k])) <==> Occupied(nodes, root, Comps(es[k]))
  {
    hide Walk, At, Readable, Wanted, LexicalComponents;
    forall n ensures At(a, root, Comps(es[k]) + [n]) == At(nodes, root, Comps(es[k]) + [n]) {
      var q := Comps(es[k]) + [n];
      assert forall i :: i in done && q <= Comps(es[i]) ==> Comps(es[k]) <= Comps(es[i]);
      assert !Reached(es, done, q) && !Settled(es, done, q);
    }
  }

  // ---- the order files are written in --------------------------------------------------

  /** Position of each file path; a repeated path keeps its last position. */
  function IndexOf(es: seq<ManifestEntry>): (index: map<string, nat>)
    ensures forall p :: p in index ==> index[p] < |es| && es[index[p]].kind == FileKind && es[index[p]].path == p
  {
    if es == [] then map[]
    else
      var last := |es| - 1;
      if es[last].kind == FileKind then IndexOf(es[..last])[es[last].path := last] else IndexOf(es[..last])
  }

  /** The requested files, each at its first mention. */
  function PriorityOrder(index: map<string, nat>, priority: seq<string>): (order: seq<nat>)
    ensures forall i :: i in order ==> i in index.Values
    ensures forall a, b :: 0 <= a < b < |order| ==> order[a] != order[b]
  {
    if priority == [] then []
    else
      var order, p := PriorityOrder(index, priority[..|priority| - 1]), priority[|priority| - 1];
      if p in index && index[p] !in order then order + [index[p]] else order
  }

  /** `first`, then every file among the first `n` entries that is not in it. */
  function ThenTheRest(es: seq<ManifestEntry>, first: seq<nat>, n: nat): (order: seq<nat>)
    requires n <= |es|
    requires forall i :: i in first ==> i < |es| && es[i].kind == FileKind
    requires forall a, b :: 0 <= a < b < |first| ==> first[a] != first[b]
    ensures first <= order
    ensures forall i :: i in order ==> i < |es| && es[i].kind == FileKind
    ensures forall i :: i in order ==> i in first || i < n
    ensures forall i :: 0 <= i < n && es[i].kind == FileKind ==> i in order
    ensures forall a, b :: 0 <= a < b < |order| ==> order[a] != order[b]
  {
    if n == 0 then first
    else
      var order := ThenTheRest(es, first, n - 1);
      if es[n - 1].kind == FileKind && n - 1 !in order then order + [n - 1] else order
  }

  function RestoreOrder(es: seq<ManifestEntry>, priority: seq<string>): seq<nat> {
    ThenTheRest(es, PriorityOrder(IndexOf(es), priority), |es|)
  }

  lemma PriorityStep(index: map<string, nat>, priority: seq<string>, k: nat)
    requires k < |priority|
    ensures var order := PriorityOrder(index, priority[..k]);
      PriorityOrder(index, priority[..k + 1]) ==
      if priority[k] in index && index[priority[k]] !in order then order + [index[priority[k]]] else order
  {
    assert priority[..k + 1][..k] == priority[..k];
  }

  lemma {:induction false} PriorityOrderGrows(index: map<string, nat>, priority: seq<string>, k: nat)
    requires k <= |priority|
    ensures PriorityOrder(index, priority[..k]) <= PriorityOrder(index, priority)
    decreases |priority|
  {
    if k < |priority| {
      var short := priority[..|priority| - 1];
      PriorityOrderGrows(index, short, k);
      assert short[..k] == priority[..k];
    } else {
      assert priority[..k] == priority;
    }
  }

  /** `i` is the last file entry with path `p`. */
  ghost predicate IsLast(es: seq<ManifestEntry>, p: string, i: nat) {
    && i < |es| && es[i].kind == FileKind && es[i].path == p
    && forall j :: i < j < |es| ==> !(es[j].kind == FileKind && es[j].path == p)
  }

  lemma {:induction false} IndexIsLast(es: seq<ManifestEntry>, p: string)
    ensures forall i :: IsLast(es, p, i) <==> p in IndexOf(es) && i == IndexOf(es)[p]
    decreases |es|
  {
    if es != [] {
      var last := |es| - 1;
      IndexIsLast(es[..last], p);
      forall i ensures IsLast(es, p, i) <==> p in IndexOf(es) && i == IndexOf(es)[p] {
        if es[last].kind == FileKind && es[last].path == p {
          assert IsLast(es, p, last);
        } else {
          assert IsLast(es, p, i) <==> IsLast(es[..last], p, i);
        }
      }
    }
  }

  /** The priority list asks for this entry: a file named there, and the last entry of that name. */
  ghost predicate Asked(es: seq<ManifestEntry>, priority: seq<string>, i: nat) {
    i < |es| && es[i].path in priority && IsLast(es, es[i].path, i)
  }

  /** The list mentions `p` before it first mentions `q`. */
  ghost predicate MentionedBefore(priority: seq<string>, p: string, q: string) {
    exists k :: 0 <= k < |priority| && priority[k] == p && q !in priority[..k + 1]
  }

  lemma {:induction false} PriorityIsAsked(es: seq<ManifestEntry>, priority: seq<string>)
    ensures forall i :: i in PriorityOrder(IndexOf(es), priority) <==> Asked(es, priority, i)
    decreases |priority|
  {
    if priority != [] {
      var front, p := priority[..|priority| - 1], priority[|priority| - 1];
      PriorityIsAsked(es, front);
      IndexIsLast(es, p);
      assert priority == front + [p];
      hide IsLast, IndexOf;
      var index := IndexOf(es);
      forall i: nat ensures i in PriorityOrder(index, priority) <==> Asked(es, priority, i) {
        if Asked(es, priority, i) && es[i].path == p { assert IsLast(es, p, i); }
      }
    }
  }

  /** Entries in the order in which the list first mentions their paths. */
  ghost predicate InTurn(es: seq<ManifestEntry>, priority: seq<string>, order: seq<nat>) {
    forall a, b :: 0 <= a < b < |order| ==> Sooner(es, priority, order[a], order[b])
  }

  ghost predicate Sooner(es: seq<ManifestEntry>, priority: seq<string>, i: nat, j: nat) {
    i < |es| && j < |es| && MentionedBefore(priority, es[i].path, es[j].path)
  }

  lemma SoonerStill(es: seq<ManifestEntry>, front: seq<string>, p: string, i: nat, j: nat)
    requires Sooner(es, front, i, j)
    ensures Sooner(es, front + [p], i, j)
  {
    var k :| 0 <= k < |front| && front[k] == es[i].path && es[j].path !in front[..k + 1];
    assert (front + [p])[..k + 1] == front[..k + 1] && (front + [p])[k] == front[k];
  }

  lemma SoonerThanNew(es: seq<ManifestEntry>, front: seq<string>, p: string, i: nat, j: nat)
    requires i < |es| && j < |es| && es[i].path in front && es[j].path == p && p !in front
    ensures Sooner(es, front + [p], i, j)
  {
    var k :| 0 <= k < |front| && front[k] == es[i].path;
    assert (front + [p])[..k + 1] == front[..k + 1] && (front + [p])[k] == front[k];
  }

  lemma {:induction false} PriorityInTurn(es: seq<ManifestEntry>, priority: seq<string>)
    ensures InTurn(es, priority, PriorityOrder(IndexOf(es), priority))
    decreases |priority|
  {
    hide Sooner, MentionedBefore, IndexOf, IsLast;
    if priority != [] {
      var front, p := priority[..|priority| - 1], priority[|priority| - 1];
      var before, order := PriorityOrder(IndexOf(es), front), PriorityOrder(IndexOf(es), priority);
      PriorityInTurn(es, front);
      PriorityIsAsked(es, front);
      IndexIsLast(es, p);
      assert order == before || (p in IndexOf(es) && order == before + [IndexOf(es)[p]] && IndexOf(es)[p] !in before);
      hide PriorityOrder;
      assert priority == front + [p];
      forall a, b | 0 <= a < b < |order| ensures Sooner(es, priority, order[a], order[b]) {
        assert order[a] == before[a] && before[a] in before && Asked(es, front, before[a]);
        if b < |before| {
          assert Sooner(es, front, before[a], before[b]);
          SoonerStill(es, front, p, order[a], order[b]);
        } else {
          NotYetAsked(es, front, p, order[b]);
          SoonerThanNew(es, front, p, order[a], order[b]);
        }
      }
    }
  }

  lemma NotYetAsked(es: seq<ManifestEntry>, front: seq<string>, p: string, i: nat)
    requires IsLast(es, p, i) && !Asked(es, front, i)
    ensures i < |es| && es[i].path == p && p !in front
  {
  }

  /** From position `n` on, ascending. */
  predicate AscendsFrom(order: seq<nat>, n: nat) {
    forall a, b :: n <= a < b < |order| ==> order[a] < order[b]
  }

  lemma OneMoreAscends(first: seq<nat>, less: seq<nat>, k: nat)
    requires first <= less && AscendsFrom(less, |first|) && (forall i :: i in less ==> i in first || i < k)
    requires forall a, b :: 0 <= a < b < |less| ==> less[a] != less[b]
    ensures AscendsFrom(less + [k], |first|)
  {
    forall a | |first| <= a < |less| ensures less[a] < k {
      assert less[a] in less;
      assert forall i :: 0 <= i < |first| ==> less[i] == first[i];
    }
  }

  lemma {:induction false} RestAscends(es: seq<ManifestEntry>, first: seq<nat>, n: nat)
    requires n <= |es|
    requires forall i :: i in first ==> i < |es| && es[i].kind == FileKind
    requires forall a, b :: 0 <= a < b < |first| ==> first[a] != first[b]
    ensures AscendsFrom(ThenTheRest(es, first, n), |first|)
  {
    if n > 0 {
      RestAscends(es, first, n - 1);
      hide AscendsFrom;
      OneMoreAscends(first, ThenTheRest(es, first, n - 1), n - 1);
    }
  }

  lemma FirstIsAsked(es: seq<ManifestEntry>, priority: seq<string>, first: seq<nat>, order: seq<nat>)
    requires first <= order && (forall i :: i in first <==> Asked(es, priority, i))
    requires forall a, b :: 0 <= a < b < |order| ==> order[a] != order[b]
    ensures forall a :: 0 <= a < |order| ==> (a < |first| <==> Asked(es, priority, order[a]))
  {
    hide Asked;
    forall a | 0 <= a < |order| ensures a < |first| <==> order[a] in first {
      if a < |first| { assert order[a] == first[a]; }
      assert forall i :: 0 <= i < |first| ==> order[i] == first[i];
    }
  }

  lemma OrderIs(es: seq<ManifestEntry>, priority: seq<string>) returns (first: seq<nat>)
    ensures first == PriorityOrder(IndexOf(es), priority) && first <= RestoreOrder(es, priority)
    ensures AscendsFrom(RestoreOrder(es, priority), |first|)
    ensures forall i :: i in RestoreOrder(es, priority) <==> 0 <= i < |es| && es[i].kind == FileKind
    ensures forall a, b :: 0 <= a < b < |RestoreOrder(es, priority)| ==> RestoreOrder(es, priority)[a] != RestoreOrder(es, priority)[b]
  {
    first := PriorityOrder(IndexOf(es), priority);
    RestAscends(es, first, |es|);
    hide AscendsFrom;
  }

  /** Every file is written exactly once. First come those the priority list asks for, in the order
      of their first mention, a path that several entries have standing for the last of them; then
      all the others, in the order of the manifest. */
  lemma RestoreOrderIsFair(es: seq<ManifestEntry>, priority: seq<string>) returns (n: nat)
    ensures var order := RestoreOrder(es, priority);
      && (forall i :: i in order <==> 0 <= i < |es| && es[i].kind == FileKind)
      && (forall a, b :: 0 <= a < b < |order| ==> order[a] != order[b])
      && n <= |order|
      && (forall a :: 0 <= a < |order| ==> (a < n <==> Asked(es, priority, order[a])))
      && InTurn(es, priority, order[..n])
      && AscendsFrom(order, n)
  {
    hide RestoreOrder, IndexOf, PriorityOrder, ThenTheRest, InTurn, AscendsFrom, Asked;
    var first := OrderIs(es, priority);
    n := |first|;
    PriorityIsAsked(es, priority);
    PriorityInTurn(es, priority);
    FirstIsAsked(es, priority, first, RestoreOrder(es, priority));
    assert RestoreOrder(es, priority)[..n] == first;
  }

  function PathsOf(es: seq<ManifestEntry>, order: seq<nat>): (r: seq<string>)
    requires forall i :: i in order ==> i < |es|
    ensures |r| == |order| && forall a :: 0 <= a < |r| ==> order[a] in order && r[a] == es[order[a]].path
  {
    seq(|order|, a requires 0 <= a < |order| => assert order[a] in order; es[order[a]].path)
  }

  // ---- the passes, turn by turn -----------------------------------------------------------

  /** One entry's turn in one of the passes. */
  datatype Turn = MakeDir(k: nat) | PutLeaf(k: nat) | SetMode(k: nat)

  /** What every path shows. */
  type Shape = Path -> View

  function Tree(nodes: Nodes, root: Ino): Shape {
    q => At(nodes, root, q)
  }

  /** The tree with every directory down to `p`. */
  function WithDirs(v: Shape, p: Path): Shape {
    q => if q <= p && !v(q).IsDir? then IsDir(NEW_DIR_MODE) else v(q)
  }

  /** The tree with `w` at `p` and every directory above it. */
  function With(v: Shape, p: Path, w: View): Shape {
    q => if q == p then w else if q < p && !v(q).IsDir? then IsDir(NEW_DIR_MODE) else v(q)
  }

  /** What a turn makes of the tree; nothing if it cannot be taken. */
  ghost function After(v: Shape, t: Turn, chunks: Chunks, es: seq<ManifestEntry>): Option<Shape> {
    if t.k >= |es| || !ValidEntry(es[t.k]) then None
    else
      var e, p := es[t.k], Comps(es[t.k]);
      match t
      case MakeDir(_) => Some(WithDirs(v, p))
      case PutLeaf(_) => if Readable(chunks, e) && forall n :: v(p + [n]).Absent? then Some(With(v, p, Wanted(chunks, e))) else None
      case SetMode(_) => if v(p).IsDir? then Some(q => if q == p then IsDir(PermBits(e.mode)) else v(q)) else None
  }

  ghost function Play(v: Shape, turns: seq<Turn>, chunks: Chunks, es: seq<ManifestEntry>): Option<Shape> {
    if turns == [] then Some(v)
    else
      var w := Play(v, turns[..|turns| - 1], chunks, es);
      if w.None? then None else After(w.value, turns[|turns| - 1], chunks, es)
  }

  /** All turns of a restore: directories, files, links, and the directory modes deepest first. */
  function Turns(es: seq<ManifestEntry>, priority: seq<string>): seq<Turn> {
    DirTurns(es, |es|) + FileTurns(RestoreOrder(es, priority)) + LinkTurns(es, |es|) + ModeTurns(DeepestFirst(es, |es|))
  }

  function DirTurns(es: seq<ManifestEntry>, n: nat): seq<Turn>
    requires n <= |es|
  {
    if n == 0 then [] else DirTurns(es, n - 1) + if es[n - 1].kind == DirKind then [MakeDir(n - 1)] else []
  }

  function FileTurns(order: seq<nat>): (turns: seq<Turn>)
    ensures |turns| == |order| && forall a :: 0 <= a < |order| ==> turns[a] == PutLeaf(order[a])
  {
    seq(|order|, a requires 0 <= a < |order| => PutLeaf(order[a]))
  }

  function LinkTurns(es: seq<ManifestEntry>, n: nat): seq<Turn>
    requires n <= |es|
  {
    if n == 0 then [] else LinkTurns(es, n - 1) + if es[n - 1].kind == SymlinkKind then [PutLeaf(n - 1)] else []
  }

  function ModeTurns(order: seq<nat>): (turns: seq<Turn>)
    ensures |turns| == |order| && forall a :: 0 <= a < |order| ==> turns[a] == SetMode(order[a])
  {
    seq(|order|, a requires 0 <= a < |order| => SetMode(order[a]))
  }

  /** The tree shows exactly what the turns make of it. */
  ghost predicate Played(start: Nodes, now: Nodes, root: Ino, chunks: Chunks, es: seq<ManifestEntry>, turns: seq<Turn>) {
    var v := Play(Tree(start, root), turns, chunks, es);
    v.Some? && forall q :: At(now, root, q) == v.value(q)
  }

  /** Some turn cannot be taken, and the tree shows exactly what those before it make of it. */
  ghost predicate Stopped(start: Nodes, now: Nodes, root: Ino, chunks: Chunks, es: seq<ManifestEntry>, turns: seq<Turn>, why: Error) {
    exists a :: 0 <= a < |turns| && Played(start, now, root, chunks, es, turns[..a]) && Stuck(start, root, chunks, es, turns[..a], turns[a], why)
  }

  /** After the turns `done` the next cannot be taken, for this reason. */
  ghost predicate Stuck(start: Nodes, root: Ino, chunks: Chunks, es: seq<ManifestEntry>, done: seq<Turn>, t: Turn, why: Error) {
    var v := Play(Tree(start, root), done, chunks, es);
    v.Some? && After(v.value, t, chunks, es).None? && t.k < |es| && ValidEntry(es[t.k]) && why == Refusal(v.value, t, chunks, es[t.k])
  }

  /** Why a turn cannot be taken: contents that cannot be had, a link without a target, a directory
      that holds something in a leaf's place; for a mode, nothing there or no directory there. */
  ghost function Refusal(v: Shape, t: Turn, chunks: Chunks, e: ManifestEntry): Error
    requires ValidEntry(e)
  {
    if t.SetMode? then
      if exists k :: 0 <= k < |Comps(e)| && v(Comps(e)[..k]).IsDir? && v(Comps(e)[..k + 1]).Absent? then Io(NOENT) else UnsafePath(NotADirectory)
    else LeafRefusal(chunks, e)
  }

  function LeafRefusal(chunks: Chunks, e: ManifestEntry): Error {
    if e.kind == FileKind && FileContent(chunks, e).Err? then FileContent(chunks, e).error
    else if e.kind == SymlinkKind && e.symlinkTarget.None? then InvalidManifest
    else Io(NOTEMPTY)
  }

  lemma PlayOne(v: Shape, turns: seq<Turn>, t: Turn, chunks: Chunks, es: seq<ManifestEntry>)
    ensures Play(v, turns + [t], chunks, es) == match Play(v, turns, chunks, es) case None => None case Some(w) => After(w, t, chunks, es)
  {
    assert (turns + [t])[..|turns|] == turns;
  }

  lemma NothingPlayed(start: Nodes, root: Ino, chunks: Chunks, es: seq<ManifestEntry>)
    ensures Played(start, start, root, chunks, es, [])
  {
  }

  lemma DirTurn(start: Nodes, a: Nodes, b: Nodes, root: Ino, chunks: Chunks, es: seq<ManifestEntry>, turns: seq<Turn>, k: nat)
    requires k < |es| && ValidEntry(es[k]) && Played(start, a, root, chunks, es, turns) && Opened(a, b, root, Comps(es[k]))
    ensures Played(start, b, root, chunks, es, turns + [MakeDir(k)])
  {
    hide At, ValidEntry;
    PlayOne(Tree(start, root), turns, MakeDir(k), chunks, es);
  }

  lemma LeafTurn(start: Nodes, a: Nodes, b: Nodes, root: Ino, chunks: Chunks, es: seq<ManifestEntry>, turns: seq<Turn>, k: nat)
    requires k < |es| && Placeable(a, root, chunks, es[k]) && Played(start, a, root, chunks, es, turns)
    requires Placed(a, b, root, Comps(es[k]), Wanted(chunks, es[k]))
    ensures Played(start, b, root, chunks, es, turns + [PutLeaf(k)])
  {
    hide At, Wanted;
    PlayOne(Tree(start, root), turns, PutLeaf(k), chunks, es);
  }

  /** A directory that holds something has all its directories above it already. */
  lemma NothingToOpen(a: Nodes, b: Nodes, root: Ino, p: Path)
    requires Rooted(a, root) && Occupied(a, root, p) && p != [] && Opened(a, b, root, p[..|p| - 1])
    ensures forall q :: At(b, root, q) == At(a, root, q)
  {
    var n :| !At(a, root, p + [n]).Absent?;
    hide Rooted;
    forall q | q <= p[..|p| - 1] ensures At(a, root, q).IsDir? {
      assert q < p + [n];
      WalkAbove(a, root, p + [n], q);
    }
  }

  lemma LeafStuck(start: Nodes, a: Nodes, b: Nodes, root: Ino, chunks: Chunks, es: seq<ManifestEntry>, turns: seq<Turn>, k: nat, why: Error)
    requires k < |es| && ValidEntry(es[k]) && es[k].kind != DirKind && !Placeable(a, root, chunks, es[k])
    requires Rooted(a, root) && Played(start, a, root, chunks, es, turns)
    requires a == b || (Readable(chunks, es[k]) && Opened(a, b, root, Comps(es[k])[..|Comps(es[k])| - 1]))
    requires why == LeafRefusal(chunks, es[k])
    ensures Stopped(start, b, root, chunks, es, turns + [PutLeaf(k)], why)
  {
    hide Stopped, Play, LeafRefusal, Wanted, At, Rooted;
    if a != b { NothingToOpen(a, b, root, Comps(es[k])); }
    hide Readable, Opened, ValidEntry;
    StoppedHere(start, b, root, chunks, es, turns, PutLeaf(k), why);
  }

  lemma StoppedHere(start: Nodes, now: Nodes, root: Ino, chunks: Chunks, es: seq<ManifestEntry>, turns: seq<Turn>, t: Turn, why: Error)
    requires Played(start, now, root, chunks, es, turns) && Stuck(start, root, chunks, es, turns, t, why)
    ensures Stopped(start, now, root, chunks, es, turns + [t], why)
  {
    hide Played, Stuck;
    assert (turns + [t])[..|turns|] == turns && (turns + [t])[|turns|] == t;
  }

  lemma StoppedStays(start: Nodes, now: Nodes, root: Ino, chunks: Chunks, es: seq<ManifestEntry>, turns: seq<Turn>, all: seq<Turn>, why: Error)
    requires Stopped(start, now, root, chunks, es, turns, why) && turns <= all
    ensures Stopped(start, now, root, chunks, es, all, why)
  {
    hide Played, Stuck;
    var a :| 0 <= a < |turns| && Played(start, now, root, chunks, es, turns[..a]) && Stuck(start, root, chunks, es, turns[..a], turns[a], why);
    assert all[..a] == turns[..a] && all[a] == turns[a];
  }

  lemma ModeTurn(start: Nodes, a: Nodes, b: Nodes, root: Ino, chunks: Chunks, es: seq<ManifestEntry>, turns: seq<Turn>, k: nat, why: Error)
    requires k < |es| && ValidEntry(es[k]) && Played(start, a, root, chunks, es, turns)
    requires if At(a, root, Comps(es[k])).IsDir?
      then forall q :: At(b, root, q) == if q == Comps(es[k]) then IsDir(PermBits(es[k].mode)) else At(a, root, q)
      else a == b && why == if Missing(a, root, Comps(es[k])) then Io(NOENT) else UnsafePath(NotADirectory)
    ensures if At(a, root, Comps(es[k])).IsDir? then Played(start, b, root, chunks, es, turns + [SetMode(k)])
      else Stopped(start, b, root, chunks, es, turns + [SetMode(k)], why)
  {
    hide At, LexicalComponents;
    PlayOne(Tree(start, root), turns, SetMode(k), chunks, es);
    if !At(a, root, Comps(es[k])).IsDir? { StoppedHere(start, b, root, chunks, es, turns, SetMode(k), why); }
  }

  /** Once stopped, the turns lead nowhere. */
  lemma {:induction false} StoppedIsNone(v: Shape, turns: seq<Turn>, a: nat, chunks: Chunks, es: seq<ManifestEntry>)
    requires a <= |turns| && Play(v, turns[..a], chunks, es).None?
    ensures Play(v, turns, chunks, es).None?
    decreases |turns|
  {
    if a == |turns| {
      assert turns[..a] == turns;
    } else {
      assert turns[..|turns| - 1][..a] == turns[..a];
      StoppedIsNone(v, turns[..|turns| - 1], a, chunks, es);
    }
  }

  // ---- sizes ---------------------------------------------------------------------------------

  lemma {:induction false} TotalLenSplit(refs: seq<ChunkRef>, k: nat)
    requires k <= |refs|
    ensures TotalLen(refs) == TotalLen(refs[..k]) + TotalLen(refs[k..])
    decreases k
  {
    if k == 0 {
      assert refs[0..] == refs;
    } else {
      TotalLenSplit(refs[1..], k - 1);
      assert refs[..k][1..] == refs[1..][..k - 1] && refs[k..] == refs[1..][k - 1..];
    }
  }

  /** The declared size is the true sum of the chunk lengths: no wrap-around can agree. */
  method CheckDeclaredSize(e: ManifestEntry) returns (r: Result<(), Error>)
    ensures r == if TotalLen(e.chunks) == e.size then Ok(()) else Err(InvalidManifest)
  {
    var sum: u64 := 0;
    for k := 0 to |e.chunks|
      invariant sum == TotalLen(e.chunks[..k])
    {
      TotalLenSplit(e.chunks, k + 1);
      TotalLenSplit(e.chunks[..k + 1], k);
      assert e.chunks[..k + 1][..k] == e.chunks[..k] && e.chunks[..k + 1][k..] == [e.chunks[k]];
      assert TotalLen([e.chunks[k]]) == e.chunks[k].len;
      if sum + e.chunks[k].len >= 0x1_0000_0000_0000_0000 { return Err(InvalidManifest); }
      sum := sum + e.chunks[k].len;
    }
    assert e.chunks[..|e.chunks|] == e.chunks;
    return if sum == e.size then Ok(()) else Err(InvalidManifest);
  }

  function Prepend(b: seq<byte>, r: Result<seq<byte>, Error>): Result<seq<byte>, Error> {
    if r.Ok? then Ok(b + r.value) else r
  }

  /** Reassemble a file from its chunks, each verified on read. */
  method Reassemble(store: ChunkStore, e: ManifestEntry) returns (r: Result<seq<byte>, Error>)
    ensures r == FileContent(store.chunks, e)
  {
    var sized := CheckDeclaredSize(e);
    if sized.Err? { return Err(sized.error); }
    var content: seq<byte> := [];
    assert e.chunks[0..] == e.chunks;
    PrependNothing(Content(store.chunks, e.chunks));
    for k := 0 to |e.chunks|
      invariant Content(store.chunks, e.chunks) == Prepend(content, Content(store.chunks, e.chunks[k..]))
    {
      var got := store.GetChunk(e.chunks[k].chunk);
      assert e.chunks[k..][1..] == e.chunks[k + 1..];
      if got.Err? { return got; }
      if |got.value| != e.chunks[k].len { return Err(InvalidManifest); }
      PrependTwice(content, got.value, Content(store.chunks, e.chunks[k + 1..]));
      content := content + got.value;
    }
    assert e.chunks[|e.chunks|..] == [];
    assert content + [] == content;
    assert |content| == e.size;
    return Ok(content);
  }

  lemma PrependTwice(a: seq<byte>, b: seq<byte>, r: Result<seq<byte>, Error>)
    ensures Prepend(a, Prepend(b, r)) == Prepend(a + b, r)
  {
    if r.Ok? { assert a + (b + r.value) == a + b + r.value; }
  }

  lemma PrependNothing(r: Result<seq<byte>, Error>)
    ensures Prepend([], r) == r
  {
    if r.Ok? { assert [] + r.value == r.value; }
  }

  // ---- the passes -------------------------------------------------------------------------------

  datatype RestoreStats = RestoreStats(files: nat, dirs: nat, symlinks: nat, bytes: nat, fileOrder: seq<string>)

  /** Create the file, write it, and set its mode whether it was created or reused. */
  method WriteFile(store: ChunkStore, e: ManifestEntry, rootfs: RootDir) returns (r: Result<(), Error>)
    requires rootfs.Valid() && LexicalComponents(e.path).Some? && e.kind == FileKind
    modifies rootfs, rootfs.fs
    ensures rootfs.Valid() && Quiet(old(rootfs.fs.nodes), rootfs.fs.nodes, rootfs.root)
    ensures r.Ok? <==> FileContent(store.chunks, e).Ok? && Comps(e) != [] && !Occupied(old(rootfs.fs.nodes), rootfs.root, Comps(e))
    ensures r.Ok? ==> Placed(old(rootfs.fs.nodes), rootfs.fs.nodes, rootfs.root, Comps(e),
                             IsFile(FileContent(store.chunks, e).value, PermBits(e.mode)))
    ensures r.Err? && Comps(e) != [] ==> r.error == LeafRefusal(store.chunks, e)
    ensures r.Err? && rootfs.fs.nodes != old(rootfs.fs.nodes) ==>
      FileContent(store.chunks, e).Ok? && Comps(e) != [] && Opened(old(rootfs.fs.nodes), rootfs.fs.nodes, rootfs.root, Comps(e)[..|Comps(e)| - 1])
  {
    QuietItself(rootfs.fs.nodes, rootfs.root);
    var content := Reassemble(store, e);
    if content.Err? { return Err(content.error); }
    ComponentsAreValid(e.path);
    var made := rootfs.CreateFile(Comps(e), e.mode);
    if made.Err? { return Err(made.error); }
    WriteThrough(rootfs, Comps(e), made.value, content.value, rootfs.fs.nodes[made.value].mode);
    WriteThrough(rootfs, Comps(e), made.value, content.value, PermBits(e.mode));
    return Ok(());
  }

  /** write or fchmod on the open descriptor of a file whose only name is `p` */
  method WriteThrough(rootfs: RootDir, p: Path, x: Ino, content: seq<byte>, mode: nat)
    requires rootfs.Valid() && mode < 0x1000
    requires Walk(rootfs.fs.nodes, rootfs.root, p) == Some(x) && x in rootfs.fs.nodes && rootfs.fs.nodes[x].File?
    requires LinkCount(rootfs.fs.nodes, x) <= 1
    modifies rootfs.fs
    ensures rootfs.Valid() && Quiet(old(rootfs.fs.nodes), rootfs.fs.nodes, rootfs.root)
    ensures Walk(rootfs.fs.nodes, rootfs.root, p) == Some(x) && x in rootfs.fs.nodes && rootfs.fs.nodes[x].File?
    ensures LinkCount(rootfs.fs.nodes, x) <= 1
    ensures forall q :: At(rootfs.fs.nodes, rootfs.root, q) == if q == p then IsFile(content, mode) else At(old(rootfs.fs.nodes), rootfs.root, q)
  {
    ghost var before := rootfs.fs.nodes;
    rootfs.fs.Rewrite(x, File(content, mode));
    RewriteEffect(before, rootfs.root, p, x, File(content, mode));
    CoherentKept(before, rootfs.fs.nodes, rootfs.root, rootfs.stack);
  }

  /** The entries of one kind. */
  ghost function OfKind(es: seq<ManifestEntry>, kind: EntryKind, n: nat): (r: set<nat>)
    requires n <= |es|
    ensures forall i: nat :: i in r <==> i < n && es[i].kind == kind
  {
    if n == 0 then {}
    else if es[n - 1].kind == kind then OfKind(es, kind, n - 1) + {n - 1}
    else OfKind(es, kind, n - 1)
  }

  function CountKind(es: seq<ManifestEntry>, kind: EntryKind, n: nat): nat
    requires n <= |es|
  {
    if n == 0 then 0 else CountKind(es, kind, n - 1) + if es[n - 1].kind == kind then 1 else 0
  }

  lemma KindZero(es: seq<ManifestEntry>, kind: EntryKind, done: set<nat>)
    ensures done + OfKind(es, kind, 0) == done && CountKind(es, kind, 0) == 0
  {
  }

  lemma KindStep(es: seq<ManifestEntry>, kind: EntryKind, n: nat)
    requires n < |es|
    ensures OfKind(es, kind, n + 1) == if es[n].kind == kind then OfKind(es, kind, n) + {n} else OfKind(es, kind, n)
    ensures CountKind(es, kind, n + 1) == CountKind(es, kind, n) + if es[n].kind == kind then 1 else 0
  {
  }

  lemma AddLast(a: set<nat>, b: set<nat>, k: nat)
    ensures a + b + {k} == a + (b + {k})
  {
  }

  lemma DirTurnsStep(es: seq<ManifestEntry>, k: nat)
    requires k < |es|
    ensures DirTurns(es, k + 1) == if es[k].kind == DirKind then DirTurns(es, k) + [MakeDir(k)] else DirTurns(es, k)
  {
    assert DirTurns(es, k) + [] == DirTurns(es, k);
  }

  lemma LinkTurnsStep(es: seq<ManifestEntry>, turns: seq<Turn>, k: nat)
    requires k < |es|
    ensures turns + LinkTurns(es, k + 1) ==
      if es[k].kind == SymlinkKind then turns + LinkTurns(es, k) + [PutLeaf(k)] else turns + LinkTurns(es, k)
  {
    assert LinkTurns(es, k) + [] == LinkTurns(es, k);
  }

  lemma ModeTurnsStep(turns: seq<Turn>, order: seq<nat>, a: nat)
    requires a < |order|
    ensures turns + ModeTurns(order[..a + 1]) == turns + ModeTurns(order[..a]) + [SetMode(order[a])]
    ensures turns + ModeTurns(order[..a + 1]) <= turns + ModeTurns(order)
  {
    assert ModeTurns(order[..a + 1]) == ModeTurns(order[..a]) + [SetMode(order[a])];
    assert ModeTurns(order[..a + 1]) == ModeTurns(order)[..a + 1];
  }

  lemma NothingDoneYet(start: Nodes, root: Ino, chunks: Chunks, es: seq<ManifestEntry>)
    ensures Midway(start, start, root, chunks, es, OfKind(es, DirKind, 0))
  {
  }

  method MakeNth(es: seq<ManifestEntry>, rootfs: RootDir, k: nat, ghost start: Nodes, ghost chunks: Chunks, ghost done: set<nat>, ghost turns: seq<Turn>)
    requires rootfs.Valid() && k < |es| && es[k].kind == DirKind && ValidEntry(es[k])
    requires TreeShaped(es) ==> Midway(start, rootfs.fs.nodes, rootfs.root, chunks, es, done)
    requires Played(start, rootfs.fs.nodes, rootfs.root, chunks, es, turns)
    modifies rootfs, rootfs.fs
    ensures rootfs.Valid() && Contained(old(rootfs.fs.nodes), rootfs.fs.nodes, rootfs.root, es)
    ensures TreeShaped(es) ==> Midway(start, rootfs.fs.nodes, rootfs.root, chunks, es, done + {k})
    ensures Played(start, rootfs.fs.nodes, rootfs.root, chunks, es, turns + [MakeDir(k)])
  {
    hide Midway, TreeShaped, Rooted, Coherent, Contained, Opened, Played, Quiet, At, Walk;
    ghost var now := rootfs.fs.nodes;
    ComponentsAreValid(es[k].path);
    var dir := rootfs.CreateDir(Comps(es[k]));
    assert dir.Ok?;
    DirTurn(start, now, rootfs.fs.nodes, rootfs.root, chunks, es, turns, k);
    OpenedIsContained(now, rootfs.fs.nodes, rootfs.root, es, k, Comps(es[k]));
    if TreeShaped(es) { DirStep(start, now, rootfs.fs.nodes, rootfs.root, chunks, es, done, k); }
  }

  /** Pass 1: directories, with every missing ancestor. Modes come last. */
  method MakeDirs(es: seq<ManifestEntry>, rootfs: RootDir, ghost chunks: Chunks) returns (r: Result<nat, Error>)
    requires rootfs.Valid() && AllValid(es)
    modifies rootfs, rootfs.fs
    ensures rootfs.Valid() && Contained(old(rootfs.fs.nodes), rootfs.fs.nodes, rootfs.root, es)
    ensures r == Ok(CountKind(es, DirKind, |es|))
    ensures TreeShaped(es) ==> Midway(old(rootfs.fs.nodes), rootfs.fs.nodes, rootfs.root, chunks, es, OfKind(es, DirKind, |es|))
    ensures Played(old(rootfs.fs.nodes), rootfs.fs.nodes, rootfs.root, chunks, es, DirTurns(es, |es|))
  {
    hide Midway, TreeShaped, Rooted, Coherent, Contained, OfKind, CountKind, Played, ValidEntry;
    assert DirTurns(es, 0) == [];
    hide DirTurns;
    NothingPlayed(rootfs.fs.nodes, rootfs.root, chunks, es);
    ghost var before := rootfs.fs.nodes;
    var made := 0;
    KindZero(es, DirKind, {});
    NothingDoneYet(before, rootfs.root, chunks, es);
    ContainedItself(before, rootfs.root, es);
    for k := 0 to |es|
      invariant rootfs.Valid() && Contained(before, rootfs.fs.nodes, rootfs.root, es)
      invariant made == CountKind(es, DirKind, k)
      invariant TreeShaped(es) ==> Midway(before, rootfs.fs.nodes, rootfs.root, chunks, es, OfKind(es, DirKind, k))
      invariant Played(before, rootfs.fs.nodes, rootfs.root, chunks, es, DirTurns(es, k))
    {
      ghost var now := rootfs.fs.nodes;
      KindStep(es, DirKind, k);
      DirTurnsStep(es, k);
      if es[k].kind == DirKind {
        MakeNth(es, rootfs, k, before, chunks, OfKind(es, DirKind, k), DirTurns(es, k));
        made := made + 1;
        ContainedTransitive(before, now, rootfs.fs.nodes, rootfs.root, es);
      }
    }
    return Ok(made);
  }

  /** A leaf that can be placed: its contents can be had and nothing blocks it. */
  ghost predicate Placeable(nodes: Nodes, root: Ino, chunks: Chunks, e: ManifestEntry) {
    Readable(chunks, e) && !Occupied(nodes, root, Comps(e))
  }

  method WriteNth(store: ChunkStore, es: seq<ManifestEntry>, rootfs: RootDir, k: nat, ghost start: Nodes, ghost done: set<nat>, ghost turns: seq<Turn>)
      returns (r: Result<(), Error>)
    requires rootfs.Valid() && k < |es| && es[k].kind == FileKind && ValidEntry(es[k])
    requires TreeShaped(es) ==> Midway(start, rootfs.fs.nodes, rootfs.root, store.chunks, es, done)
    requires Played(start, rootfs.fs.nodes, rootfs.root, store.chunks, es, turns)
    modifies rootfs, rootfs.fs
    ensures rootfs.Valid() && Contained(old(rootfs.fs.nodes), rootfs.fs.nodes, rootfs.root, es)
    ensures TreeShaped(es) ==> (r.Ok? <==> Placeable(start, rootfs.root, store.chunks, es[k]))
    ensures TreeShaped(es) && r.Ok? ==> Midway(start, rootfs.fs.nodes, rootfs.root, store.chunks, es, done + {k})
    ensures if r.Ok? then Played(start, rootfs.fs.nodes, rootfs.root, store.chunks, es, turns + [PutLeaf(k)])
      else Stopped(start, rootfs.fs.nodes, rootfs.root, store.chunks, es, turns + [PutLeaf(k)], r.error)
  {
    hide Midway, TreeShaped, Contained, Quiet, Rooted, Coherent, At, Walk, Occupied, Opened, Played, Stopped;
    ghost var now := rootfs.fs.nodes;
    if TreeShaped(es) { LeafStillOccupied(start, now, rootfs.root, store.chunks, es, done, k); }
    r := WriteFile(store, es[k], rootfs);
    if r.Ok? {
      LeafTurn(start, now, rootfs.fs.nodes, rootfs.root, store.chunks, es, turns, k);
    } else {
      LeafStuck(start, now, rootfs.fs.nodes, rootfs.root, store.chunks, es, turns, k, r.error);
    }
    LeafIsContained(now, rootfs.fs.nodes, rootfs.root, es, k);
    if TreeShaped(es) && r.Ok? { LeafStep(start, now, rootfs.fs.nodes, rootfs.root, store.chunks, es, done, k); }
  }

  /** The declared sizes of the files in `order`, added up. */
  function BytesOf(es: seq<ManifestEntry>, order: seq<nat>): nat {
    if order == [] then 0
    else
      var last := order[|order| - 1];
      BytesOf(es, order[..|order| - 1]) + if last < |es| then es[last].size else 0
  }

  function CountFile(stats: RestoreStats, e: ManifestEntry): RestoreStats {
    stats.(files := stats.files + 1, bytes := stats.bytes + e.size, fileOrder := stats.fileOrder + [e.path])
  }

  ghost predicate Counts(stats: RestoreStats, es: seq<ManifestEntry>, order: seq<nat>)
    requires forall i :: i in order ==> i < |es|
  {
    stats.files == |order| && stats.bytes == BytesOf(es, order) && stats.fileOrder == PathsOf(es, order)
  }

  lemma CountsOneMore(stats: RestoreStats, es: seq<ManifestEntry>, order: seq<nat>, k: nat)
    requires forall i :: i in order ==> i < |es|
    requires k < |es| && Counts(stats, es, order)
    ensures Counts(CountFile(stats, es[k]), es, order + [k])
  {
    assert (order + [k])[..|order|] == order;
    assert PathsOf(es, order + [k]) == PathsOf(es, order) + [es[k].path];
  }

  ghost function AsSet(order: seq<nat>): set<nat> {
    set i | i in order
  }

  lemma AsSetGrows(order: seq<nat>, k: nat)
    ensures AsSet(order + [k]) == AsSet(order) + {k}
  {
  }

  /** The files in `order` are written and counted. */
  ghost predicate Written(start: Nodes, now: Nodes, root: Ino, chunks: Chunks, es: seq<ManifestEntry>, order: seq<nat>, stats: RestoreStats) {
    && (forall i :: i in order ==> i < |es| && es[i].kind == FileKind)
    && Counts(stats, es, order)
    && (TreeShaped(es) ==> Midway(start, now, root, chunks, es, OfKind(es, DirKind, |es|) + AsSet(order)))
    && (TreeShaped(es) ==> forall i :: i in order ==> Placeable(start, root, chunks, es[i]))
    && Played(start, now, root, chunks, es, DirTurns(es, |es|) + FileTurns(order))
  }

  lemma FileTurnsMore(es: seq<ManifestEntry>, order: seq<nat>, k: nat)
    ensures DirTurns(es, |es|) + FileTurns(order) + [PutLeaf(k)] == DirTurns(es, |es|) + FileTurns(order + [k])
  {
    hide DirTurns;
    assert FileTurns(order + [k]) == FileTurns(order) + [PutLeaf(k)];
  }

  lemma FileTurnsPrefix(es: seq<ManifestEntry>, order: seq<nat>, more: seq<nat>)
    requires order <= more
    ensures DirTurns(es, |es|) + FileTurns(order) <= DirTurns(es, |es|) + FileTurns(more)
  {
    assert FileTurns(order) == FileTurns(more)[..|order|];
  }

  method WriteNext(store: ChunkStore, es: seq<ManifestEntry>, rootfs: RootDir, k: nat, stats: RestoreStats, ghost start: Nodes, ghost order: seq<nat>)
      returns (r: Result<RestoreStats, Error>)
    requires rootfs.Valid() && k < |es| && es[k].kind == FileKind && ValidEntry(es[k])
    requires Written(start, rootfs.fs.nodes, rootfs.root, store.chunks, es, order, stats)
    modifies rootfs, rootfs.fs
    ensures rootfs.Valid() && Contained(old(rootfs.fs.nodes), rootfs.fs.nodes, rootfs.root, es)
    ensures r.Ok? ==> r.value == CountFile(stats, es[k])
    ensures r.Ok? ==> Written(start, rootfs.fs.nodes, rootfs.root, store.chunks, es, order + [k], r.value)
    ensures TreeShaped(es) ==> (r.Ok? <==> Placeable(start, rootfs.root, store.chunks, es[k]))
    ensures r.Err? ==> Stopped(start, rootfs.fs.nodes, rootfs.root, store.chunks, es, DirTurns(es, |es|) + FileTurns(order + [k]), r.error)
  {
    hide Played, Stopped, Midway, Rooted, Coherent, Contained, TreeShaped;
    ghost var done := OfKind(es, DirKind, |es|) + AsSet(order);
    FileTurnsMore(es, order, k);
    var w := WriteNth(store, es, rootfs, k, start, done, DirTurns(es, |es|) + FileTurns(order));
    if w.Err? { return Err(w.error); }
    CountsOneMore(stats, es, order, k);
    AsSetGrows(order, k);
    assert done + {k} == OfKind(es, DirKind, |es|) + AsSet(order + [k]);
    return Ok(CountFile(stats, es[k]));
  }

  method WriteRequested(store: ChunkStore, es: seq<ManifestEntry>, rootfs: RootDir, priority: seq<string>, stats: RestoreStats, ghost start: Nodes)
      returns (r: Result<RestoreStats, Error>, done: set<nat>)
    requires rootfs.Valid() && AllValid(es)
    requires Written(start, rootfs.fs.nodes, rootfs.root, store.chunks, es, [], stats)
    modifies rootfs, rootfs.fs
    ensures rootfs.Valid() && Contained(old(rootfs.fs.nodes), rootfs.fs.nodes, rootfs.root, es)
    ensures r.Ok? ==> Written(start, rootfs.fs.nodes, rootfs.root, store.chunks, es, PriorityOrder(IndexOf(es), priority), r.value)
    ensures r.Ok? ==> done == AsSet(PriorityOrder(IndexOf(es), priority)) && r.value.dirs == stats.dirs
    ensures r.Err? && TreeShaped(es) ==> exists i :: 0 <= i < |es| && es[i].kind == FileKind && !Placeable(start, rootfs.root, store.chunks, es[i])
    ensures r.Err? ==> Stopped(start, rootfs.fs.nodes, rootfs.root, store.chunks, es, DirTurns(es, |es|) + FileTurns(PriorityOrder(IndexOf(es), priority)), r.error)
  {
    hide Midway, TreeShaped, Rooted, Coherent, Contained, Placeable, Counts, Played, Stopped;
    ghost var before, order := rootfs.fs.nodes, [];
    ContainedItself(before, rootfs.root, es);
    var tally := stats;
    done := {};
    var index := IndexOf(es);
    for k := 0 to |priority|
      invariant rootfs.Valid() && Contained(before, rootfs.fs.nodes, rootfs.root, es)
      invariant order == PriorityOrder(index, priority[..k]) && done == AsSet(order)
      invariant Written(start, rootfs.fs.nodes, rootfs.root, store.chunks, es, order, tally) && tally.dirs == stats.dirs
    {
      PriorityStep(index, priority, k);
      if priority[k] in index && index[priority[k]] !in done {
        var i := index[priority[k]];
        ghost var now := rootfs.fs.nodes;
        var w := WriteNext(store, es, rootfs, i, tally, start, order);
        ContainedTransitive(before, now, rootfs.fs.nodes, rootfs.root, es);
        if w.Err? {
          PriorityOrderGrows(index, priority, k + 1);
          FileTurnsPrefix(es, order + [i], PriorityOrder(index, priority));
          StoppedStays(start, rootfs.fs.nodes, rootfs.root, store.chunks, es, DirTurns(es, |es|) + FileTurns(order + [i]),
                       DirTurns(es, |es|) + FileTurns(PriorityOrder(index, priority)), w.error);
          return Err(w.error), done;
        }
        AsSetGrows(order, i);
        done, tally, order := done + {i}, w.value, order + [i];
      }
    }
    assert priority[..|priority|] == priority;
    return Ok(tally), done;
  }

  lemma {:induction false} RestGrows(es: seq<ManifestEntry>, first: seq<nat>, k: nat, n: nat)
    requires k <= n <= |es|
    requires forall i :: i in first ==> i < |es| && es[i].kind == FileKind
    requires forall a, b :: 0 <= a < b < |first| ==> first[a] != first[b]
    ensures ThenTheRest(es, first, k) <= ThenTheRest(es, first, n)
    decreases n
  {
    if k < n { RestGrows(es, first, k, n - 1); }
  }

  method WriteOthers(store: ChunkStore, es: seq<ManifestEntry>, rootfs: RootDir, before: set<nat>, stats: RestoreStats, ghost start: Nodes, ghost first: seq<nat>)
      returns (r: Result<RestoreStats, Error>)
    requires rootfs.Valid() && AllValid(es)
    requires Written(start, rootfs.fs.nodes, rootfs.root, store.chunks, es, first, stats) && before == AsSet(first)
    requires forall a, b :: 0 <= a < b < |first| ==> first[a] != first[b]
    modifies rootfs, rootfs.fs
    ensures rootfs.Valid() && Contained(old(rootfs.fs.nodes), rootfs.fs.nodes, rootfs.root, es)
    ensures r.Ok? ==> Written(start, rootfs.fs.nodes, rootfs.root, store.chunks, es, ThenTheRest(es, first, |es|), r.value)
    ensures r.Ok? ==> r.value.dirs == stats.dirs
    ensures r.Err? && TreeShaped(es) ==> exists i :: 0 <= i < |es| && es[i].kind == FileKind && !Placeable(start, rootfs.root, store.chunks, es[i])
    ensures r.Err? ==> Stopped(start, rootfs.fs.nodes, rootfs.root, store.chunks, es, DirTurns(es, |es|) + FileTurns(ThenTheRest(es, first, |es|)), r.error)
  {
    hide Midway, TreeShaped, Rooted, Coherent, Contained, Placeable, Counts, Played, Stopped;
    ghost var entry, order := rootfs.fs.nodes, first;
    ContainedItself(entry, rootfs.root, es);
    var tally, done := stats, before;
    for i := 0 to |es|
      invariant rootfs.Valid() && Contained(entry, rootfs.fs.nodes, rootfs.root, es)
      invariant order == ThenTheRest(es, first, i) && done == AsSet(order)
      invariant Written(start, rootfs.fs.nodes, rootfs.root, store.chunks, es, order, tally) && tally.dirs == stats.dirs
    {
      if es[i].kind == FileKind && i !in done {
        ghost var now := rootfs.fs.nodes;
        var w := WriteNext(store, es, rootfs, i, tally, start, order);
        ContainedTransitive(entry, now, rootfs.fs.nodes, rootfs.root, es);
        if w.Err? {
          RestGrows(es, first, i + 1, |es|);
          FileTurnsPrefix(es, order + [i], ThenTheRest(es, first, |es|));
          StoppedStays(start, rootfs.fs.nodes, rootfs.root, store.chunks, es, DirTurns(es, |es|) + FileTurns(order + [i]),
                       DirTurns(es, |es|) + FileTurns(ThenTheRest(es, first, |es|)), w.error);
          return Err(w.error);
        }
        AsSetGrows(order, i);
        done, tally, order := done + {i}, w.value, order + [i];
      }
    }
    return Ok(tally);
  }

  /** Pass 2: files, the requested ones first. */
  method WriteFiles(store: ChunkStore, es: seq<ManifestEntry>, rootfs: RootDir, priority: seq<string>, stats: RestoreStats, ghost start: Nodes)
      returns (r: Result<RestoreStats, Error>)
    requires rootfs.Valid() && AllValid(es)
    requires Written(start, rootfs.fs.nodes, rootfs.root, store.chunks, es, [], stats)
    modifies rootfs, rootfs.fs
    ensures rootfs.Valid() && Contained(old(rootfs.fs.nodes), rootfs.fs.nodes, rootfs.root, es)
    ensures r.Ok? ==> Written(start, rootfs.fs.nodes, rootfs.root, store.chunks, es, RestoreOrder(es, priority), r.value)
    ensures r.Ok? ==> AsSet(RestoreOrder(es, priority)) == OfKind(es, FileKind, |es|) && r.value.dirs == stats.dirs
    ensures TreeShaped(es) ==>
      (r.Ok? <==> forall i :: 0 <= i < |es| && es[i].kind == FileKind ==> Placeable(start, rootfs.root, store.chunks, es[i]))
    ensures r.Err? ==> Stopped(start, rootfs.fs.nodes, rootfs.root, store.chunks, es, DirTurns(es, |es|) + FileTurns(RestoreOrder(es, priority)), r.error)
  {
    hide Played, Stopped, Midway, Rooted, Coherent, Contained;
    ghost var first := PriorityOrder(IndexOf(es), priority);
    var requested, done := WriteRequested(store, es, rootfs, priority, stats, start);
    if requested.Err? {
      FileTurnsPrefix(es, first, RestoreOrder(es, priority));
      StoppedStays(start, rootfs.fs.nodes, rootfs.root, store.chunks, es, DirTurns(es, |es|) + FileTurns(first),
                   DirTurns(es, |es|) + FileTurns(RestoreOrder(es, priority)), requested.error);
      return requested;
    }
    ghost var now := rootfs.fs.nodes;
    r := WriteOthers(store, es, rootfs, done, requested.value, start, first);
    ContainedTransitive(old(rootfs.fs.nodes), now, rootfs.fs.nodes, rootfs.root, es);
    ghost var order := RestoreOrder(es, priority);
    assert AsSet(order) == OfKind(es, FileKind, |es|);
    assert forall i :: 0 <= i < |es| && es[i].kind == FileKind ==> i in order;
  }

  method LinkNth(es: seq<ManifestEntry>, rootfs: RootDir, k: nat, ghost start: Nodes, ghost chunks: Chunks, ghost done: set<nat>, ghost turns: seq<Turn>)
      returns (r: Result<(), Error>)
    requires rootfs.Valid() && k < |es| && es[k].kind == SymlinkKind && ValidEntry(es[k])
    requires TreeShaped(es) ==> Midway(start, rootfs.fs.nodes, rootfs.root, chunks, es, done)
    requires Played(start, rootfs.fs.nodes, rootfs.root, chunks, es, turns)
    modifies rootfs, rootfs.fs
    ensures rootfs.Valid() && Contained(old(rootfs.fs.nodes), rootfs.fs.nodes, rootfs.root, es)
    ensures TreeShaped(es) ==> (r.Ok? <==> Placeable(start, rootfs.root, chunks, es[k]))
    ensures TreeShaped(es) && r.Ok? ==> Midway(start, rootfs.fs.nodes, rootfs.root, chunks, es, done + {k})
    ensures if r.Ok? then Played(start, rootfs.fs.nodes, rootfs.root, chunks, es, turns + [PutLeaf(k)])
      else Stopped(start, rootfs.fs.nodes, rootfs.root, chunks, es, turns + [PutLeaf(k)], r.error)
  {
    hide Midway, TreeShaped, Contained, Quiet, Rooted, Coherent, At, Walk, Occupied, Opened, Played, Stopped, FileContent, LexicalComponents;
    ghost var now := rootfs.fs.nodes;
    if es[k].symlinkTarget.None? {
      LeafStuck(start, now, now, rootfs.root, chunks, es, turns, k, InvalidManifest);
      ContainedItself(now, rootfs.root, es);
      return Err(InvalidManifest);
    }
    if TreeShaped(es) { LeafStillOccupied(start, now, rootfs.root, chunks, es, done, k); }
    ComponentsAreValid(es[k].path);
    r := rootfs.CreateSymlink(Comps(es[k]), es[k].symlinkTarget.value);
    if r.Ok? {
      LeafTurn(start, now, rootfs.fs.nodes, rootfs.root, chunks, es, turns, k);
    } else {
      LeafStuck(start, now, rootfs.fs.nodes, rootfs.root, chunks, es, turns, k, r.error);
    }
    LeafIsContained(now, rootfs.fs.nodes, rootfs.root, es, k);
    if TreeShaped(es) && r.Ok? { LeafStep(start, now, rootfs.fs.nodes, rootfs.root, chunks, es, done, k); }
  }

  lemma {:induction false} LinkTurnsPrefix(es: seq<ManifestEntry>, turns: seq<Turn>, k: nat, n: nat)
    requires k <= n <= |es|
    ensures turns + LinkTurns(es, k) <= turns + LinkTurns(es, n)
    decreases n
  {
    if k < n { LinkTurnsPrefix(es, turns, k, n - 1); }
  }

  /** Pass 3: symlinks, after every real file exists. */
  method MakeLinks(es: seq<ManifestEntry>, rootfs: RootDir, ghost start: Nodes, ghost chunks: Chunks, ghost done: set<nat>, ghost turns: seq<Turn>)
      returns (r: Result<nat, Error>)
    requires rootfs.Valid() && AllValid(es)
    requires Played(start, rootfs.fs.nodes, rootfs.root, chunks, es, turns)
    requires TreeShaped(es) ==> Midway(start, rootfs.fs.nodes, rootfs.root, chunks, es, done)
    modifies rootfs, rootfs.fs
    ensures rootfs.Valid() && Contained(old(rootfs.fs.nodes), rootfs.fs.nodes, rootfs.root, es)
    ensures TreeShaped(es) ==>
      (r.Ok? <==> forall i :: 0 <= i < |es| && es[i].kind == SymlinkKind ==> Placeable(start, rootfs.root, chunks, es[i]))
    ensures TreeShaped(es) && r.Ok? ==> Midway(start, rootfs.fs.nodes, rootfs.root, chunks, es, done + OfKind(es, SymlinkKind, |es|))
    ensures r.Ok? ==> r.value == CountKind(es, SymlinkKind, |es|)
    ensures if r.Ok? then Played(start, rootfs.fs.nodes, rootfs.root, chunks, es, turns + LinkTurns(es, |es|))
      else Stopped(start, rootfs.fs.nodes, rootfs.root, chunks, es, turns + LinkTurns(es, |es|), r.error)
  {
    hide Midway, TreeShaped, Rooted, Coherent, Contained, Placeable, OfKind, CountKind, Played, Stopped, ValidEntry, Quiet;
    assert turns + LinkTurns(es, 0) == turns;
    hide LinkTurns;
    ghost var before := rootfs.fs.nodes;
    ContainedItself(before, rootfs.root, es);
    var made := 0;
    KindZero(es, SymlinkKind, done);
    for k := 0 to |es|
      invariant rootfs.Valid() && Contained(before, rootfs.fs.nodes, rootfs.root, es)
      invariant TreeShaped(es) ==> Midway(start, rootfs.fs.nodes, rootfs.root, chunks, es, done + OfKind(es, SymlinkKind, k))
      invariant TreeShaped(es) ==> forall i :: 0 <= i < k && es[i].kind == SymlinkKind ==> Placeable(start, rootfs.root, chunks, es[i])
      invariant made == CountKind(es, SymlinkKind, k)
      invariant Played(start, rootfs.fs.nodes, rootfs.root, chunks, es, turns + LinkTurns(es, k))
    {
      KindStep(es, SymlinkKind, k);
      LinkTurnsStep(es, turns, k);
      if es[k].kind == SymlinkKind {
        ghost var now := rootfs.fs.nodes;
        ghost var links := done + OfKind(es, SymlinkKind, k);
        var link := LinkNth(es, rootfs, k, start, chunks, links, turns + LinkTurns(es, k));
        ContainedTransitive(before, now, rootfs.fs.nodes, rootfs.root, es);
        if link.Err? {
          LinkTurnsPrefix(es, turns, k + 1, |es|);
          StoppedStays(start, rootfs.fs.nodes, rootfs.root, chunks, es, turns + LinkTurns(es, k + 1), turns + LinkTurns(es, |es|), link.error);
          return Err(link.error);
        }
        AddLast(done, OfKind(es, SymlinkKind, k), k);
        made := made + 1;
      }
    }
    return Ok(made);
  }

  // ---- directory modes, deepest first ---------------------------------------------------------

  ghost predicate DescendingPaths(es: seq<ManifestEntry>, order: seq<nat>)
  {
    forall a, b :: 0 <= a < b < |order| && order[a] < |es| && order[b] < |es| ==> !Less(es[order[a]].path, es[order[b]].path)
  }

  function InsertDescending(es: seq<ManifestEntry>, order: seq<nat>, k: nat): (r: seq<nat>)
    requires k < |es| && forall i :: i in order ==> i < |es|
    ensures forall i :: i in r <==> i == k || i in order
    ensures DescendingPaths(es, order) ==> DescendingPaths(es, r)
  {
    if order == [] then [k]
    else
      assert order[0] in order && forall i :: i in order[1..] ==> i in order;
      if Less(es[order[0]].path, es[k].path) then
        assert DescendingPaths(es, order) ==> DescendingPaths(es, [k] + order) by { AboveFirst(es, order, k); }
        [k] + order
      else
        var t := InsertDescending(es, order[1..], k);
        assert DescendingPaths(es, order) ==> DescendingPaths(es, [order[0]] + t) by {
          if DescendingPaths(es, order) { BelowFirst(es, order, t, k); }
        }
        [order[0]] + t
  }

  lemma AboveFirst(es: seq<ManifestEntry>, order: seq<nat>, k: nat)
    requires k < |es| && order != [] && forall i :: i in order ==> i < |es|
    requires order[0] in order && Less(es[order[0]].path, es[k].path)
    ensures DescendingPaths(es, order) ==> DescendingPaths(es, [k] + order)
  {
    if DescendingPaths(es, order) {
      forall b | 0 <= b < |order| ensures order[b] in order && !Less(es[k].path, es[order[b]].path) {
        assert order[b] in order;
        LessTrichotomy(es[order[0]].path, es[k].path);
        if b > 0 && Less(es[k].path, es[order[b]].path) { LessTransitive(es[order[0]].path, es[k].path, es[order[b]].path); }
      }
    }
  }

  lemma BelowFirst(es: seq<ManifestEntry>, order: seq<nat>, t: seq<nat>, k: nat)
    requires k < |es| && order != [] && DescendingPaths(es, order) && DescendingPaths(es, t)
    requires order[0] < |es| && !Less(es[order[0]].path, es[k].path)
    requires forall i :: i in t <==> i == k || i in order[1..]
    ensures DescendingPaths(es, [order[0]] + t)
  {
    forall b | 0 <= b < |t| && t[b] < |es| ensures !Less(es[order[0]].path, es[t[b]].path) {
      assert t[b] in t;
      if t[b] != k {
        var c :| 0 <= c < |order[1..]| && order[1..][c] == t[b];
        assert order[c + 1] == t[b];
      }
    }
  }

  /** The directory entries, greatest path first, so that a directory comes after all below it. */
  function DeepestFirst(es: seq<ManifestEntry>, n: nat): (order: seq<nat>)
    requires n <= |es|
    ensures forall i: nat :: i in order <==> i < n && es[i].kind == DirKind
    ensures DescendingPaths(es, order)
  {
    if n == 0 then []
    else
      var order := DeepestFirst(es, n - 1);
      if es[n - 1].kind == DirKind then InsertDescending(es, order, n - 1) else order
  }

  lemma DeeperThanAll(es: seq<ManifestEntry>, order: seq<nat>, k: nat)
    requires k < |es| && order != [] && DeepestInOrder(es, order) && order[0] < |es| && Less(es[order[0]].path, es[k].path)
    ensures DeepestInOrder(es, [k] + order)
  {
    var r := [k] + order;
    forall a, b | 0 <= a < b < |r| ensures Deeper(es, r[a], r[b]) {
      if a > 0 {
        assert Deeper(es, order[a - 1], order[b - 1]);
      } else if b > 1 {
        assert Deeper(es, order[0], order[b - 1]);
        if es[order[b - 1]].path != es[order[0]].path { LessTransitive(es[order[b - 1]].path, es[order[0]].path, es[k].path); }
      }
    }
  }

  lemma FirstStaysFirst(es: seq<ManifestEntry>, order: seq<nat>, t: seq<nat>, k: nat)
    requires order != [] && DeepestInOrder(es, order) && DeepestInOrder(es, t) && Deeper(es, order[0], k)
    requires forall i :: i in t <==> i == k || i in order[1..]
    ensures DeepestInOrder(es, [order[0]] + t)
  {
    hide Deeper;
    var r := [order[0]] + t;
    forall a, b | 0 <= a < b < |r| ensures Deeper(es, r[a], r[b]) {
      if a > 0 {
        assert Deeper(es, t[a - 1], t[b - 1]);
      } else if t[b - 1] != k {
        assert t[b - 1] in t;
        var c :| 0 <= c < |order[1..]| && order[1..][c] == t[b - 1];
        assert Deeper(es, order[0], order[c + 1]);
      }
    }
  }

  lemma {:induction false} InsertedAfterEquals(es: seq<ManifestEntry>, order: seq<nat>, k: nat)
    requires k < |es| && (forall i :: i in order ==> i < k) && DeepestInOrder(es, order)
    ensures DeepestInOrder(es, InsertDescending(es, order, k))
  {
    hide Deeper, Less;
    if order != [] {
      assert order[0] in order && forall i :: i in order[1..] ==> i in order;
      LessTrichotomy(es[order[0]].path, es[k].path);
      if Less(es[order[0]].path, es[k].path) {
        DeeperThanAll(es, order, k);
      } else {
        InsertedAfterEquals(es, order[1..], k);
        assert Deeper(es, order[0], k) by { DeeperIf(es, order[0], k); }
        FirstStaysFirst(es, order, InsertDescending(es, order[1..], k), k);
      }
    }
  }

  lemma DeeperIf(es: seq<ManifestEntry>, i: nat, j: nat)
    requires i < j < |es| && !Less(es[i].path, es[j].path)
    ensures Deeper(es, i, j)
  {
    LessTrichotomy(es[i].path, es[j].path);
  }

  /** Comes earlier: the greater path, or the same path earlier in the manifest. */
  predicate Deeper(es: seq<ManifestEntry>, i: nat, j: nat) {
    i < |es| && j < |es| && (Less(es[j].path, es[i].path) || (es[i].path == es[j].path && i < j))
  }

  predicate DeepestInOrder(es: seq<ManifestEntry>, order: seq<nat>) {
    forall a, b :: 0 <= a < b < |order| ==> Deeper(es, order[a], order[b])
  }

  lemma NoneDeeper(es: seq<ManifestEntry>)
    ensures DeepestInOrder(es, [])
  {
  }

  /** The order of pass 4: greatest path first, so a directory after all below it, and entries with
      the same path in the order of the manifest, each once. */
  lemma {:induction false} DeepestFirstIsStable(es: seq<ManifestEntry>, n: nat)
    requires n <= |es|
    ensures DeepestInOrder(es, DeepestFirst(es, n))
    ensures forall i: nat :: i in DeepestFirst(es, n) <==> i < n && es[i].kind == DirKind
  {
    hide DescendingPaths, Less, Deeper, DeepestInOrder, InsertDescending;
    assert DeepestInOrder(es, []) by { NoneDeeper(es); }
    if n > 0 {
      DeepestFirstIsStable(es, n - 1);
      if es[n - 1].kind == DirKind { InsertedAfterEquals(es, DeepestFirst(es, n - 1), n - 1); }
    }
  }

  ghost predicate ModesSet(mid: Nodes, now: Nodes, root: Ino, es: seq<ManifestEntry>, done: seq<nat>) {
    && (forall i :: i in done ==> i < |es| && LexicalComponents(es[i].path).Some?)
    && (forall i :: i in done ==> At(now, root, Comps(es[i])) == IsDir(PermBits(es[i].mode)))
    && (forall q :: (forall i :: i in done && i < |es| && LexicalComponents(es[i].path).Some? ==> q != Comps(es[i])) ==>
          At(now, root, q) == At(mid, root, q))
  }

  ghost function All(es: seq<ManifestEntry>): set<nat> {
    OfKind(es, DirKind, |es|) + OfKind(es, FileKind, |es|) + OfKind(es, SymlinkKind, |es|)
  }

  lemma DirsAreThere(start: Nodes, mid: Nodes, now: Nodes, root: Ino, chunks: Chunks, es: seq<ManifestEntry>, done: seq<nat>, k: nat)
    requires TreeShaped(es) && k < |es| && es[k].kind == DirKind
    requires Midway(start, mid, root, chunks, es, All(es)) && ModesSet(mid, now, root, es, done)
    ensures At(now, root, Comps(es[k])).IsDir?
  {
    var q := Comps(es[k]);
    assert k in All(es) && Reached(es, All(es), q);
    assert !Settled(es, All(es), q);
  }

  lemma ModesStep(mid: Nodes, a: Nodes, b: Nodes, root: Ino, es: seq<ManifestEntry>, done: seq<nat>, k: nat)
    requires TreeShaped(es) && k < |es| && ModesSet(mid, a, root, es, done)
    requires forall q :: At(b, root, q) == if q == Comps(es[k]) then IsDir(PermBits(es[k].mode)) else At(a, root, q)
    ensures ModesSet(mid, b, root, es, done + [k])
  {
    forall i | i in done + [k]
      ensures i < |es| && At(b, root, Comps(es[i])) == IsDir(PermBits(es[i].mode))
    {
      if i != k { assert i in done; assert Comps(es[i]) != Comps(es[k]); }
    }
    forall q | forall i :: i in done + [k] && i < |es| && LexicalComponents(es[i].path).Some? ==> q != Comps(es[i])
      ensures At(b, root, q) == At(mid, root, q)
    {
      assert k in done + [k];
      forall i | i in done && i < |es| && LexicalComponents(es[i].path).Some? ensures q != Comps(es[i]) { assert i in done + [k]; }
    }
  }

  lemma NoModesSet(mid: Nodes, root: Ino, es: seq<ManifestEntry>)
    ensures ModesSet(mid, mid, root, es, [])
  {
  }

  /** Pass 4: directory modes. */
  method SetModes(es: seq<ManifestEntry>, rootfs: RootDir, ghost start: Nodes, ghost chunks: Chunks, ghost turns: seq<Turn>) returns (r: Result<(), Error>)
    requires rootfs.Valid() && AllValid(es)
    requires Played(start, rootfs.fs.nodes, rootfs.root, chunks, es, turns)
    requires TreeShaped(es) ==> Midway(start, rootfs.fs.nodes, rootfs.root, chunks, es, All(es))
    modifies rootfs, rootfs.fs
    ensures rootfs.Valid() && Contained(old(rootfs.fs.nodes), rootfs.fs.nodes, rootfs.root, es)
    ensures TreeShaped(es) ==> r.Ok? && ModesSet(old(rootfs.fs.nodes), rootfs.fs.nodes, rootfs.root, es, DeepestFirst(es, |es|))
    ensures if r.Ok? then Played(start, rootfs.fs.nodes, rootfs.root, chunks, es, turns + ModeTurns(DeepestFirst(es, |es|)))
      else Stopped(start, rootfs.fs.nodes, rootfs.root, chunks, es, turns + ModeTurns(DeepestFirst(es, |es|)), r.error)
  {
    hide Played, Stopped, Rooted, Coherent, Contained, Midway, ModesSet, TreeShaped;
    ghost var mid := rootfs.fs.nodes;
    ContainedItself(mid, rootfs.root, es);
    NoModesSet(mid, rootfs.root, es);
    var order := DeepestFirst(es, |es|);
    assert turns + ModeTurns(order[..0]) == turns && ModeTurns(order[..|order|]) == ModeTurns(order) by { assert order[..|order|] == order; }
    hide ModeTurns;
    for a := 0 to |order|
      invariant rootfs.Valid() && Contained(mid, rootfs.fs.nodes, rootfs.root, es)
      invariant TreeShaped(es) ==> ModesSet(mid, rootfs.fs.nodes, rootfs.root, es, order[..a])
      invariant Played(start, rootfs.fs.nodes, rootfs.root, chunks, es, turns + ModeTurns(order[..a]))
    {
      var k := order[a];
      assert k in order;
      ghost var now := rootfs.fs.nodes;
      if TreeShaped(es) { DirsAreThere(start, mid, now, rootfs.root, chunks, es, order[..a], k); }
      ComponentsAreValid(es[k].path);
      r := rootfs.ChmodDir(Comps(es[k]), es[k].mode);
      ModeTurn(start, now, rootfs.fs.nodes, rootfs.root, chunks, es, turns + ModeTurns(order[..a]), k, if r.Err? then r.error else InvalidManifest);
      ModeTurnsStep(turns, order, a);
      if r.Err? {
        StoppedStays(start, rootfs.fs.nodes, rootfs.root, chunks, es, turns + ModeTurns(order[..a + 1]), turns + ModeTurns(order), r.error);
        return;
      }
      ModeIsContained(now, rootfs.fs.nodes, rootfs.root, es, k, IsDir(PermBits(es[k].mode)));
      ContainedTransitive(mid, now, rootfs.fs.nodes, rootfs.root, es);
      if TreeShaped(es) { ModesStep(mid, now, rootfs.fs.nodes, rootfs.root, es, order[..a], k); }
      Grow(order, a);
    }
    Whole(order);
    return Ok(());
  }

  lemma Grow<T>(s: seq<T>, k: nat)
    requires k < |s|
    ensures s[..k + 1] == s[..k] + [s[k]]
  {
  }

  lemma Whole<T>(s: seq<T>)
    ensures s[..|s|] == s
  {
  }

  lemma EntriesRealised(start: Nodes, mid: Nodes, now: Nodes, root: Ino, chunks: Chunks, es: seq<ManifestEntry>, i: nat)
    requires TreeShaped(es) && i < |es| && ValidEntry(es[i])
    requires Midway(start, mid, root, chunks, es, All(es))
    requires ModesSet(mid, now, root, es, DeepestFirst(es, |es|))
    ensures Readable(chunks, es[i]) && At(now, root, Comps(es[i])) == Wanted(chunks, es[i])
  {
    var order := DeepestFirst(es, |es|);
    if es[i].kind == DirKind {
      assert i in order;
    } else {
      assert i in All(es);
      forall j | j in order ensures Comps(es[i]) != Comps(es[j]) { assert i != j; }
    }
  }

  lemma ReachedByAll(es: seq<ManifestEntry>, q: Path)
    ensures Reached(es, All(es), q) <==> Covered(es, q)
    ensures Settled(es, All(es), q) ==> IsEntry(es, q)
  {
    if Covered(es, q) {
      var i :| 0 <= i < |es| && LexicalComponents(es[i].path).Some? && q <= Comps(es[i]);
      assert i in All(es);
    }
  }

  lemma OthersAsBefore(start: Nodes, mid: Nodes, now: Nodes, root: Ino, chunks: Chunks, es: seq<ManifestEntry>, q: Path)
    requires Midway(start, mid, root, chunks, es, All(es))
    requires ModesSet(mid, now, root, es, DeepestFirst(es, |es|))
    requires !IsEntry(es, q)
    ensures At(now, root, q) == if Covered(es, q) && !At(start, root, q).IsDir? then IsDir(NEW_DIR_MODE) else At(start, root, q)
  {
    hide Walk, At;
    ReachedByAll(es, q);
    assert At(now, root, q) == At(mid, root, q);
  }

  lemma FourPassesRealise(start: Nodes, mid: Nodes, now: Nodes, root: Ino, chunks: Chunks, es: seq<ManifestEntry>)
    requires TreeShaped(es) && AllValid(es)
    requires Midway(start, mid, root, chunks, es, All(es))
    requires ModesSet(mid, now, root, es, DeepestFirst(es, |es|))
    ensures Realised(start, now, root, chunks, es)
  {
    forall i | 0 <= i < |es| ensures Readable(chunks, es[i]) && At(now, root, Comps(es[i])) == Wanted(chunks, es[i]) {
      EntriesRealised(start, mid, now, root, chunks, es, i);
    }
    forall q | !IsEntry(es, q)
      ensures At(now, root, q) == if Covered(es, q) && !At(start, root, q).IsDir? then IsDir(NEW_DIR_MODE) else At(start, root, q)
    {
      OthersAsBefore(start, mid, now, root, chunks, es, q);
    }
  }

  // ---- the whole restore --------------------------------------------------------------------------

  /** Entry `k` is the first that is not valid, for this reason. */
  ghost predicate FirstInvalid(es: seq<ManifestEntry>, k: nat, why: Error) {
    && k < |es| && !ValidEntry(es[k]) && (forall i :: 0 <= i < k ==> ValidEntry(es[i]))
    && why == if LexicalComponents(es[k].path).None? then PathTraversal else InvalidManifest
  }

  /** Check every path and declared size before anything is written. */
  method Validate(es: seq<ManifestEntry>) returns (r: Result<(), Error>)
    ensures r.Ok? <==> AllValid(es)
    ensures r.Err? ==> exists k :: FirstInvalid(es, k, r.error)
  {
    for k := 0 to |es|
      invariant forall i :: 0 <= i < k ==> ValidEntry(es[i])
    {
      if LexicalComponents(es[k].path).None? {
        assert FirstInvalid(es, k, PathTraversal);
        return Err(PathTraversal);
      }
      if Comps(es[k]) == [] && es[k].kind != DirKind {
        assert FirstInvalid(es, k, InvalidManifest);
        return Err(InvalidManifest);
      }
      if es[k].kind == FileKind {
        var sized := CheckDeclaredSize(es[k]);
        if sized.Err? {
          assert FirstInvalid(es, k, InvalidManifest);
          return sized;
        }
      }
    }
    return Ok(());
  }

  /** Exactly the files and the links decide whether a restore succeeds. */
  lemma RestorableIf(start: Nodes, root: Ino, chunks: Chunks, es: seq<ManifestEntry>)
    ensures Restorable(start, root, chunks, es) <==>
      && AllValid(es)
      && (forall i :: 0 <= i < |es| && es[i].kind == FileKind ==> Placeable(start, root, chunks, es[i]))
      && (forall i :: 0 <= i < |es| && es[i].kind == SymlinkKind ==> Placeable(start, root, chunks, es[i]))
  {
  }

  ghost predicate Tallied(stats: RestoreStats, es: seq<ManifestEntry>, priority: seq<string>) {
    && Counts(stats, es, RestoreOrder(es, priority))
    && stats.dirs == CountKind(es, DirKind, |es|) && stats.symlinks == CountKind(es, SymlinkKind, |es|)
  }

  lemma NoFileTurns(es: seq<ManifestEntry>)
    ensures DirTurns(es, |es|) + FileTurns([]) == DirTurns(es, |es|)
  {
    hide DirTurns;
  }

  lemma NothingWritten(start: Nodes, now: Nodes, root: Ino, chunks: Chunks, es: seq<ManifestEntry>, stats: RestoreStats)
    requires TreeShaped(es) ==> Midway(start, now, root, chunks, es, OfKind(es, DirKind, |es|))
    requires stats.files == 0 && stats.bytes == 0 && stats.fileOrder == [] && Played(start, now, root, chunks, es, DirTurns(es, |es|))
    ensures Written(start, now, root, chunks, es, [], stats)
  {
    NoFileTurns(es);
    hide Played, Midway, DirTurns, FileTurns, Placeable, TreeShaped;
    assert OfKind(es, DirKind, |es|) + AsSet([]) == OfKind(es, DirKind, |es|);
  }

  lemma AllWritten(start: Nodes, now: Nodes, root: Ino, chunks: Chunks, es: seq<ManifestEntry>, priority: seq<string>, stats: RestoreStats)
    requires Written(start, now, root, chunks, es, RestoreOrder(es, priority), stats)
    requires AsSet(RestoreOrder(es, priority)) == OfKind(es, FileKind, |es|)
    ensures TreeShaped(es) ==> Midway(start, now, root, chunks, es, OfKind(es, DirKind, |es|) + OfKind(es, FileKind, |es|))
    ensures Counts(stats, es, RestoreOrder(es, priority))
    ensures Played(start, now, root, chunks, es, DirTurns(es, |es|) + FileTurns(RestoreOrder(es, priority)))
  {
    hide Played, Midway, Placeable, TreeShaped, RestoreOrder, OfKind, AsSet, Counts;
  }

  lemma TurnsStart(es: seq<ManifestEntry>, priority: seq<string>)
    ensures var turns := DirTurns(es, |es|) + FileTurns(RestoreOrder(es, priority));
      && turns <= Turns(es, priority) && turns + LinkTurns(es, |es|) <= Turns(es, priority)
      && turns + LinkTurns(es, |es|) + ModeTurns(DeepestFirst(es, |es|)) == Turns(es, priority)
  {
    hide DirTurns, FileTurns, LinkTurns, ModeTurns, RestoreOrder, DeepestFirst;
  }

  lemma StuckIsNone(start: Nodes, root: Ino, chunks: Chunks, es: seq<ManifestEntry>, turns: seq<Turn>, a: nat, why: Error)
    requires a < |turns| && Stuck(start, root, chunks, es, turns[..a], turns[a], why)
    ensures Play(Tree(start, root), turns, chunks, es).None?
  {
    hide After, Refusal, Play;
    assert turns[..a + 1] == turns[..a] + [turns[a]];
    PlayOne(Tree(start, root), turns[..a], turns[a], chunks, es);
    StoppedIsNone(Tree(start, root), turns, a + 1, chunks, es);
  }

  lemma RestoreStopped(start: Nodes, now: Nodes, root: Ino, chunks: Chunks, es: seq<ManifestEntry>, turns: seq<Turn>, priority: seq<string>, why: Error)
    requires Stopped(start, now, root, chunks, es, turns, why) && turns <= Turns(es, priority)
    ensures Stopped(start, now, root, chunks, es, Turns(es, priority), why)
    ensures Play(Tree(start, root), Turns(es, priority), chunks, es).None?
  {
    hide Turns, Played, Stuck, Play;
    var all := Turns(es, priority);
    StoppedStays(start, now, root, chunks, es, turns, all, why);
    var a :| 0 <= a < |all| && Played(start, now, root, chunks, es, all[..a]) && Stuck(start, root, chunks, es, all[..a], all[a], why);
    StuckIsNone(start, root, chunks, es, all, a, why);
  }

  lemma PlayedIsSome(start: Nodes, now: Nodes, root: Ino, chunks: Chunks, es: seq<ManifestEntry>, turns: seq<Turn>)
    requires Played(start, now, root, chunks, es, turns)
    ensures Play(Tree(start, root), turns, chunks, es).Some?
  {
  }

  /** Restore a manifest onto whatever is there. On any valid manifest, also one that repeats paths
      or has entries below a file, each pass takes its turns in order: it succeeds exactly when all
      can be taken, and else leaves exactly what the turns before the first that cannot leave. */
  method Restore(store: ChunkStore, m: Manifest, fs: FileSystem, root: Ino, priority: seq<string>) returns (r: Result<RestoreStats, Error>)
    requires Rooted(fs.nodes, root)
    modifies fs
    ensures Rooted(fs.nodes, root) && Contained(old(fs.nodes), fs.nodes, root, m.entries)
    ensures !AllValid(m.entries) ==>
      fs.nodes == old(fs.nodes) && r.Err? && exists k :: FirstInvalid(m.entries, k, r.error)
    ensures TreeShaped(m.entries) ==> (r.Ok? <==> Restorable(old(fs.nodes), root, store.chunks, m.entries))
    ensures TreeShaped(m.entries) && r.Ok? ==> Realised(old(fs.nodes), fs.nodes, root, store.chunks, m.entries)
    ensures r.Ok? ==> Tallied(r.value, m.entries, priority)
    ensures AllValid(m.entries) ==>
      var turns := Turns(m.entries, priority);
      && (r.Ok? <==> Play(Tree(old(fs.nodes), root), turns, store.chunks, m.entries).Some?)
      && (if r.Ok? then Played(old(fs.nodes), fs.nodes, root, store.chunks, m.entries, turns)
          else Stopped(old(fs.nodes), fs.nodes, root, store.chunks, m.entries, turns, r.error))
  {
    hide Played, Stopped, Turns, Play, FileTurns, LinkTurns, ModeTurns, DirTurns, Rooted, Coherent, Contained, Placeable, Walk, At, Midway, TreeShaped, Written, Realised, Restorable, RestoreOrder, OfKind, Readable, AllValid;
    var es := m.entries;
    ghost var start := fs.nodes;
    ContainedItself(start, root, es);
    RestorableIf(start, root, store.chunks, es);
    var checked := Validate(es);
    if checked.Err? { return Err(checked.error); }
    var rootfs := new RootDir(fs, root);
    var made := MakeDirs(es, rootfs, store.chunks);
    ghost var afterDirs := fs.nodes;
    var stats := RestoreStats(0, made.value, 0, 0, []);
    NothingWritten(start, fs.nodes, root, store.chunks, es, stats);
    var written := WriteFiles(store, es, rootfs, priority, stats, start);
    ContainedTransitive(start, afterDirs, fs.nodes, root, es);
    ghost var turns := DirTurns(es, |es|) + FileTurns(RestoreOrder(es, priority));
    TurnsStart(es, priority);
    if written.Err? {
      RestoreStopped(start, fs.nodes, root, store.chunks, es, turns, priority, written.error);
      return written;
    }
    ghost var afterFiles := fs.nodes;
    AllWritten(start, fs.nodes, root, store.chunks, es, priority, written.value);
    var linked := MakeLinks(es, rootfs, start, store.chunks, OfKind(es, DirKind, |es|) + OfKind(es, FileKind, |es|), turns);
    ContainedTransitive(start, afterFiles, fs.nodes, root, es);
    if linked.Err? {
      RestoreStopped(start, fs.nodes, root, store.chunks, es, turns + LinkTurns(es, |es|), priority, linked.error);
      return Err(linked.error);
    }
    ghost var mid := fs.nodes;
    var chmodded := SetModes(es, rootfs, start, store.chunks, turns + LinkTurns(es, |es|));
    ContainedTransitive(start, mid, fs.nodes, root, es);
    if chmodded.Err? {
      RestoreStopped(start, fs.nodes, root, store.chunks, es, Turns(es, priority), priority, chmodded.error);
      return Err(chmodded.error);
    }
    PlayedIsSome(start, fs.nodes, root, store.chunks, es, Turns(es, priority));
    if TreeShaped(es) { FourPassesRealise(start, mid, fs.nodes, root, store.chunks, es); }
    return Ok(written.value.(symlinks := linked.value));
  }

  // ---- when a restore that succeeds does what the manifest says ---------------------------------------

  /** The turn after which an entry is as it should be. */
  function LastTurn(es: seq<ManifestEntry>, i: nat): Turn
    requires i < |es|
  {
    if es[i].kind == DirKind then SetMode(i) else PutLeaf(i)
  }

  /** No two entries contradict each other: equal paths want the same, and only a directory has
      others below it. */
  ghost predicate Agreeing(chunks: Chunks, es: seq<ManifestEntry>) {
    forall i, j :: 0 <= i < |es| && 0 <= j < |es| ==> Agree(chunks, es[i], es[j])
  }

  predicate Agree(chunks: Chunks, e: ManifestEntry, f: ManifestEntry) {
    Readable(chunks, e) && Readable(chunks, f) && Comps(e) <= Comps(f) ==>
      if Comps(e) == Comps(f) then Wanted(chunks, e) == Wanted(chunks, f) else e.kind == DirKind
  }

  lemma TurnTaken(v: Shape, t: Turn, chunks: Chunks, es: seq<ManifestEntry>, i: nat)
    requires i < |es| && t == LastTurn(es, i) && After(v, t, chunks, es).Some?
    ensures Readable(chunks, es[i]) && After(v, t, chunks, es).value(Comps(es[i])) == Wanted(chunks, es[i])
  {
  }

  /** A turn of an entry that agrees leaves another entry that is as it should be alone. */
  lemma TurnSpares(v: Shape, t: Turn, chunks: Chunks, es: seq<ManifestEntry>, i: nat)
    requires (forall j :: 0 <= j < |es| ==> Readable(chunks, es[j])) && Agreeing(chunks, es)
    requires i < |es| && v(Comps(es[i])) == Wanted(chunks, es[i]) && After(v, t, chunks, es).Some?
    requires t.PutLeaf? <==> t.k < |es| && es[t.k].kind != DirKind
    ensures After(v, t, chunks, es).value(Comps(es[i])) == Wanted(chunks, es[i])
  {
    var p, q := Comps(es[i]), Comps(es[t.k]);
    assert Agree(chunks, es[i], es[t.k]);
    hide Agreeing, LexicalComponents, FileContent;
  }

  /** Every entry whose last turn is among those taken is as it should be. */
  lemma {:induction false} PlayedRealises(v: Shape, turns: seq<Turn>, chunks: Chunks, es: seq<ManifestEntry>, i: nat)
    requires (forall j :: 0 <= j < |es| ==> Readable(chunks, es[j])) && Agreeing(chunks, es)
    requires forall t :: t in turns ==> t.k < |es| && (t.PutLeaf? <==> es[t.k].kind != DirKind)
    requires Play(v, turns, chunks, es).Some? && i < |es| && LastTurn(es, i) in turns
    ensures Play(v, turns, chunks, es).value(Comps(es[i])) == Wanted(chunks, es[i])
    decreases |turns|
  {
    hide Agreeing, After, Readable, Wanted;
    var front, t := turns[..|turns| - 1], turns[|turns| - 1];
    var w := Play(v, front, chunks, es).value;
    assert turns == front + [t];
    if t == LastTurn(es, i) {
      TurnTaken(w, t, chunks, es, i);
    } else {
      PlayedRealises(v, front, chunks, es, i);
      TurnSpares(w, t, chunks, es, i);
    }
  }

  /** What can be taken was readable. */
  lemma {:induction false} PlayedIsReadable(v: Shape, turns: seq<Turn>, chunks: Chunks, es: seq<ManifestEntry>, i: nat)
    requires Play(v, turns, chunks, es).Some? && i < |es| && LastTurn(es, i) in turns
    ensures Readable(chunks, es[i])
    decreases |turns|
  {
    hide After, Readable;
    var front, t := turns[..|turns| - 1], turns[|turns| - 1];
    assert turns == front + [t];
    if t == LastTurn(es, i) {
      TurnTaken(Play(v, front, chunks, es).value, t, chunks, es, i);
    } else {
      PlayedIsReadable(v, front, chunks, es, i);
    }
  }

  lemma {:induction false} DirTurnsAre(es: seq<ManifestEntry>, n: nat)
    requires n <= |es|
    ensures forall t :: t in DirTurns(es, n) ==> t.MakeDir? && t.k < n && es[t.k].kind == DirKind
  {
    if n > 0 { DirTurnsAre(es, n - 1); }
  }

  lemma {:induction false} LinkTurnsAre(es: seq<ManifestEntry>, n: nat)
    requires n <= |es|
    ensures forall t :: t in LinkTurns(es, n) <==> t.PutLeaf? && t.k < n && es[t.k].kind == SymlinkKind
  {
    if n > 0 { LinkTurnsAre(es, n - 1); }
  }

  /** Every entry has its last turn, and every turn is of the kind its entry calls for. */
  lemma TurnsAre(es: seq<ManifestEntry>, priority: seq<string>)
    ensures forall t :: t in Turns(es, priority) ==> t.k < |es| && (t.PutLeaf? <==> es[t.k].kind != DirKind)
    ensures forall i :: 0 <= i < |es| ==> LastTurn(es, i) in Turns(es, priority)
  {
    var order, modes := RestoreOrder(es, priority), DeepestFirst(es, |es|);
    DirTurnsAre(es, |es|);
    LinkTurnsAre(es, |es|);
    var n := RestoreOrderIsFair(es, priority);
    assert forall t :: t in FileTurns(order) ==> t.PutLeaf? && t.k in order;
    assert forall t :: t in ModeTurns(modes) ==> t.SetMode? && t.k in modes;
    hide RestoreOrder, DeepestFirst, FileTurns, ModeTurns, DirTurns, LinkTurns, IndexOf, PriorityOrder;
    forall i | 0 <= i < |es| ensures LastTurn(es, i) in Turns(es, priority) {
      if es[i].kind == FileKind {
        var a :| 0 <= a < |order| && order[a] == i;
        assert FileTurns(order)[a] in FileTurns(order);
      } else if es[i].kind == DirKind {
        var a :| 0 <= a < |modes| && modes[a] == i;
        assert ModeTurns(modes)[a] in ModeTurns(modes);
      }
    }
  }

  /** Every entry can be read and its path shows what the entry says. */
  ghost predicate EntriesShown(now: Nodes, root: Ino, chunks: Chunks, es: seq<ManifestEntry>) {
    forall i :: 0 <= i < |es| ==> Readable(chunks, es[i]) && At(now, root, Comps(es[i])) == Wanted(chunks, es[i])
  }

  lemma ShownAgree(now: Nodes, root: Ino, chunks: Chunks, es: seq<ManifestEntry>)
    requires Rooted(now, root) && EntriesShown(now, root, chunks, es)
    ensures Agreeing(chunks, es)
  {
    forall i, j | 0 <= i < |es| && 0 <= j < |es| ensures Agree(chunks, es[i], es[j]) {
      if Comps(es[i]) <= Comps(es[j]) { WalkAbove(now, root, Comps(es[j]), Comps(es[i])); }
    }
  }

  /** A restore that succeeds does what the manifest says exactly when the manifest does not
      contradict itself. */
  lemma ShownIffAgreeing(start: Nodes, now: Nodes, root: Ino, chunks: Chunks, es: seq<ManifestEntry>, priority: seq<string>)
    requires Rooted(now, root) && Played(start, now, root, chunks, es, Turns(es, priority))
    ensures forall i :: 0 <= i < |es| ==> Readable(chunks, es[i])
    ensures EntriesShown(now, root, chunks, es) <==> Agreeing(chunks, es)
  {
    hide Rooted, At, FileContent, LexicalComponents, Wanted, Turns, Play, Agreeing, LastTurn;
    var v := Tree(start, root);
    TurnsAre(es, priority);
    forall i | 0 <= i < |es| ensures Readable(chunks, es[i]) { PlayedIsReadable(v, Turns(es, priority), chunks, es, i); }
    if EntriesShown(now, root, chunks, es) { ShownAgree(now, root, chunks, es); }
    if Agreeing(chunks, es) {
      forall i | 0 <= i < |es| ensures At(now, root, Comps(es[i])) == Wanted(chunks, es[i]) {
        PlayedRealises(v, Turns(es, priority), chunks, es, i);
      }
    }
  }

  const OVER := ManifestEntry("/a", FileKind, 0x81A4, 0, None, [])
  const UNDER := ManifestEntry("/a/b", FileKind, 0x81A4, 0, None, [])
  const VACANT: Nodes := map[0 := Dir(map[], 0x1ED, false)]

  lemma NestedPaths()
    ensures LexicalComponents("/a") == Some(["a"]) && LexicalComponents("/a/b") == Some(["a", "b"])
  {
    var a, b: Path := ["a"], ["a", "b"];
    assert a[..0] == [] && b[..1] == a;
    assert Join(a) == "/a" && Join(b) == "/a/b";
    ComponentsOfJoin(a);
    ComponentsOfJoin(b);
  }

  lemma NestedOrder()
    ensures RestoreOrder([OVER, UNDER], []) == [0, 1]
  {
    var es, none: seq<nat> := [OVER, UNDER], [];
    assert PriorityOrder(IndexOf(es), []) == none;
    hide IndexOf, PriorityOrder;
    assert ThenTheRest(es, none, 0) == none && ThenTheRest(es, none, 1) == [0] && ThenTheRest(es, none, 2) == [0, 1];
  }

  lemma NestedTurns()
    ensures Turns([OVER, UNDER], []) == [PutLeaf(0), PutLeaf(1)]
  {
    var es := [OVER, UNDER];
    NestedOrder();
    hide RestoreOrder;
    assert FileTurns([0, 1]) == [PutLeaf(0), PutLeaf(1)];
    assert DirTurns(es, 0) == DirTurns(es, 1) == DirTurns(es, 2) == [];
    assert LinkTurns(es, 0) == LinkTurns(es, 1) == LinkTurns(es, 2) == [];
    assert DeepestFirst(es, 0) == DeepestFirst(es, 1) == DeepestFirst(es, 2) == [];
  }

  lemma VacantAt(p: Path)
    ensures At(VACANT, 0, p) == if p == [] then IsDir(0x1ED) else Absent
    ensures Walk(VACANT, 0, p).Some? <==> p == []
    decreases |p|
  {
    if p != [] { VacantAt(p[..|p| - 1]); }
  }

  const NO_CHUNKS: Chunks := map[]

  lemma NestedReadable()
    ensures ValidEntry(OVER) && ValidEntry(UNDER) && Readable(NO_CHUNKS, OVER) && Readable(NO_CHUNKS, UNDER)
    ensures Comps(OVER) == ["a"] && Comps(UNDER) == ["a", "b"]
    ensures Wanted(NO_CHUNKS, OVER).IsFile? && Wanted(NO_CHUNKS, UNDER).IsFile?
  {
    NestedPaths();
    hide LexicalComponents;
  }

  lemma NestedPlay(v: Shape, es: seq<ManifestEntry>)
    requires es == [OVER, UNDER] && forall p :: p != [] ==> v(p).Absent?
    ensures var w := Play(v, [PutLeaf(0), PutLeaf(1)], NO_CHUNKS, es);
      w.Some? && w.value(["a"]).IsDir? && w.value(["a", "b"]).IsFile?
  {
    NestedReadable();
    hide Readable, ValidEntry, LexicalComponents, Wanted;
    PlayOne(v, [], PutLeaf(0), NO_CHUNKS, es);
    PlayOne(v, [PutLeaf(0)], PutLeaf(1), NO_CHUNKS, es);
    assert [] + [PutLeaf(0)] == [PutLeaf(0)] && [PutLeaf(0)] + [PutLeaf(1)] == [PutLeaf(0), PutLeaf(1)];
    assert forall n: string :: ["a", "b"] + [n] != ["a"];
  }

  /** What restoring the two into an empty root comes to. */
  ghost function NestedOutcome(): Option<Shape> {
    Play(Tree(VACANT, 0), Turns([OVER, UNDER], []), NO_CHUNKS, [OVER, UNDER])
  }

  lemma NestedContradicts()
    ensures ValidEntry(OVER) && ValidEntry(UNDER) && !Agree(NO_CHUNKS, OVER, UNDER)
  {
    NestedReadable();
    hide ValidEntry, Readable, LexicalComponents;
  }

  lemma VacantShape(p: Path)
    requires p != []
    ensures Tree(VACANT, 0)(p).Absent?
  {
    VacantAt(p);
  }

  /** Two valid files, one below the other, in an empty root: all turns can be taken, and the first
      file ends up as a directory. */
  lemma NestedFileIsReplaced()
    ensures NestedOutcome().Some? && NestedOutcome().value(["a"]).IsDir? && NestedOutcome().value(["a", "b"]).IsFile?
  {
    hide LexicalComponents, Play, Turns, Tree, At, Walk;
    NestedTurns();
    forall p | p != [] ensures Tree(VACANT, 0)(p).Absent? { VacantShape(p); }
    NestedPlay(Tree(VACANT, 0), [OVER, UNDER]);
  }
}
