/** Root-anchored file access (crates/mari-core/src/rootfs.rs). `RootDir` resolves every
    path one component at a time from a held descriptor and caches the descriptors of the
    last prefix. The contracts below never mention the cache: each operation is specified
    by what a fresh walk from the root sees before and after it. */
module RootDirs {
  import opened Basics
  import opened Paths
  import opened Disk
  import opened Errors
  import opened FileSystems

  /** 0o755 */
  const NEW_DIR_MODE: nat := 493
  const REPLACE_ATTEMPTS: nat := 8

  /** `mode & 0o7777` */
  function PermBits(mode: nat): (r: nat)
    ensures r < 0x1000
  {
    mode % 0x1000
  }

  /** st_mode: the kind bits over the permission bits. */
  function StMode(v: View): nat {
    match v
    case IsFile(_, mode) => 0x8000 + mode
    case IsDir(mode) => 0x4000 + mode
    case IsLink(_) => 0xA000 + 511
    case _ => 0
  }

  datatype FileFacts = FileFacts(ino: Ino, nlink: nat, mode: nat, size: nat)

  /** Every directory on the way to `dirs` now exists; nothing else looks different. */
  ghost predicate Opened(nodes: Nodes, nodes': Nodes, root: Ino, dirs: Path) {
    forall q :: At(nodes', root, q) ==
      if q <= dirs && !At(nodes, root, q).IsDir? then IsDir(NEW_DIR_MODE) else At(nodes, root, q)
  }

  /** Nothing but `p` looks different. */
  ghost predicate OnlyAt(nodes: Nodes, nodes': Nodes, root: Ino, p: Path) {
    forall q :: q != p ==> At(nodes', root, q) == At(nodes, root, q)
  }

  lemma OnlyAtTransitive(a: Nodes, b: Nodes, c: Nodes, root: Ino, p: Path)
    requires OnlyAt(a, b, root, p) && OnlyAt(b, c, root, p)
    ensures OnlyAt(a, c, root, p)
  {
  }

  ghost predicate OpenedOne(nodes: Nodes, nodes': Nodes, root: Ino, p: Path) {
    forall q :: At(nodes', root, q) ==
      if q == p && !At(nodes, root, q).IsDir? then IsDir(NEW_DIR_MODE) else At(nodes, root, q)
  }

  /** `p` shows `v`, every directory above it exists, and nothing else looks different. */
  ghost predicate Placed(nodes: Nodes, nodes': Nodes, root: Ino, p: Path, v: View) {
    forall q :: At(nodes', root, q) ==
      if q == p then v
      else if q < p && !At(nodes, root, q).IsDir? then IsDir(NEW_DIR_MODE)
      else At(nodes, root, q)
  }

  /** The first component that does not exist is reached through directories only. */
  ghost predicate Missing(nodes: Nodes, root: Ino, dirs: Path) {
    exists k :: 0 <= k < |dirs| && At(nodes, root, dirs[..k]).IsDir? && At(nodes, root, dirs[..k + 1]).Absent?
  }

  /** What removing the node at `p`, as a directory or not, comes to: a node that is gone
      already is no error. */
  ghost function UnlinkResult(nodes: Nodes, root: Ino, p: Path, dir: bool): Result<(), Error> {
    var v := At(nodes, root, p);
    if v.Absent? then Ok(())
    else if dir && !v.IsDir? then Err(Io(NOTDIR))
    else if !dir && v.IsDir? then Err(Io(ISDIR))
    else if Occupied(nodes, root, p) then Err(Io(NOTEMPTY))
    else Ok(())
  }

  /** Why `p`, which is not the root, leads nowhere or not to a node of the wanted kind:
      nothing is there, something that is no directory is in the way, or `wrong`. */
  ghost function NotReached(nodes: Nodes, root: Ino, p: Path, wrong: Error): Error {
    if p == [] then InvalidManifest
    else if Missing(nodes, root, p) then Io(NOENT)
    else if At(nodes, root, p).Absent? then UnsafePath(NotADirectory)
    else wrong
  }

  /** What opening it for reading says of a node that is no regular file. */
  function NotReadable(v: View): Error {
    if v == IsOther(false) then Io(NXIO) else UnsafePath(NotARegularFile)
  }

  /** What removing the node a manifest path names comes to. */
  ghost function RemovalVerdict(nodes: Nodes, root: Ino, path: string): Result<bool, Error> {
    match LexicalComponents(path)
    case None => Err(PathTraversal)
    case Some(comps) =>
      if comps == [] then Err(UnsafePath(TheRootItself))
      else if Missing(nodes, root, comps) then Ok(false)
      else if At(nodes, root, comps).Absent? then Err(UnsafePath(NotADirectory))
      else if Occupied(nodes, root, comps) then Err(Io(NOTEMPTY))
      else Ok(true)
  }

  /** The last component is missing, or one above it is. */
  lemma MissingSplits(nodes: Nodes, root: Ino, dirs: Path, n: string)
    ensures Missing(nodes, root, dirs + [n]) <==>
      Missing(nodes, root, dirs) || (At(nodes, root, dirs).IsDir? && At(nodes, root, dirs + [n]).Absent?)
  {
    hide At;
    var p := dirs + [n];
    assert p[..|dirs|] == dirs && p[..|dirs| + 1] == p;
    if Missing(nodes, root, p) {
      var k :| 0 <= k < |p| && At(nodes, root, p[..k]).IsDir? && At(nodes, root, p[..k + 1]).Absent?;
      if k < |dirs| { assert p[..k] == dirs[..k] && p[..k + 1] == dirs[..k + 1]; }
    }
    if Missing(nodes, root, dirs) {
      var k :| 0 <= k < |dirs| && At(nodes, root, dirs[..k]).IsDir? && At(nodes, root, dirs[..k + 1]).Absent?;
      assert p[..k] == dirs[..k] && p[..k + 1] == dirs[..k + 1];
    }
    if At(nodes, root, dirs).IsDir? && At(nodes, root, p).Absent? {
      assert At(nodes, root, p[..|dirs|]).IsDir? && At(nodes, root, p[..|dirs| + 1]).Absent?;
    }
  }

  function Cached(stack: seq<(string, Ino)>): (p: Path)
    ensures |p| == |stack|
    ensures forall i :: 0 <= i < |p| ==> p[i] == stack[i].0
  {
    seq(|stack|, i requires 0 <= i < |stack| => stack[i].0)
  }

  /** Every cached descriptor is the directory a fresh no-follow walk reaches. */
  ghost predicate Coherent(nodes: Nodes, root: Ino, stack: seq<(string, Ino)>) {
    forall k :: 0 <= k < |stack| ==>
      && Walk(nodes, root, Cached(stack)[..k + 1]) == Some(stack[k].1)
      && At(nodes, root, Cached(stack)[..k + 1]).IsDir?
  }

  function TipOf(root: Ino, stack: seq<(string, Ino)>): Ino {
    if stack == [] then root else stack[|stack| - 1].1
  }

  lemma TipIsCached(nodes: Nodes, root: Ino, stack: seq<(string, Ino)>)
    requires Rooted(nodes, root) && Coherent(nodes, root, stack)
    ensures Walk(nodes, root, Cached(stack)) == Some(TipOf(root, stack))
    ensures At(nodes, root, Cached(stack)).IsDir?
    ensures var d := TipOf(root, stack); d in nodes && nodes[d].Dir? && !nodes[d].removed
  {
    if stack != [] {
      assert Cached(stack)[..(|stack| - 1) + 1] == Cached(stack);
    }
    WalkLive(nodes, root, Cached(stack));
  }

  lemma CoherentKept(nodes: Nodes, nodes': Nodes, root: Ino, stack: seq<(string, Ino)>)
    requires Coherent(nodes, root, stack)
    requires forall q :: q <= Cached(stack) ==>
      Walk(nodes', root, q) == Walk(nodes, root, q) && (At(nodes, root, q).IsDir? ==> At(nodes', root, q).IsDir?)
    ensures Coherent(nodes', root, stack)
  {
  }

  lemma CoherentPrefix(nodes: Nodes, root: Ino, stack: seq<(string, Ino)>, k: nat)
    requires Coherent(nodes, root, stack) && k <= |stack|
    ensures Coherent(nodes, root, stack[..k])
  {
    var low := stack[..k];
    forall i | 0 <= i < |low|
      ensures Walk(nodes, root, Cached(low)[..i + 1]) == Some(low[i].1) && At(nodes, root, Cached(low)[..i + 1]).IsDir?
    {
      assert Cached(low)[..i + 1] == Cached(stack)[..i + 1];
    }
  }

  lemma CoherentPush(nodes: Nodes, root: Ino, stack: seq<(string, Ino)>, n: string, x: Ino)
    requires Coherent(nodes, root, stack)
    requires Walk(nodes, root, Cached(stack) + [n]) == Some(x) && At(nodes, root, Cached(stack) + [n]).IsDir?
    ensures Cached(stack + [(n, x)]) == Cached(stack) + [n]
    ensures Coherent(nodes, root, stack + [(n, x)])
  {
    var stack' := stack + [(n, x)];
    assert Cached(stack') == Cached(stack) + [n];
    forall i | 0 <= i < |stack'|
      ensures Walk(nodes, root, Cached(stack')[..i + 1]) == Some(stack'[i].1) && At(nodes, root, Cached(stack')[..i + 1]).IsDir?
    {
      if i < |stack| {
        assert Cached(stack')[..i + 1] == Cached(stack)[..i + 1];
      } else {
        assert Cached(stack')[..i + 1] == Cached(stack) + [n];
      }
    }
  }

  /** What one name in the tip directory is, seen as a path. */
  lemma NameAtTip(nodes: Nodes, root: Ino, stack: seq<(string, Ino)>, n: string)
    requires Rooted(nodes, root) && Coherent(nodes, root, stack)
    ensures var d, p := TipOf(root, stack), Cached(stack) + [n];
      && d in nodes && nodes[d].Dir? && !nodes[d].removed
      && Walk(nodes, root, Cached(stack)) == Some(d)
      && (Has(nodes, d, n) <==> !At(nodes, root, p).Absent?)
      && (Has(nodes, d, n) ==>
            && Get(nodes, d, n) in nodes && Walk(nodes, root, p) == Some(Get(nodes, d, n))
            && At(nodes, root, p) == Show(nodes[Get(nodes, d, n)]))
  {
    TipIsCached(nodes, root, stack);
    WalkStep(nodes, root, Cached(stack), n);
  }

  lemma OccupiedIsNonEmpty(nodes: Nodes, root: Ino, p: Path, x: Ino)
    requires Rooted(nodes, root) && Walk(nodes, root, p) == Some(x)
    ensures x in nodes
    ensures Occupied(nodes, root, p) <==> nodes[x].Dir? && nodes[x].entries != map[]
  {
    WalkLive(nodes, root, p);
    if nodes[x].Dir? && nodes[x].entries != map[] {
      var n :| n in nodes[x].entries;
      WalkStep(nodes, root, p, n);
      assert Has(nodes, x, n);
      assert !At(nodes, root, p + [n]).Absent?;
    }
    if Occupied(nodes, root, p) {
      var n :| !At(nodes, root, p + [n]).Absent?;
      WalkStep(nodes, root, p, n);
    }
  }

  lemma OpenedOccupied(nodes: Nodes, nodes': Nodes, root: Ino, dirs: Path, n: string)
    requires Opened(nodes, nodes', root, dirs)
    ensures Occupied(nodes', root, dirs + [n]) <==> Occupied(nodes, root, dirs + [n])
    ensures At(nodes', root, dirs + [n]) == At(nodes, root, dirs + [n])
  {
    assert !(dirs + [n] <= dirs);
    forall m ensures At(nodes', root, dirs + [n] + [m]) == At(nodes, root, dirs + [n] + [m]) {
      assert !(dirs + [n] + [m] <= dirs);
    }
  }

  lemma PrefixStep(p: Path, k: nat)
    requires k < |p|
    ensures p[..k + 1] == p[..k] + [p[k]]
  {
  }

  lemma OpenedAlready(nodes: Nodes, root: Ino, dirs: Path)
    requires Rooted(nodes, root) && At(nodes, root, dirs).IsDir?
    ensures Opened(nodes, nodes, root, dirs)
  {
    forall q | q <= dirs ensures At(nodes, root, q).IsDir? {
      WalkAbove(nodes, root, dirs, q);
      assert q == dirs || q < dirs;
    }
  }

  /** One more directory opened below a prefix that already is. */
  lemma OpenedStep(a: Nodes, b: Nodes, c: Nodes, root: Ino, dirs: Path, n: string)
    requires Opened(a, b, root, dirs)
    requires OpenedOne(b, c, root, dirs + [n])
    ensures Opened(a, c, root, dirs + [n])
  {
    forall q ensures At(c, root, q) ==
      if q <= dirs + [n] && !At(a, root, q).IsDir? then IsDir(NEW_DIR_MODE) else At(a, root, q)
    {
      assert q <= dirs + [n] <==> q <= dirs || q == dirs + [n];
    }
  }

  lemma PlacedAfterOpened(a: Nodes, b: Nodes, c: Nodes, root: Ino, p: Path, v: View)
    requires p != [] && Opened(a, b, root, p[..|p| - 1])
    requires OnlyAt(b, c, root, p)
    requires At(c, root, p) == v
    ensures Placed(a, c, root, p, v)
  {
    forall q ensures At(c, root, q) ==
      if q == p then v else if q < p && !At(a, root, q).IsDir? then IsDir(NEW_DIR_MODE) else At(a, root, q)
    {
      if q != p { assert q < p <==> q <= p[..|p| - 1]; }
    }
  }

  lemma CachedOne(stack: seq<(string, Ino)>, dirs: Path, k: nat)
    requires stack != [] && dirs != [] && stack[0].0 == dirs[0] && k < |stack| && k < |dirs|
    requires Cached(stack[1..])[..k] == dirs[1..][..k]
    ensures Cached(stack)[..k + 1] == dirs[..k + 1]
  {
    assert Cached(stack)[..k + 1] == [stack[0].0] + Cached(stack[1..])[..k];
    assert dirs[..k + 1] == [dirs[0]] + dirs[1..][..k];
  }

  function Shared(stack: seq<(string, Ino)>, dirs: Path): (k: nat)
    ensures k <= |stack| && k <= |dirs|
    ensures Cached(stack)[..k] == dirs[..k]
    ensures k < |stack| && k < |dirs| ==> stack[k].0 != dirs[k]
  {
    if stack == [] || dirs == [] || stack[0].0 != dirs[0] then 0
    else
      var k := Shared(stack[1..], dirs[1..]);
      CachedOne(stack, dirs, k);
      k + 1
  }

  lemma DirAbove(nodes: Nodes, root: Ino, dirs: Path, k: nat)
    requires Rooted(nodes, root) && k <= |dirs|
    ensures At(nodes, root, dirs).IsDir? ==> At(nodes, root, dirs[..k]).IsDir?
  {
    if At(nodes, root, dirs).IsDir? {
      if k == |dirs| { assert dirs[..k] == dirs; }
      WalkAbove(nodes, root, dirs, dirs[..k]);
    }
  }

  /** A file with no other name than `p`: it is truncated in place, and keeps its inode and mode. */
  ghost predicate Sole(nodes: Nodes, root: Ino, p: Path) {
    At(nodes, root, p).IsFile? && Walk(nodes, root, p).Some? && LinkCount(nodes, Walk(nodes, root, p).value) <= 1
  }

  /** The mode of a file just opened for writing: its own if it was reused, else the one asked for. */
  ghost function ModeThen(nodes: Nodes, root: Ino, p: Path, mode: nat): nat {
    if Sole(nodes, root, p) then At(nodes, root, p).mode else PermBits(mode)
  }

  /** Opening the directories above does nothing to a file that is there already. */
  lemma SoleOrNot(before: Nodes, below: Nodes, root: Ino, dirs: Path, n: string)
    requires Rooted(before, root) && Opened(before, below, root, dirs)
    requires At(before, root, dirs).IsDir? ==> below == before
    ensures Sole(below, root, dirs + [n]) <==> Sole(before, root, dirs + [n])
    ensures Sole(before, root, dirs + [n]) ==> below == before
  {
    var p := dirs + [n];
    if !At(before, root, dirs).IsDir? {
      if Walk(before, root, p).Some? { WalkAbove(before, root, p, dirs); }
      assert At(below, root, p) == At(before, root, p);
    }
  }

  class RootDir {
    const fs: FileSystem
    const root: Ino
    var stack: seq<(string, Ino)>

    ghost predicate Valid()
      reads this, fs
    {
      Rooted(fs.nodes, root) && Coherent(fs.nodes, root, stack)
    }

    constructor (fs: FileSystem, root: Ino)
      requires Rooted(fs.nodes, root)
      ensures Valid() && this.fs == fs && this.root == root && stack == []
    {
      this.fs := fs;
      this.root := root;
      this.stack := [];
    }

    /** unlinkat of a name in the tip; a name that is already gone is no error */
    method RemoveAt(n: string, dir: bool) returns (r: Result<(), Error>)
      requires Valid()
      modifies fs
      ensures Valid() && Quiet(old(fs.nodes), fs.nodes, root)
      ensures r == UnlinkResult(old(fs.nodes), root, Cached(stack) + [n], dir)
      ensures r.Err? ==> fs.nodes == old(fs.nodes)
      ensures r.Ok? ==> forall q :: At(fs.nodes, root, q) == if q == Cached(stack) + [n] then Absent else At(old(fs.nodes), root, q)
      ensures forall q :: q != Cached(stack) + [n] ==> Walk(fs.nodes, root, q) == Walk(old(fs.nodes), root, q)
    {
      hide Rooted, Coherent, Quiet, Occupied;
      ghost var before := fs.nodes;
      QuietItself(before, root);
      NameAtTip(fs.nodes, root, stack, n);
      if Has(fs.nodes, TipOf(root, stack), n) {
        OccupiedIsNonEmpty(fs.nodes, root, Cached(stack) + [n], Get(fs.nodes, TipOf(root, stack), n));
      }
      var u := fs.UnlinkAt(TipOf(root, stack), n, dir);
      match u
      case Ok(_) =>
        UnlinkEffect(before, root, Cached(stack), TipOf(root, stack), n);
        CoherentKept(before, fs.nodes, root, stack);
        r := Ok(());
      case Err(e) =>
        r := if e == NOENT then Ok(()) else Err(Io(e));
    }

    /** Open the next component as a directory; with `create`, make it one. */
    method OpenDirComponent(n: string, create: bool) returns (r: Result<Ino, Error>)
      requires Valid() && ValidName(n)
      modifies fs
      ensures Valid() && Quiet(old(fs.nodes), fs.nodes, root)
      ensures create ==> r.Ok?
      ensures r.Ok? ==> Walk(fs.nodes, root, Cached(stack) + [n]) == Some(r.value) && At(fs.nodes, root, Cached(stack) + [n]).IsDir?
      ensures create ==> OpenedOne(old(fs.nodes), fs.nodes, root, Cached(stack) + [n])
      ensures At(old(fs.nodes), root, Cached(stack) + [n]).IsDir? ==> fs.nodes == old(fs.nodes)
      ensures !create ==> fs.nodes == old(fs.nodes)
      ensures !create ==> (r.Ok? <==> At(fs.nodes, root, Cached(stack) + [n]).IsDir?)
      ensures r.Err? ==> r.error == if At(fs.nodes, root, Cached(stack) + [n]).Absent? then Io(NOENT) else UnsafePath(NotADirectory)
    {
      hide Rooted, Coherent, Quiet, Walk, Occupied;
      ghost var before := fs.nodes;
      QuietItself(before, root);
      ghost var p := Cached(stack) + [n];
      var tip := TipOf(root, stack);
      var attempt := 0;
      while attempt < REPLACE_ATTEMPTS
        invariant Valid() && Quiet(before, fs.nodes, root)
        invariant forall q :: q != p ==> At(fs.nodes, root, q) == At(before, root, q)
        invariant attempt == 0 ==> fs.nodes == before
        invariant attempt == 1 ==> create && !At(before, root, p).IsDir? && (At(fs.nodes, root, p).Absent? || At(fs.nodes, root, p) == IsDir(NEW_DIR_MODE))
        invariant attempt == 2 ==> create && !At(before, root, p).IsDir? && At(fs.nodes, root, p) == IsDir(NEW_DIR_MODE)
        invariant attempt <= 2
      {
        NameAtTip(fs.nodes, root, stack, n);
        var got := fs.OpenDirAt(tip, n);
        match got {
          case Ok(x) => return Ok(x);
          case Err(NOENT) => if !create { return Err(Io(NOENT)); }
          case Err(_) => if !create { return Err(UnsafePath(NotADirectory)); }
        }
        ghost var now := fs.nodes;
        var made := fs.MkDirAt(tip, n, NEW_DIR_MODE);
        if made.Ok? {
          LinkNewEffect(now, root, Cached(stack), tip, n, made.value, Dir(map[], NEW_DIR_MODE, false));
          CoherentKept(now, fs.nodes, root, stack);
        } else {
          NameAtTip(fs.nodes, root, stack, n);
          var st := fs.StatAt(tip, n);
          if st.Ok? && !fs.nodes[st.value].Dir? {
            OccupiedIsNonEmpty(fs.nodes, root, p, st.value);
            var gone := RemoveAt(n, false);
            assert gone.Ok?;
          }
        }
        QuietTransitive(before, now, fs.nodes, root);
        attempt := attempt + 1;
      }
      return Err(UnsafePath(KeptChanging));
    }

    /** Open one more component and cache its descriptor. */
    method Push(n: string, create: bool) returns (r: Result<(), Error>)
      requires Valid() && ValidName(n)
      modifies this, fs
      ensures Valid() && Quiet(old(fs.nodes), fs.nodes, root)
      ensures Cached(stack) == old(Cached(stack)) + if r.Ok? then [n] else []
      ensures create ==> r.Ok? && OpenedOne(old(fs.nodes), fs.nodes, root, old(Cached(stack)) + [n])
      ensures At(old(fs.nodes), root, old(Cached(stack)) + [n]).IsDir? ==> fs.nodes == old(fs.nodes)
      ensures !create ==> fs.nodes == old(fs.nodes)
      ensures !create ==> (r.Ok? <==> At(fs.nodes, root, old(Cached(stack)) + [n]).IsDir?)
      ensures r.Err? ==> r.error == if At(fs.nodes, root, old(Cached(stack)) + [n]).Absent? then Io(NOENT) else UnsafePath(NotADirectory)
    {
      var got := OpenDirComponent(n, create);
      if got.Err? { return Err(got.error); }
      CoherentPush(fs.nodes, root, stack, n, got.value);
      stack := stack + [(n, got.value)];
      return Ok(());
    }

    /** Keep what the cache shares with `dirs`. */
    method Truncate(dirs: Path)
      requires Valid()
      modifies this
      ensures Valid() && |stack| <= |dirs| && Cached(stack) == dirs[..|stack|]
    {
      var depth := Shared(stack, dirs);
      CoherentPrefix(fs.nodes, root, stack, depth);
      assert Cached(stack[..depth]) == dirs[..depth];
      stack := stack[..depth];
    }

    /** Move the cache to `dirs`. */
    method Descend(dirs: Path, create: bool) returns (r: Result<(), Error>)
      requires Valid() && ValidPath(dirs)
      modifies this, fs
      ensures Valid() && Quiet(old(fs.nodes), fs.nodes, root)
      ensures r.Ok? ==> Cached(stack) == dirs
      ensures create ==> r.Ok? && Opened(old(fs.nodes), fs.nodes, root, dirs)
      ensures At(old(fs.nodes), root, dirs).IsDir? ==> fs.nodes == old(fs.nodes)
      ensures !create ==> fs.nodes == old(fs.nodes) && (r.Ok? <==> At(fs.nodes, root, dirs).IsDir?)
      ensures r.Err? ==> r.error == if Missing(fs.nodes, root, dirs) then Io(NOENT) else UnsafePath(NotADirectory)
    {
      hide Rooted, Coherent, Quiet, Opened, OpenedOne, Missing, At, Cached;
      ghost var before := fs.nodes;
      QuietItself(before, root);
      Truncate(dirs);
      TipIsCached(fs.nodes, root, stack);
      OpenedAlready(fs.nodes, root, dirs[..|stack|]);
      while |stack| < |dirs|
        invariant |stack| <= |dirs|
        invariant Valid() && Cached(stack) == dirs[..|stack|]
        invariant Quiet(before, fs.nodes, root)
        invariant create ==> Opened(before, fs.nodes, root, dirs[..|stack|])
        invariant !create || At(before, root, dirs).IsDir? ==> fs.nodes == before
        decreases |dirs| - |stack|
      {
        ghost var now := fs.nodes;
        var depth := |stack|;
        DirAbove(before, root, dirs, depth + 1);
        TipIsCached(fs.nodes, root, stack);
        PrefixStep(dirs, depth);
        var got := Push(dirs[depth], create);
        if got.Err? {
          NotThrough(fs.nodes, root, dirs, depth);
          return got;
        }
        if create { OpenedStep(before, now, fs.nodes, root, dirs[..depth], dirs[depth]); }
        QuietTransitive(before, now, fs.nodes, root);
      }
      assert dirs[..|stack|] == dirs;
      TipIsCached(fs.nodes, root, stack);
      return Ok(());
    }

    // ---- operations ----------------------------------------------------------

    /** Make `comps` a real directory. */
    method CreateDir(comps: Path) returns (r: Result<(), Error>)
      requires Valid() && ValidPath(comps)
      modifies this, fs
      ensures Valid() && Quiet(old(fs.nodes), fs.nodes, root)
      ensures r.Ok? && Opened(old(fs.nodes), fs.nodes, root, comps)
    {
      if comps == [] {
        TipIsCached(fs.nodes, root, []);
        OpenedAlready(fs.nodes, root, []);
        return Ok(());
      }
      r := Descend(comps, true);
    }

    /** Create `n` in the tip, which holds no such name. */
    method CreateExcl(n: string, mode: nat) returns (r: Result<Ino, Error>)
      requires Valid() && ValidName(n) && mode < 0x1000
      modifies fs
      ensures Valid() && Quiet(old(fs.nodes), fs.nodes, root)
      ensures r.Ok? <==> At(old(fs.nodes), root, Cached(stack) + [n]).Absent?
      ensures r.Err? ==> fs.nodes == old(fs.nodes) && r.error == Io(EXIST)
      ensures r.Ok? ==> Emptied(fs.nodes, root, Cached(stack) + [n], r.value) && At(fs.nodes, root, Cached(stack) + [n]) == IsFile([], mode)
      ensures OnlyAt(old(fs.nodes), fs.nodes, root, Cached(stack) + [n])
    {
      ghost var before := fs.nodes;
      var tip := TipOf(root, stack);
      NameAtTip(fs.nodes, root, stack, n);
      var made := fs.CreateExclAt(tip, n, mode);
      if made.Err? { return Err(Io(made.error)); }
      LinkNewEffect(before, root, Cached(stack), tip, n, made.value, File([], mode));
      CoherentKept(before, fs.nodes, root, stack);
      return Ok(made.value);
    }

    /** Reopen the file at `n` for writing if this is its only name; otherwise take the
        name away, so that a write cannot reach the inode's other names. */
    method ReuseOrRemove(n: string) returns (r: Option<Ino>)
      requires Valid() && ValidName(n)
      requires At(fs.nodes, root, Cached(stack) + [n]).IsFile?
      modifies fs
      ensures Valid() && Quiet(old(fs.nodes), fs.nodes, root)
      ensures OnlyAt(old(fs.nodes), fs.nodes, root, Cached(stack) + [n])
      ensures r.Some? <==> Sole(old(fs.nodes), root, Cached(stack) + [n])
      ensures r.Some? ==> Emptied(fs.nodes, root, Cached(stack) + [n], r.value) && r == Walk(old(fs.nodes), root, Cached(stack) + [n])
      ensures r.Some? ==> At(fs.nodes, root, Cached(stack) + [n]) == IsFile([], At(old(fs.nodes), root, Cached(stack) + [n]).mode)
      ensures r.None? ==> At(fs.nodes, root, Cached(stack) + [n]).Absent?
    {
      ghost var before := fs.nodes;
      ghost var p := Cached(stack) + [n];
      var tip := TipOf(root, stack);
      NameAtTip(fs.nodes, root, stack, n);
      var fd := fs.OpenAt(tip, n, true);
      assert fd.Ok?;
      OccupiedIsNonEmpty(fs.nodes, root, p, fd.value);
      if LinkCount(fs.nodes, fd.value) > 1 {
        var gone := RemoveAt(n, false);
        assert gone.Ok?;
        return None;
      }
      var node := File([], fs.nodes[fd.value].mode);
      fs.Rewrite(fd.value, node);
      RewriteEffect(before, root, p, fd.value, node);
      CoherentKept(before, fs.nodes, root, stack);
      return Some(fd.value);
    }

    /** One attempt at the file `n`: created or reopened, or whatever was in the way is gone. */
    method TryCreateFile(n: string, mode: nat) returns (r: Result<Option<Ino>, Error>)
      requires Valid() && ValidName(n)
      modifies fs
      ensures Valid() && Quiet(old(fs.nodes), fs.nodes, root)
      ensures OnlyAt(old(fs.nodes), fs.nodes, root, Cached(stack) + [n])
      ensures r.Err? <==> Occupied(old(fs.nodes), root, Cached(stack) + [n])
      ensures r.Err? ==> r.error == Io(NOTEMPTY) && fs.nodes == old(fs.nodes)
      ensures At(old(fs.nodes), root, Cached(stack) + [n]).Absent? ==> r.Ok? && r.value.Some?
      ensures r.Ok? && r.value.Some? ==> Emptied(fs.nodes, root, Cached(stack) + [n], r.value.value)
      ensures r.Ok? && r.value.Some? ==> At(fs.nodes, root, Cached(stack) + [n]) == IsFile([], ModeThen(old(fs.nodes), root, Cached(stack) + [n], mode))
      ensures Sole(old(fs.nodes), root, Cached(stack) + [n]) ==> r.Ok? && r.value == Walk(old(fs.nodes), root, Cached(stack) + [n])
      ensures r.Ok? && r.value.None? ==> At(fs.nodes, root, Cached(stack) + [n]).Absent?
    {
      ghost var p := Cached(stack) + [n];
      var made := CreateExcl(n, PermBits(mode));
      if made.Ok? {
        AbsentIsNotOccupied(old(fs.nodes), root, p);
        return Ok(Some(made.value));
      }
      NameAtTip(fs.nodes, root, stack, n);
      var st := fs.StatAt(TipOf(root, stack), n);
      assert st.Ok?;
      OccupiedIsNonEmpty(fs.nodes, root, p, st.value);
      if fs.nodes[st.value].File? {
        var reused := ReuseOrRemove(n);
        return Ok(reused);
      }
      var gone := RemoveAt(n, fs.nodes[st.value].Dir?);
      return if gone.Ok? then Ok(None) else Err(gone.error);
    }

    /** Open the file at `comps` for writing, truncated. Whatever else is there is replaced,
        never written through, except a directory that holds something. */
    method CreateFile(comps: Path, mode: nat) returns (r: Result<Ino, Error>)
      requires Valid() && ValidPath(comps)
      modifies this, fs
      ensures Valid() && Quiet(old(fs.nodes), fs.nodes, root)
      ensures r.Ok? <==> comps != [] && !Occupied(old(fs.nodes), root, comps)
      ensures r.Err? ==> r.error == if comps == [] then InvalidManifest else Io(NOTEMPTY)
      ensures r.Err? ==> if comps == [] then fs.nodes == old(fs.nodes) else Opened(old(fs.nodes), fs.nodes, root, comps[..|comps| - 1])
      ensures r.Ok? ==> Emptied(fs.nodes, root, comps, r.value)
      ensures r.Ok? ==> Placed(old(fs.nodes), fs.nodes, root, comps, IsFile([], ModeThen(old(fs.nodes), root, comps, mode)))
      ensures Sole(old(fs.nodes), root, comps) ==> r == Ok(Walk(old(fs.nodes), root, comps).value)
    {
      if comps == [] { return Err(InvalidManifest); }
      ghost var before := fs.nodes;
      var dirs, n := comps[..|comps| - 1], comps[|comps| - 1];
      assert comps == dirs + [n];
      var down := Descend(dirs, true);
      assert down.Ok?;
      ghost var below := fs.nodes;
      OpenedOccupied(before, below, root, dirs, n);
      var attempt := 0;
      while attempt < REPLACE_ATTEMPTS
        invariant Valid() && Cached(stack) == dirs && Quiet(before, fs.nodes, root)
        invariant OnlyAt(below, fs.nodes, root, comps)
        invariant attempt == 0 ==> fs.nodes == below
        invariant attempt == 1 ==> At(fs.nodes, root, comps).Absent? && !Occupied(below, root, comps) && !Sole(below, root, comps)
        invariant attempt <= 1
      {
        ghost var now := fs.nodes;
        if attempt == 1 { AbsentIsNotOccupied(now, root, comps); }
        SoleOrNot(before, below, root, dirs, n);
        var tried := TryCreateFile(n, mode);
        QuietTransitive(before, now, fs.nodes, root);
        if tried.Err? { return Err(tried.error); }
        OnlyAtTransitive(below, now, fs.nodes, root, comps);
        if tried.value.Some? {
          PlacedAfterOpened(before, below, fs.nodes, root, comps, At(fs.nodes, root, comps));
          assert ModeThen(now, root, comps, mode) == ModeThen(before, root, comps, mode);
          return Ok(tried.value.value);
        }
        attempt := attempt + 1;
      }
      return Err(UnsafePath(KeptChanging));
    }

    method NewSymlink(n: string, text: string) returns (r: Result<(), Error>)
      requires Valid() && ValidName(n)
      modifies fs
      ensures Valid() && Quiet(old(fs.nodes), fs.nodes, root)
      ensures r.Ok? <==> At(old(fs.nodes), root, Cached(stack) + [n]).Absent?
      ensures r.Err? ==> fs.nodes == old(fs.nodes) && r.error == Io(EXIST)
      ensures r.Ok? ==> At(fs.nodes, root, Cached(stack) + [n]) == IsLink(text)
      ensures OnlyAt(old(fs.nodes), fs.nodes, root, Cached(stack) + [n])
    {
      ghost var before := fs.nodes;
      var tip := TipOf(root, stack);
      NameAtTip(fs.nodes, root, stack, n);
      var made := fs.SymlinkAt(text, tip, n);
      if made.Err? { return Err(Io(made.error)); }
      LinkNewEffect(before, root, Cached(stack), tip, n, made.value, Symlink(text));
      CoherentKept(before, fs.nodes, root, stack);
      return Ok(());
    }

    /** One attempt at the symlink `n`. */
    method TryCreateSymlink(n: string, text: string) returns (r: Result<bool, Error>)
      requires Valid() && ValidName(n)
      modifies fs
      ensures Valid() && Quiet(old(fs.nodes), fs.nodes, root)
      ensures OnlyAt(old(fs.nodes), fs.nodes, root, Cached(stack) + [n])
      ensures r.Err? <==> Occupied(old(fs.nodes), root, Cached(stack) + [n])
      ensures r.Err? ==> r.error == Io(NOTEMPTY) && fs.nodes == old(fs.nodes)
      ensures At(old(fs.nodes), root, Cached(stack) + [n]).Absent? ==> r == Ok(true)
      ensures r == Ok(true) ==> At(fs.nodes, root, Cached(stack) + [n]) == IsLink(text)
      ensures r == Ok(false) ==> At(fs.nodes, root, Cached(stack) + [n]).Absent?
    {
      ghost var p := Cached(stack) + [n];
      var made := NewSymlink(n, text);
      if made.Ok? {
        AbsentIsNotOccupied(old(fs.nodes), root, p);
        return Ok(true);
      }
      NameAtTip(fs.nodes, root, stack, n);
      var st := fs.StatAt(TipOf(root, stack), n);
      assert st.Ok?;
      OccupiedIsNonEmpty(fs.nodes, root, p, st.value);
      var gone := RemoveAt(n, fs.nodes[st.value].Dir?);
      return if gone.Ok? then Ok(false) else Err(gone.error);
    }

    /** Create the symlink at `comps`, replacing whatever is there except a directory that
        holds something. */
    method CreateSymlink(comps: Path, text: string) returns (r: Result<(), Error>)
      requires Valid() && ValidPath(comps)
      modifies this, fs
      ensures Valid() && Quiet(old(fs.nodes), fs.nodes, root)
      ensures r.Ok? <==> comps != [] && !Occupied(old(fs.nodes), root, comps)
      ensures r.Err? ==> r.error == if comps == [] then InvalidManifest else Io(NOTEMPTY)
      ensures r.Err? ==> if comps == [] then fs.nodes == old(fs.nodes) else Opened(old(fs.nodes), fs.nodes, root, comps[..|comps| - 1])
      ensures r.Ok? ==> Placed(old(fs.nodes), fs.nodes, root, comps, IsLink(text))
    {
      if comps == [] { return Err(InvalidManifest); }
      ghost var before := fs.nodes;
      var dirs, n := comps[..|comps| - 1], comps[|comps| - 1];
      assert comps == dirs + [n];
      var down := Descend(dirs, true);
      assert down.Ok?;
      ghost var below := fs.nodes;
      OpenedOccupied(before, below, root, dirs, n);
      var attempt := 0;
      while attempt < REPLACE_ATTEMPTS
        invariant Valid() && Cached(stack) == dirs && Quiet(before, fs.nodes, root)
        invariant OnlyAt(below, fs.nodes, root, comps)
        invariant attempt == 0 ==> fs.nodes == below
        invariant attempt == 1 ==> At(fs.nodes, root, comps).Absent? && !Occupied(below, root, comps)
        invariant attempt <= 1
      {
        ghost var now := fs.nodes;
        if attempt == 1 { AbsentIsNotOccupied(now, root, comps); }
        var tried := TryCreateSymlink(n, text);
        QuietTransitive(before, now, fs.nodes, root);
        if tried.Err? { return Err(tried.error); }
        OnlyAtTransitive(below, now, fs.nodes, root, comps);
        if tried.value {
          PlacedAfterOpened(before, below, fs.nodes, root, comps, IsLink(text));
          return Ok(());
        }
        attempt := attempt + 1;
      }
      return Err(UnsafePath(KeptChanging));
    }

    /** fchmod the directory at `comps` through its own descriptor. */
    method ChmodDir(comps: Path, mode: nat) returns (r: Result<(), Error>)
      requires Valid() && ValidPath(comps)
      modifies this, fs
      ensures Valid() && Quiet(old(fs.nodes), fs.nodes, root)
      ensures r.Ok? <==> At(old(fs.nodes), root, comps).IsDir?
      ensures r.Err? ==> fs.nodes == old(fs.nodes)
      ensures r.Err? ==> r.error == if Missing(fs.nodes, root, comps) then Io(NOENT) else UnsafePath(NotADirectory)
      ensures r.Ok? ==> forall q :: At(fs.nodes, root, q) == if q == comps then IsDir(PermBits(mode)) else At(old(fs.nodes), root, q)
    {
      ghost var before := fs.nodes;
      r := Descend(comps, false);
      if r.Ok? {
        TipIsCached(fs.nodes, root, stack);
        var tip := TipOf(root, stack);
        var node := Dir(fs.nodes[tip].entries, PermBits(mode), fs.nodes[tip].removed);
        fs.Rewrite(tip, node);
        RewriteEffect(before, root, comps, tip, node);
        CoherentKept(before, fs.nodes, root, stack);
      }
    }

    /** Open a regular file for reading, with the facts of the descriptor itself. */
    method OpenFile(comps: Path) returns (r: Result<FileFacts, Error>)
      requires Valid() && ValidPath(comps)
      modifies this, fs
      ensures Valid() && fs.nodes == old(fs.nodes)
      ensures r.Ok? <==> At(fs.nodes, root, comps).IsFile?
      ensures r.Ok? ==> FactsOf(fs.nodes, root, comps, r.value)
      ensures r.Err? ==> r.error == NotReached(fs.nodes, root, comps, NotReadable(At(fs.nodes, root, comps)))
    {
      hide Rooted, Coherent, Quiet, Missing;
      if comps == [] {
        TipIsCached(fs.nodes, root, []);
        return Err(InvalidManifest);
      }
      var dirs, n := comps[..|comps| - 1], comps[|comps| - 1];
      assert comps == dirs + [n];
      MissingSplits(fs.nodes, root, dirs, n);
      var down := Descend(dirs, false);
      if down.Err? {
        NotBelow(fs.nodes, root, dirs, n);
        return Err(down.error);
      }
      ReachedIsNotMissing(fs.nodes, root, dirs);
      NameAtTip(fs.nodes, root, stack, n);
      var fd := fs.OpenAt(TipOf(root, stack), n, false);
      if fd.Err? { return Err(if fd.error == LOOP then UnsafePath(NotARegularFile) else Io(fd.error)); }
      var node := fs.nodes[fd.value];
      if !node.File? { return Err(UnsafePath(NotARegularFile)); }
      FactsAre(fs.nodes, root, comps, fd.value);
      return Ok(FileFacts(fd.value, LinkCount(fs.nodes, fd.value), StMode(Show(node)), |node.bytes|));
    }

    /** Does this name still lead to a regular file, and to which inode? */
    method StatFile(comps: Path) returns (r: Result<Option<FileFacts>, Error>)
      requires Valid() && ValidPath(comps)
      modifies this, fs
      ensures Valid() && fs.nodes == old(fs.nodes)
      ensures r.Err? <==> comps == []
      ensures r.Ok? ==> (r.value.Some? <==> At(fs.nodes, root, comps).IsFile?)
      ensures r.Ok? && r.value.Some? ==> FactsOf(fs.nodes, root, comps, r.value.value)
    {
      if comps == [] { return Err(InvalidManifest); }
      var dirs, n := comps[..|comps| - 1], comps[|comps| - 1];
      assert comps == dirs + [n];
      var down := Descend(dirs, false);
      if down.Err? {
        NotBelow(fs.nodes, root, dirs, n);
        return Ok(None);
      }
      NameAtTip(fs.nodes, root, stack, n);
      var st := fs.StatAt(TipOf(root, stack), n);
      if st.Err? || !fs.nodes[st.value].File? { return Ok(None); }
      var node := fs.nodes[st.value];
      FactsAre(fs.nodes, root, comps, st.value);
      return Ok(Some(FileFacts(st.value, LinkCount(fs.nodes, st.value), StMode(Show(node)), |node.bytes|)));
    }

    /** The text of the symlink at `comps`; never what it points to. */
    method ReadLink(comps: Path) returns (r: Result<string, Error>)
      requires Valid() && ValidPath(comps)
      modifies this, fs
      ensures Valid() && fs.nodes == old(fs.nodes)
      ensures r.Ok? <==> At(fs.nodes, root, comps).IsLink?
      ensures r.Ok? ==> At(fs.nodes, root, comps) == IsLink(r.value)
      ensures r.Err? ==> r.error == NotReached(fs.nodes, root, comps, Io(INVAL))
    {
      hide Rooted, Coherent, Quiet, Missing;
      if comps == [] {
        TipIsCached(fs.nodes, root, []);
        return Err(InvalidManifest);
      }
      var dirs, n := comps[..|comps| - 1], comps[|comps| - 1];
      assert comps == dirs + [n];
      MissingSplits(fs.nodes, root, dirs, n);
      var down := Descend(dirs, false);
      if down.Err? {
        NotBelow(fs.nodes, root, dirs, n);
        return Err(down.error);
      }
      ReachedIsNotMissing(fs.nodes, root, dirs);
      NameAtTip(fs.nodes, root, stack, n);
      var st := fs.StatAt(TipOf(root, stack), n);
      if st.Err? { return Err(Io(st.error)); }
      var node := fs.nodes[st.value];
      if node.Symlink? { return Ok(node.text); }
      return Err(Io(INVAL));
    }

    /** Remove the node a manifest path names: the link itself, or an empty directory. */
    method RemovePath(path: string) returns (r: Result<bool, Error>)
      requires Valid()
      modifies this, fs
      ensures Valid() && Quiet(old(fs.nodes), fs.nodes, root)
      ensures r == RemovalVerdict(old(fs.nodes), root, path)
      ensures r != Ok(true) ==> fs.nodes == old(fs.nodes)
      ensures r == Ok(true) ==> Cleared(old(fs.nodes), fs.nodes, root, LexicalComponents(path).value)
    {
      hide Rooted, Coherent, Quiet, Missing, Occupied, LexicalComponents;
      QuietItself(fs.nodes, root);
      var parsed := LexicalComponents(path);
      if parsed.None? { return Err(PathTraversal); }
      ComponentsAreValid(path);
      var comps := parsed.value;
      if comps == [] { return Err(UnsafePath(TheRootItself)); }
      var dirs, n := comps[..|comps| - 1], comps[|comps| - 1];
      assert comps == dirs + [n];
      MissingSplits(fs.nodes, root, dirs, n);
      var down := Descend(dirs, false);
      if down.Err? {
        NotBelow(fs.nodes, root, dirs, n);
        AbsentIsNotOccupied(fs.nodes, root, comps);
        if down.error == Io(NOENT) { return Ok(false); }
        return Err(down.error);
      }
      ReachedIsNotMissing(fs.nodes, root, dirs);
      NameAtTip(fs.nodes, root, stack, n);
      var st := fs.StatAt(TipOf(root, stack), n);
      if st.Err? {
        AbsentIsNotOccupied(fs.nodes, root, comps);
        return Ok(false);
      }
      var gone := RemoveAt(n, fs.nodes[st.value].Dir?);
      if gone.Err? { return Err(gone.error); }
      return Ok(true);
    }
  }

  /** `p` is gone; nothing else looks different. */
  ghost predicate Cleared(nodes: Nodes, nodes': Nodes, root: Ino, p: Path) {
    && (forall q :: At(nodes', root, q) == if q == p then Absent else At(nodes, root, q))
    && (forall q :: q != p ==> Walk(nodes', root, q) == Walk(nodes, root, q))
  }

  /** An open, empty file whose only name is `p`. */
  ghost predicate Emptied(nodes: Nodes, root: Ino, p: Path, x: Ino) {
    && Walk(nodes, root, p) == Some(x) && x in nodes
    && nodes[x].File? && nodes[x].bytes == [] && LinkCount(nodes, x) <= 1
  }

  ghost predicate FactsOf(nodes: Nodes, root: Ino, p: Path, f: FileFacts) {
    && Walk(nodes, root, p) == Some(f.ino) && f.ino in nodes && nodes[f.ino].File?
    && f.nlink == LinkCount(nodes, f.ino)
    && f.mode / 0x1000 == 8 && f.mode % 0x1000 == nodes[f.ino].mode && f.size == |nodes[f.ino].bytes|
  }

  /** fstat of a regular file. */
  lemma FactsAre(nodes: Nodes, root: Ino, p: Path, x: Ino)
    requires Rooted(nodes, root) && Walk(nodes, root, p) == Some(x) && x in nodes && nodes[x].File?
    ensures FactsOf(nodes, root, p, FileFacts(x, LinkCount(nodes, x), StMode(Show(nodes[x])), |nodes[x].bytes|))
  {
  }

  lemma AbsentIsNotOccupied(nodes: Nodes, root: Ino, p: Path)
    requires At(nodes, root, p).Absent? && Rooted(nodes, root)
    ensures !Occupied(nodes, root, p)
  {
    if Occupied(nodes, root, p) {
      var n :| !At(nodes, root, p + [n]).Absent?;
      WalkAbove(nodes, root, p + [n], p);
    }
  }

  lemma ReachedIsNotMissing(nodes: Nodes, root: Ino, p: Path)
    requires Rooted(nodes, root) && !At(nodes, root, p).Absent?
    ensures !Missing(nodes, root, p)
  {
    hide Rooted;
    if Missing(nodes, root, p) {
      var k :| 0 <= k < |p| && At(nodes, root, p[..k]).IsDir? && At(nodes, root, p[..k + 1]).Absent?;
      WalkAbove(nodes, root, p, p[..k + 1]);
      WalkLive(nodes, root, p[..k + 1]);
    }
  }

  lemma NotBelow(nodes: Nodes, root: Ino, dirs: Path, n: string)
    requires Rooted(nodes, root) && !At(nodes, root, dirs).IsDir?
    ensures At(nodes, root, dirs + [n]).Absent?
  {
    if Walk(nodes, root, dirs + [n]).Some? { WalkAbove(nodes, root, dirs + [n], dirs); }
  }

  /** A path is not reached when one of its components is not a directory. */
  lemma NotThrough(nodes: Nodes, root: Ino, dirs: Path, depth: nat)
    requires Rooted(nodes, root) && depth < |dirs|
    requires At(nodes, root, dirs[..depth]).IsDir? && !At(nodes, root, dirs[..depth + 1]).IsDir?
    ensures !At(nodes, root, dirs).IsDir?
    ensures Missing(nodes, root, dirs) <==> At(nodes, root, dirs[..depth + 1]).Absent?
  {
    hide Rooted, Walk;
    if At(nodes, root, dirs).IsDir? && depth + 1 < |dirs| {
      WalkAbove(nodes, root, dirs, dirs[..depth + 1]);
    } else if depth + 1 == |dirs| {
      assert dirs[..depth + 1] == dirs;
    }
    if Missing(nodes, root, dirs) {
      var k :| 0 <= k < |dirs| && At(nodes, root, dirs[..k]).IsDir? && At(nodes, root, dirs[..k + 1]).Absent?;
      if k < depth { WalkAbove(nodes, root, dirs[..depth], dirs[..k + 1]); }
      if k > depth { WalkAbove(nodes, root, dirs[..k], dirs[..depth + 1]); }
    }
  }
}
