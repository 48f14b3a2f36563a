/** The kernel's side of the root-anchored resolver: one-component system calls relative
    to an open directory. None of them follows a symlink. Nothing else runs meanwhile. */
module FileSystems {
  import opened Basics
  import opened Paths
  import opened Disk
  import opened Errors

  class FileSystem {
    var nodes: Nodes

    constructor (nodes: Nodes)
      ensures this.nodes == nodes
    {
      this.nodes := nodes;
    }

    /** openat(O_DIRECTORY | O_NOFOLLOW) */
    function OpenDirAt(d: Ino, n: string): Result<Ino, Errno>
      reads this
    {
      if !Has(nodes, d, n) || Get(nodes, d, n) !in nodes then Err(NOENT)
      else match nodes[Get(nodes, d, n)]
        case Dir(_, _, _) => Ok(Get(nodes, d, n))
        case Symlink(_) => Err(LOOP)
        case _ => Err(NOTDIR)
    }

    /** statat(AT_SYMLINK_NOFOLLOW): which inode the name leads to */
    function StatAt(d: Ino, n: string): Result<Ino, Errno>
      reads this
    {
      if Has(nodes, d, n) then Ok(Get(nodes, d, n)) else Err(NOENT)
    }

    /** openat(O_NOFOLLOW | O_NONBLOCK) on something that is not a directory */
    function OpenAt(d: Ino, n: string, write: bool): Result<Ino, Errno>
      reads this
    {
      if !Has(nodes, d, n) || Get(nodes, d, n) !in nodes then Err(NOENT)
      else match nodes[Get(nodes, d, n)]
        case Symlink(_) => Err(LOOP)
        case Dir(_, _, _) => if write then Err(ISDIR) else Ok(Get(nodes, d, n))
        case Other(opens) => if write || !opens then Err(NXIO) else Ok(Get(nodes, d, n))
        case File(_, _) => Ok(Get(nodes, d, n))
    }

    predicate CanHold(d: Ino)
      reads this
    {
      d in nodes && nodes[d].Dir? && !nodes[d].removed
    }

    /** Allocate an inode for `node` and name it, unless the name is taken. */
    method CreateAt(d: Ino, n: string, node: Node) returns (r: Result<Ino, Errno>)
      modifies this
      ensures r.Ok? <==> old(CanHold(d) && n !in nodes[d].entries)
      ensures r.Ok? ==> r.value !in old(nodes) && nodes == LinkNew(old(nodes), d, n, r.value, node)
      ensures r.Err? ==> nodes == old(nodes) && r.error == if old(CanHold(d)) then EXIST else NOENT
    {
      if !CanHold(d) { return Err(NOENT); }
      if n in nodes[d].entries { return Err(EXIST); }
      FreshInoExists(nodes);
      var x: Ino :| x !in nodes;
      nodes := LinkNew(nodes, d, n, x, node);
      return Ok(x);
    }

    method MkDirAt(d: Ino, n: string, mode: nat) returns (r: Result<Ino, Errno>)
      modifies this
      ensures r.Ok? <==> old(CanHold(d) && n !in nodes[d].entries)
      ensures r.Ok? ==> r.value !in old(nodes) && nodes == LinkNew(old(nodes), d, n, r.value, Dir(map[], mode, false))
      ensures r.Err? ==> nodes == old(nodes) && r.error == if old(CanHold(d)) then EXIST else NOENT
    {
      r := CreateAt(d, n, Dir(map[], mode, false));
    }

    /** openat(O_CREAT | O_EXCL) */
    method CreateExclAt(d: Ino, n: string, mode: nat) returns (r: Result<Ino, Errno>)
      modifies this
      ensures r.Ok? <==> old(CanHold(d) && n !in nodes[d].entries)
      ensures r.Ok? ==> r.value !in old(nodes) && nodes == LinkNew(old(nodes), d, n, r.value, File([], mode))
      ensures r.Err? ==> nodes == old(nodes) && r.error == if old(CanHold(d)) then EXIST else NOENT
    {
      r := CreateAt(d, n, File([], mode));
    }

    method SymlinkAt(text: string, d: Ino, n: string) returns (r: Result<Ino, Errno>)
      modifies this
      ensures r.Ok? <==> old(CanHold(d) && n !in nodes[d].entries)
      ensures r.Ok? ==> r.value !in old(nodes) && nodes == LinkNew(old(nodes), d, n, r.value, Symlink(text))
      ensures r.Err? ==> nodes == old(nodes) && r.error == if old(CanHold(d)) then EXIST else NOENT
    {
      r := CreateAt(d, n, Symlink(text));
    }

    /** unlinkat: with `dir`, only an empty directory; without, anything but a directory */
    method UnlinkAt(d: Ino, n: string, dir: bool) returns (r: Result<(), Errno>)
      modifies this
      ensures r == old(UnlinkVerdict(d, n, dir))
      ensures nodes == if r.Ok? then Unlink(old(nodes), d, n) else old(nodes)
    {
      r := UnlinkVerdict(d, n, dir);
      if r.Ok? { nodes := Unlink(nodes, d, n); }
    }

    function UnlinkVerdict(d: Ino, n: string, dir: bool): Result<(), Errno>
      reads this
      ensures UnlinkVerdict(d, n, dir).Ok? ==> Has(nodes, d, n)
    {
      if !Has(nodes, d, n) || Get(nodes, d, n) !in nodes then Err(NOENT)
      else
        var node := nodes[Get(nodes, d, n)];
        if dir && !node.Dir? then Err(NOTDIR)
        else if dir && node.entries != map[] then Err(NOTEMPTY)
        else if !dir && node.Dir? then Err(ISDIR)
        else Ok(())
    }

    /** fchmod, ftruncate and write through a descriptor */
    method Rewrite(x: Ino, node: Node)
      requires x in nodes && SameShape(nodes[x], node)
      modifies this
      ensures nodes == old(nodes)[x := node]
    {
      nodes := nodes[x := node];
    }
  }
}
