/** The anchored, contents-first enumeration of a root (crates/mari-core/src/rootfs.rs). */
module RootWalks {
  import opened Basics
  import opened Ordering
  import opened Paths
  import opened Disk
  import opened FileSystems
  import opened Manifests

  datatype WalkEntry = WalkEntry(path: string, kind: EntryKind)

  /** One name read out of a directory: `dir` and `link` are what its type says. */
  datatype Child = Child(name: string, kind: EntryKind)

  /** An open directory on the current path. `at` is its manifest path, as components. */
  datatype Level = Level(fd: Ino, at: Path, pending: seq<Child>, own: Option<WalkEntry>)

  /** A node's kind in the manifest's vocabulary: anything else is a "file". */
  function WalkKind(node: Node): EntryKind {
    match node
    case Dir(_, _, _) => DirKind
    case Symlink(_) => SymlinkKind
    case _ => FileKind
  }

  // ---- the order -------------------------------------------------------------

  /** Post-order on paths: what lies below comes first, siblings ascend by name. */
  predicate Before(p: Path, q: Path) {
    p != [] && (q == [] || Less(p[0], q[0]) || (p[0] == q[0] && Before(p[1..], q[1..])))
  }

  lemma {:induction false} BeforeShift(at: Path, p: Path, q: Path)
    ensures Before(at + p, at + q) <==> Before(p, q)
    decreases |at|
  {
    if at == [] {
      assert at + p == p && at + q == q;
    } else {
      assert (at + p)[1..] == at[1..] + p && (at + q)[1..] == at[1..] + q;
      LessTrichotomy(at[0], at[0]);
      BeforeShift(at[1..], p, q);
    }
  }

  /** The order settles what a post-order owes its caller. */
  lemma {:induction false} BeforeMeans(p: Path, q: Path)
    requires Before(p, q)
    ensures p != q && !(p <= q)
    ensures forall at, m, n :: p == at + [m] && q == at + [n] ==> Less(m, n)
    decreases |p|
  {
    NeverBeforeBelow(p, q);
    forall at, m, n | p == at + [m] && q == at + [n] ensures Less(m, n) {
      BeforeShift(at, [m], [n]);
      LessTrichotomy(m, n);
    }
  }

  lemma {:induction false} NeverBeforeBelow(p: Path, q: Path)
    requires Before(p, q)
    ensures !(p <= q)
  {
    if q != [] {
      LessTrichotomy(p[0], q[0]);
      if p[0] == q[0] { NeverBeforeBelow(p[1..], q[1..]); }
    }
  }

  // ---- the recursive listing ----------------------------------------------------

  datatype Found = Found(at: Path, kind: EntryKind)

  function Text(f: Found): WalkEntry {
    WalkEntry(Join(f.at), f.kind)
  }

  ghost function RankOf(nodes: Nodes): (r: map<Ino, nat>)
    requires Acyclic(nodes)
    ensures Ranks(nodes, r)
  {
    var r :| Ranks(nodes, r); r
  }

  ghost predicate Listable(nodes: Nodes) {
    Closed(nodes) && Acyclic(nodes)
  }

  /** Everything below directory `d`, which is at path `at`, in post-order. */
  ghost function Below(nodes: Nodes, d: Ino, at: Path): seq<Found>
    requires Listable(nodes) && d in nodes && nodes[d].Dir?
    decreases RankOf(nodes)[d], 1, 0
  {
    assert forall n :: n in nodes[d].entries ==> Has(nodes, d, n);
    Visits(nodes, d, at, Sorted(nodes[d].entries.Keys))
  }

  ghost function Visits(nodes: Nodes, d: Ino, at: Path, names: seq<string>): seq<Found>
    requires Listable(nodes) && d in nodes
    requires forall n :: n in names ==> Has(nodes, d, n)
    decreases RankOf(nodes)[d], 0, |names|
  {
    if names == [] then []
    else Subtree(nodes, Get(nodes, d, names[0]), at + [names[0]]) + Visits(nodes, d, at, names[1..])
  }

  ghost function Subtree(nodes: Nodes, x: Ino, at: Path): seq<Found>
    requires Listable(nodes) && x in nodes
    decreases RankOf(nodes)[x], 2, 0
  {
    (if nodes[x].Dir? then Below(nodes, x, at) else []) + [Found(at, WalkKind(nodes[x]))]
  }

  ghost predicate InOrder(fs: seq<Found>) {
    forall i, j :: 0 <= i < j < |fs| ==> Before(fs[i].at, fs[j].at)
  }

  ghost predicate AllUnder(fs: seq<Found>, at: Path) {
    forall f :: f in fs ==> at <= f.at
  }

  /** A listing names each path below `at` that exists, with its kind, and nothing else. */
  ghost predicate Lists(nodes: Nodes, root: Ino, fs: seq<Found>, at: Path) {
    && (forall f :: f in fs ==> at < f.at && Walk(nodes, root, f.at).Some? && Shows(nodes, root, f))
    && (forall q :: at < q && Walk(nodes, root, q).Some? ==> Mentions(fs, q))
  }

  ghost predicate Shows(nodes: Nodes, root: Ino, f: Found) {
    var w := Walk(nodes, root, f.at);
    w.Some? && w.value in nodes && f.kind == WalkKind(nodes[w.value])
  }

  lemma BeforeAcross(at: Path, m: string, n: string, p: Path, q: Path)
    requires Less(m, n) && at + [m] <= p && at + [n] <= q
    ensures Before(p, q)
  {
    var p', q' := p[|at|..], q[|at|..];
    assert p == at + p' && q == at + q';
    assert p'[0] == p[|at|] == (at + [m])[|at|];
    assert q'[0] == q[|at|] == (at + [n])[|at|];
    BeforeShift(at, p', q');
  }

  ghost predicate UnderSome(fs: seq<Found>, at: Path, names: seq<string>) {
    forall f :: f in fs ==> exists k :: 0 <= k < |names| && at + [names[k]] <= f.at
  }

  lemma AppendInOrder(a: seq<Found>, b: seq<Found>, at: Path, names: seq<string>)
    requires names != [] && Ascending(names)
    requires InOrder(a) && AllUnder(a, at + [names[0]])
    requires InOrder(b) && UnderSome(b, at, names[1..])
    ensures InOrder(a + b) && UnderSome(a + b, at, names)
  {
    var all: seq<Found> := a + b;
    forall i, j | 0 <= i < j < |all| ensures Before(all[i].at, all[j].at) {
      if i < |a| <= j {
        assert all[i] in a && all[j] in b;
        var k :| 0 <= k < |names[1..]| && at + [names[1..][k]] <= all[j].at;
        BeforeAcross(at, names[0], names[k + 1], all[i].at, all[j].at);
      }
    }
    forall f | f in all ensures exists k :: 0 <= k < |names| && at + [names[k]] <= f.at {
      if f in b {
        var k :| 0 <= k < |names[1..]| && at + [names[1..][k]] <= f.at;
        assert names[k + 1] == names[1..][k];
      } else {
        assert at + [names[0]] <= f.at;
      }
    }
  }

  lemma {:induction false} VisitsInOrder(nodes: Nodes, d: Ino, at: Path, names: seq<string>)
    requires Listable(nodes) && d in nodes && Ascending(names)
    requires forall n :: n in names ==> Has(nodes, d, n)
    ensures InOrder(Visits(nodes, d, at, names))
    ensures UnderSome(Visits(nodes, d, at, names), at, names)
    decreases RankOf(nodes)[d], 0, |names|
  {
    if names != [] {
      assert Has(nodes, d, names[0]);
      SubtreeInOrder(nodes, Get(nodes, d, names[0]), at + [names[0]]);
      VisitsInOrder(nodes, d, at, names[1..]);
      AppendInOrder(Subtree(nodes, Get(nodes, d, names[0]), at + [names[0]]), Visits(nodes, d, at, names[1..]), at, names);
    }
  }

  lemma AppendOwn(a: seq<Found>, at: Path, names: seq<string>, own: Found)
    requires InOrder(a) && UnderSome(a, at, names) && own.at == at
    ensures InOrder(a + [own]) && AllUnder(a + [own], at)
  {
    var all: seq<Found> := a + [own];
    forall i, j | 0 <= i < j < |all| ensures Before(all[i].at, all[j].at) {
      if j == |a| {
        assert all[i] in a;
        var k :| 0 <= k < |names| && at + [names[k]] <= all[i].at;
        var p := all[i].at[|at|..];
        assert all[i].at == at + p && at == at + [];
        BeforeShift(at, p, []);
      }
    }
    forall f | f in all ensures at <= f.at {
      if f in a { var k :| 0 <= k < |names| && at + [names[k]] <= f.at; }
    }
  }

  lemma {:induction false} SubtreeInOrder(nodes: Nodes, x: Ino, at: Path)
    requires Listable(nodes) && x in nodes
    ensures InOrder(Subtree(nodes, x, at))
    ensures AllUnder(Subtree(nodes, x, at), at)
    decreases RankOf(nodes)[x], 2, 0
  {
    if nodes[x].Dir? {
      var names := Sorted(nodes[x].entries.Keys);
      assert forall n :: n in names ==> Has(nodes, x, n);
      VisitsInOrder(nodes, x, at, names);
      AppendOwn(Visits(nodes, x, at, names), at, names, Found(at, DirKind));
    }
  }

  // ---- complete and exact ----------------------------------------------------------------

  lemma {:induction false} VisitsExact(nodes: Nodes, root: Ino, d: Ino, at: Path, names: seq<string>)
    requires Rooted(nodes, root) && Walk(nodes, root, at) == Some(d) && d in nodes && nodes[d].Dir?
    requires forall n :: n in names ==> Has(nodes, d, n)
    ensures forall f :: f in Visits(nodes, d, at, names) ==> Shows(nodes, root, f)
    ensures forall n, q :: n in names && at + [n] <= q && Walk(nodes, root, q).Some? ==> Mentions(Visits(nodes, d, at, names), q)
    decreases RankOf(nodes)[d], 0, |names|
  {
    if names != [] {
      var n, x := names[0], Get(nodes, d, names[0]);
      assert Has(nodes, d, n);
      WalkStep(nodes, root, at, n);
      SubtreeExact(nodes, root, x, at + [n]);
      VisitsExact(nodes, root, d, at, names[1..]);
      var a, b := Subtree(nodes, x, at + [n]), Visits(nodes, d, at, names[1..]);
      forall m, q | m in names && at + [m] <= q && Walk(nodes, root, q).Some? ensures Mentions(a + b, q) {
        if m == n { MentionsAppend(a, b, q); } else { assert m in names[1..]; MentionsAppend(a, b, q); }
      }
    }
  }

  ghost predicate Mentions(fs: seq<Found>, q: Path) {
    exists i :: 0 <= i < |fs| && fs[i].at == q
  }

  lemma MentionsAppend(a: seq<Found>, b: seq<Found>, q: Path)
    ensures Mentions(a + b, q) <==> Mentions(a, q) || Mentions(b, q)
  {
    var all: seq<Found> := a + b;
    if Mentions(a, q) { var i :| 0 <= i < |a| && a[i].at == q; assert all[i].at == q; }
    if Mentions(b, q) { var i :| 0 <= i < |b| && b[i].at == q; assert all[|a| + i].at == q; }
    if Mentions(all, q) {
      var i :| 0 <= i < |all| && all[i].at == q;
      if i < |a| { assert a[i].at == q; } else { assert b[i - |a|].at == q; }
    }
  }

  lemma {:induction false} SubtreeExact(nodes: Nodes, root: Ino, x: Ino, at: Path)
    requires Rooted(nodes, root) && Walk(nodes, root, at) == Some(x) && x in nodes
    ensures forall f :: f in Subtree(nodes, x, at) ==> Shows(nodes, root, f)
    ensures forall q :: at <= q && Walk(nodes, root, q).Some? ==> Mentions(Subtree(nodes, x, at), q)
    decreases RankOf(nodes)[x], 2, 0
  {
    var own := Found(at, WalkKind(nodes[x]));
    var a := if nodes[x].Dir? then Below(nodes, x, at) else [];
    if nodes[x].Dir? { BelowExact(nodes, root, x, at); }
    forall q | at <= q && Walk(nodes, root, q).Some? ensures Mentions(a + [own], q) {
      MentionsAppend(a, [own], q);
      if q == at {
        assert [own][0].at == q;
      } else {
        assert at < q;
        WalkAbove(nodes, root, q, at);
      }
    }
  }

  /** The listing of a directory names exactly what exists below it. */
  lemma {:induction false} BelowExact(nodes: Nodes, root: Ino, d: Ino, at: Path)
    requires Rooted(nodes, root) && Walk(nodes, root, at) == Some(d) && d in nodes && nodes[d].Dir?
    ensures InOrder(Below(nodes, d, at))
    ensures Lists(nodes, root, Below(nodes, d, at), at)
    decreases RankOf(nodes)[d], 1, 0
  {
    var names := Sorted(nodes[d].entries.Keys);
    assert forall n :: n in names ==> Has(nodes, d, n);
    VisitsInOrder(nodes, d, at, names);
    VisitsExact(nodes, root, d, at, names);
    var fs := Below(nodes, d, at);
    forall f | f in fs ensures at < f.at {
      var k :| 0 <= k < |names| && at + [names[k]] <= f.at;
    }
    forall q | at < q && Walk(nodes, root, q).Some? ensures Mentions(fs, q) {
      var n := q[|at|];
      assert at + [n] <= q;
      WalkAbove(nodes, root, q, at + [n]);
      WalkStep(nodes, root, at, n);
      assert n in names;
    }
  }

  /** What a walk of the whole tree hands out: every node below the root exactly once, each
      directory after everything in it, siblings ascending. */
  lemma WholeTree(nodes: Nodes, root: Ino)
    requires Rooted(nodes, root)
    ensures InOrder(Below(nodes, root, []))
    ensures Lists(nodes, root, Below(nodes, root, []), [])
  {
    BelowExact(nodes, root, root, []);
  }

  // ---- the explicit stack ------------------------------------------------------------------

  /** The names still to visit, in visiting order: the last pending child comes first. */
  function Upcoming(pending: seq<Child>): (r: seq<string>)
    ensures |r| == |pending|
    ensures forall n :: n in r <==> exists k :: 0 <= k < |pending| && pending[k].name == n
  {
    if pending == [] then [] else [pending[|pending| - 1].name] + Upcoming(pending[..|pending| - 1])
  }

  ghost predicate LevelOk(nodes: Nodes, root: Ino, l: Level) {
    && Walk(nodes, root, l.at) == Some(l.fd) && l.fd in nodes && nodes[l.fd].Dir?
    && Ascending(Upcoming(l.pending))
    && (forall k :: 0 <= k < |l.pending| ==> Has(nodes, l.fd, l.pending[k].name))
    && (forall k :: 0 <= k < |l.pending| ==>
          var x := Get(nodes, l.fd, l.pending[k].name); x in nodes && l.pending[k].kind == WalkKind(nodes[x]))
    && l.own == if l.at == [] then None else Some(WalkEntry(Join(l.at), DirKind))
  }

  /** Each level is the child its parent level went into last. */
  ghost predicate Nested(stack: seq<Level>) {
    && (stack != [] ==> stack[0].at == [])
    && forall i, j :: 0 <= i < j < |stack| ==>
         && stack[i].at < stack[j].at && stack[j].at[|stack[i].at|] !in Upcoming(stack[i].pending)
  }

  ghost predicate StackOk(nodes: Nodes, root: Ino, stack: seq<Level>) {
    Nested(stack) && forall i :: 0 <= i < |stack| ==> LevelOk(nodes, root, stack[i])
  }

  ghost function Own(l: Level): seq<Found> {
    if l.own.Some? then [Found(l.at, DirKind)] else []
  }

  ghost function Contents(nodes: Nodes, root: Ino, l: Level): seq<Found>
    requires Listable(nodes)
  {
    if LevelOk(nodes, root, l) then Visits(nodes, l.fd, l.at, Upcoming(l.pending)) else []
  }

  /** What the walk has not handed out yet. */
  ghost function Todo(nodes: Nodes, root: Ino, stack: seq<Level>): seq<Found>
    requires Listable(nodes)
  {
    if stack == [] then []
    else
      var top := stack[|stack| - 1];
      Contents(nodes, root, top) + Own(top) + Todo(nodes, root, stack[..|stack| - 1])
  }

  /** The part of `Todo` whose directories are still unopened; what makes the walk end. */
  ghost function Unopened(nodes: Nodes, root: Ino, stack: seq<Level>): nat
    requires Listable(nodes)
  {
    if stack == [] then 0
    else |Contents(nodes, root, stack[|stack| - 1])| + Unopened(nodes, root, stack[..|stack| - 1])
  }

  /** `p` has been dealt with: nothing the walk still holds is at or below it, or leads to it. */
  ghost predicate Clear(stack: seq<Level>, p: Path) {
    forall i :: 0 <= i < |stack| ==>
      !(p <= stack[i].at) && forall n :: n in Upcoming(stack[i].pending) ==> !(stack[i].at + [n] <= p)
  }

  function TopLevel(stack: seq<Level>): Level
    requires stack != []
  {
    stack[|stack| - 1]
  }

  function NextChild(stack: seq<Level>): Child
    requires stack != [] && TopLevel(stack).pending != []
  {
    TopLevel(stack).pending[|TopLevel(stack).pending| - 1]
  }

  /** The stack with the next child of the top level taken off. */
  function PopChild(stack: seq<Level>): seq<Level>
    requires stack != [] && TopLevel(stack).pending != []
  {
    var l := TopLevel(stack);
    stack[..|stack| - 1] + [l.(pending := l.pending[..|l.pending| - 1])]
  }

  lemma PoppedName(l: Level, l': Level)
    requires l.pending != [] && Ascending(Upcoming(l.pending))
    requires l' == l.(pending := l.pending[..|l.pending| - 1])
    ensures Upcoming(l.pending) == [l.pending[|l.pending| - 1].name] + Upcoming(l'.pending)
    ensures Ascending(Upcoming(l'.pending))
    ensures l.pending[|l.pending| - 1].name !in Upcoming(l'.pending)
  {
    var up := Upcoming(l.pending);
    assert Upcoming(l'.pending) == up[1..];
    forall k | 0 <= k < |up[1..]| ensures up[1..][k] != up[0] {
      assert Less(up[0], up[k + 1]);
      LessTrichotomy(up[0], up[k + 1]);
    }
  }

  lemma PoppedOk(nodes: Nodes, root: Ino, stack: seq<Level>)
    requires Rooted(nodes, root) && StackOk(nodes, root, stack)
    requires stack != [] && TopLevel(stack).pending != []
    ensures StackOk(nodes, root, PopChild(stack))
    ensures var l, c := TopLevel(stack), NextChild(stack);
      && c.name !in Upcoming(TopLevel(PopChild(stack)).pending)
      && Has(nodes, l.fd, c.name) && ValidName(c.name) && Get(nodes, l.fd, c.name) in nodes
  {
    hide Walk, Acyclic, SingleParent, Sane;
    var stack', l := PopChild(stack), TopLevel(stack);
    assert LevelOk(nodes, root, l);
    PoppedName(l, TopLevel(stack'));
    forall i | 0 <= i < |stack'| ensures LevelOk(nodes, root, stack'[i]) {
      if i < |stack| - 1 { assert stack'[i] == stack[i]; }
    }
    forall i, j | 0 <= i < j < |stack'|
      ensures stack'[i].at < stack'[j].at && stack'[j].at[|stack'[i].at|] !in Upcoming(stack'[i].pending)
    {
      assert stack'[i] == stack[i] && stack'[j].at == stack[j].at;
    }
  }

  lemma TodoSplit(nodes: Nodes, root: Ino, low: seq<Level>, l: Level)
    requires Listable(nodes)
    ensures Todo(nodes, root, low + [l]) == Contents(nodes, root, l) + Own(l) + Todo(nodes, root, low)
    ensures Unopened(nodes, root, low + [l]) == |Contents(nodes, root, l)| + Unopened(nodes, root, low)
  {
    assert (low + [l])[..|low|] == low;
  }

  lemma PoppedContents(nodes: Nodes, root: Ino, l: Level, l': Level)
    requires Listable(nodes) && LevelOk(nodes, root, l) && LevelOk(nodes, root, l')
    requires l.pending != [] && l' == l.(pending := l.pending[..|l.pending| - 1])
    ensures var n := l.pending[|l.pending| - 1].name;
      && Has(nodes, l.fd, n) && Get(nodes, l.fd, n) in nodes
      && Contents(nodes, root, l) == Subtree(nodes, Get(nodes, l.fd, n), l.at + [n]) + Contents(nodes, root, l')
  {
    PoppedName(l, l');
    assert Upcoming(l.pending)[1..] == Upcoming(l'.pending);
  }

  lemma PoppedTodo(nodes: Nodes, root: Ino, stack: seq<Level>)
    requires Listable(nodes)
    requires stack != [] && TopLevel(stack).pending != []
    requires LevelOk(nodes, root, TopLevel(stack)) && LevelOk(nodes, root, TopLevel(PopChild(stack)))
    ensures var l, n := TopLevel(stack), NextChild(stack).name;
      && Has(nodes, l.fd, n) && Get(nodes, l.fd, n) in nodes
      && var sub := Subtree(nodes, Get(nodes, l.fd, n), l.at + [n]);
      && Todo(nodes, root, stack) == sub + Todo(nodes, root, PopChild(stack))
      && Unopened(nodes, root, stack) == |sub| + Unopened(nodes, root, PopChild(stack))
  {
    var low, l, l' := stack[..|stack| - 1], TopLevel(stack), TopLevel(PopChild(stack));
    assert stack == low + [l] && PopChild(stack) == low + [l'];
    TodoSplit(nodes, root, low, l);
    TodoSplit(nodes, root, low, l');
    PoppedContents(nodes, root, l, l');
    SplitAgain(Subtree(nodes, Get(nodes, l.fd, NextChild(stack).name), l.at + [NextChild(stack).name]),
               Contents(nodes, root, l'), Own(l), Todo(nodes, root, low));
  }

  lemma SplitAgain<T>(a: seq<T>, b: seq<T>, c: seq<T>, d: seq<T>)
    ensures (a + b) + c + d == a + (b + c + d)
  {
  }

  /** `r` is the first of `before`, `after` is still to come, and `r` is dealt with. */
  ghost predicate Yields(before: seq<Found>, after: seq<Found>, stack: seq<Level>, r: Option<WalkEntry>) {
    && before != [] && r == Some(Text(before[0]))
    && after == before[1..] && Clear(stack, before[0].at)
  }

  /** With the root just read, everything below it is still to come. */
  lemma FirstLevel(nodes: Nodes, root: Ino, pending: seq<Child>)
    requires Rooted(nodes, root) && Upcoming(pending) == Sorted(nodes[root].entries.Keys)
    requires forall k :: 0 <= k < |pending| ==> Has(nodes, root, pending[k].name)
    requires forall k :: 0 <= k < |pending| ==>
      var x := Get(nodes, root, pending[k].name); x in nodes && pending[k].kind == WalkKind(nodes[x])
    ensures StackOk(nodes, root, [Level(root, [], pending, None)])
    ensures Todo(nodes, root, [Level(root, [], pending, None)]) == Below(nodes, root, [])
  {
    var top := Level(root, [], pending, None);
    hide Closed, SingleParent, Sane, Acyclic;
    assert LevelOk(nodes, root, top);
    hide Upcoming;
    assert [top][..0] == [];
    assert Todo(nodes, root, []) == [];
    assert Contents(nodes, root, top) == Below(nodes, root, []);
  }

  class RootWalk {
    const fs: FileSystem
    const root: Ino
    var stack: seq<Level>

    ghost predicate Valid()
      reads this, fs
    {
      Rooted(fs.nodes, root) && StackOk(fs.nodes, root, stack)
    }

    /** What is still to come. */
    ghost function Rest(): seq<Found>
      reads this, fs
      requires Valid()
    {
      Todo(fs.nodes, root, stack)
    }

    constructor (fs: FileSystem, root: Ino)
      requires Rooted(fs.nodes, root)
      ensures this.fs == fs && this.root == root
      ensures Valid() && Rest() == Below(fs.nodes, root, [])
    {
      assert root in fs.nodes && fs.nodes[root].Dir?;
      hide Rooted, StackOk, Todo, Below, ListsAscending;
      this.fs := fs;
      this.root := root;
      this.stack := [];
      new;
      var pending := ReadChildren(root);
      stack := [Level(root, [], pending, None)];
      FirstLevel(fs.nodes, root, pending);
    }

    /** Every name in an open directory, descending, so that popping hands them out ascending. */
    method ReadChildren(d: Ino) returns (pending: seq<Child>)
      requires Rooted(fs.nodes, root) && d in fs.nodes && fs.nodes[d].Dir?
      ensures Upcoming(pending) == Sorted(fs.nodes[d].entries.Keys)
      ensures forall k :: 0 <= k < |pending| ==> Has(fs.nodes, d, pending[k].name)
      ensures forall k :: 0 <= k < |pending| ==>
        var x := Get(fs.nodes, d, pending[k].name); x in fs.nodes && pending[k].kind == WalkKind(fs.nodes[x])
    {
      hide Walk, Acyclic, SingleParent, Sane, Less;
      var left := fs.nodes[d].entries.Keys;
      var names: seq<string> := [];
      while left != {}
        invariant Ascending(names) && left <= fs.nodes[d].entries.Keys
        invariant forall n :: n in names <==> n in fs.nodes[d].entries.Keys - left
        decreases left
      {
        var n :| n in left;
        names := Insert(names, n);
        left := left - {n};
      }
      AscendingUnique(names, Sorted(fs.nodes[d].entries.Keys));
      pending := [];
      var i := |names|;
      while i > 0
        invariant 0 <= i <= |names|
        invariant Upcoming(pending) == names[i..]
        invariant forall k :: 0 <= k < |pending| ==> Has(fs.nodes, d, pending[k].name)
        invariant forall k :: 0 <= k < |pending| ==>
          var x := Get(fs.nodes, d, pending[k].name); x in fs.nodes && pending[k].kind == WalkKind(fs.nodes[x])
      {
        i := i - 1;
        assert names[i] in names && Has(fs.nodes, d, names[i]);
        var more := pending + [Child(names[i], WalkKind(fs.nodes[Get(fs.nodes, d, names[i])]))];
        assert more[..|more| - 1] == pending;
        pending := more;
      }
    }

    /** Go into the directory `n` of the top level through the level's own descriptor. */
    method Enter(n: string)
      requires Valid() && stack != []
      requires n !in Upcoming(TopLevel(stack).pending) && Has(fs.nodes, TopLevel(stack).fd, n)
      requires var x := Get(fs.nodes, TopLevel(stack).fd, n); x in fs.nodes && fs.nodes[x].Dir?
      modifies this`stack
      ensures Valid()
      ensures var l := old(TopLevel(stack));
        var sub := Subtree(fs.nodes, Get(fs.nodes, l.fd, n), l.at + [n]);
        && Rest() == sub + old(Rest())
        && Unopened(fs.nodes, root, stack) + 1 == |sub| + old(Unopened(fs.nodes, root, stack))
    {
      var level := TopLevel(stack);
      var fd := fs.OpenDirAt(level.fd, n);
      assert fd == Ok(Get(fs.nodes, level.fd, n));
      var pending := ReadChildren(fd.value);
      PushedLevel(fs.nodes, root, stack, n, fd.value, pending);
      assert Join(level.at + [n]) == Join(level.at) + "/" + n by { assert (level.at + [n])[..|level.at|] == level.at; }
      stack := stack + [Level(fd.value, level.at + [n], pending, Some(WalkEntry(Join(level.at) + "/" + n, DirKind)))];
    }

    /** The top level is exhausted: its directory comes after its contents. */
    method Leave() returns (r: Option<WalkEntry>)
      requires Valid() && stack != [] && TopLevel(stack).pending == []
      modifies this`stack
      ensures Valid()
      ensures r.Some? ==> Yields(old(Rest()), Rest(), stack, r)
      ensures r.None? ==> Rest() == old(Rest())
      ensures Unopened(fs.nodes, root, stack) == old(Unopened(fs.nodes, root, stack)) && |stack| < old(|stack|)
    {
      r := TopLevel(stack).own;
      LevelDone(stack);
      DoneOk(fs.nodes, root, stack);
      DoneTodo(fs.nodes, root, stack);
      stack := stack[..|stack| - 1];
    }

    /** Take the next child of the top level: hand it out, or go into it. */
    method Take() returns (r: Option<WalkEntry>)
      requires Valid() && stack != [] && TopLevel(stack).pending != []
      modifies this`stack
      ensures Valid()
      ensures r.Some? ==> Yields(old(Rest()), Rest(), stack, r)
      ensures r.None? ==> Rest() == old(Rest())
      ensures Unopened(fs.nodes, root, stack) < old(Unopened(fs.nodes, root, stack))
    {
      hide Walk, Acyclic, SingleParent, Sane, Less, Subtree, Below, Nested, Visits, Contents, Clear;
      var level, child := TopLevel(stack), NextChild(stack);
      ghost var held := stack;
      assert LevelOk(fs.nodes, root, level);
      PoppedOk(fs.nodes, root, stack);
      PoppedTodo(fs.nodes, root, stack);
      stack := PopChild(stack);
      if child.kind != DirKind {
        LeafFirst(fs.nodes, root, held);
        ChildIsClear(stack, child.name);
        return Some(WalkEntry(Join(level.at) + "/" + child.name, child.kind));
      }
      Enter(child.name);
      return None;
    }

    /** The next node, contents before the directory that holds them. */
    method Next() returns (r: Option<WalkEntry>)
      requires Valid()
      modifies this`stack
      ensures Valid()
      ensures old(Rest()) == [] ==> r == None && Rest() == []
      ensures old(Rest()) != [] ==> Yields(old(Rest()), Rest(), stack, r)
    {
      while stack != []
        invariant Valid() && Rest() == old(Rest())
        decreases Unopened(fs.nodes, root, stack), |stack|
      {
        if TopLevel(stack).pending == [] { r := Leave(); } else { r := Take(); }
        if r.Some? { return; }
      }
      return None;
    }
  }

  lemma DoneOk(nodes: Nodes, root: Ino, stack: seq<Level>)
    requires StackOk(nodes, root, stack) && stack != []
    ensures StackOk(nodes, root, stack[..|stack| - 1])
    ensures TopLevel(stack).own.Some? ==> TopLevel(stack).own.value == Text(Own(TopLevel(stack))[0])
  {
    var low := stack[..|stack| - 1];
    assert LevelOk(nodes, root, TopLevel(stack));
    forall i | 0 <= i < |low| ensures LevelOk(nodes, root, low[i]) { assert low[i] == stack[i]; }
  }

  lemma DoneTodo(nodes: Nodes, root: Ino, stack: seq<Level>)
    requires Listable(nodes)
    requires stack != [] && TopLevel(stack).pending == []
    ensures Todo(nodes, root, stack) == Own(TopLevel(stack)) + Todo(nodes, root, stack[..|stack| - 1])
    ensures Unopened(nodes, root, stack) == Unopened(nodes, root, stack[..|stack| - 1])
  {
    hide LevelOk, Walk, Subtree, Below, Closed, Acyclic;
    assert stack == stack[..|stack| - 1] + [TopLevel(stack)];
    TodoSplit(nodes, root, stack[..|stack| - 1], TopLevel(stack));
    assert Contents(nodes, root, TopLevel(stack)) == [];
  }

  lemma LeafFirst(nodes: Nodes, root: Ino, stack: seq<Level>)
    requires Rooted(nodes, root) && StackOk(nodes, root, stack)
    requires stack != [] && TopLevel(stack).pending != [] && NextChild(stack).kind != DirKind
    requires Has(nodes, TopLevel(stack).fd, NextChild(stack).name)
    requires Get(nodes, TopLevel(stack).fd, NextChild(stack).name) in nodes
    ensures var l, c := TopLevel(stack), NextChild(stack);
      && Subtree(nodes, Get(nodes, l.fd, c.name), l.at + [c.name]) == [Found(l.at + [c.name], c.kind)]
      && Text(Found(l.at + [c.name], c.kind)) == WalkEntry(Join(l.at) + "/" + c.name, c.kind)
  {
    var l, c := TopLevel(stack), NextChild(stack);
    assert LevelOk(nodes, root, l);
    assert (l.at + [c.name])[..|l.at|] == l.at;
  }

  /** A directory whose contents are exhausted is handed out last, and is then clear. */
  lemma LevelDone(stack: seq<Level>)
    requires Nested(stack) && stack != []
    ensures Nested(stack[..|stack| - 1])
    ensures Clear(stack[..|stack| - 1], stack[|stack| - 1].at)
  {
    var low, p := stack[..|stack| - 1], stack[|stack| - 1].at;
    forall i | 0 <= i < |low|
      ensures !(p <= low[i].at) && forall n :: n in Upcoming(low[i].pending) ==> !(low[i].at + [n] <= p)
    {
      assert stack[i].at < p;
      forall n | n in Upcoming(low[i].pending) ensures !(low[i].at + [n] <= p) {
        assert (low[i].at + [n])[|low[i].at|] == n;
      }
    }
  }

  lemma ChildIsClear(stack: seq<Level>, n: string)
    requires Nested(stack) && stack != [] && n !in Upcoming(stack[|stack| - 1].pending)
    ensures Clear(stack, stack[|stack| - 1].at + [n])
  {
    var top := stack[|stack| - 1];
    var p := top.at + [n];
    forall i | 0 <= i < |stack|
      ensures !(p <= stack[i].at) && forall m :: m in Upcoming(stack[i].pending) ==> !(stack[i].at + [m] <= p)
    {
      assert stack[i].at <= top.at;
      forall m | m in Upcoming(stack[i].pending) ensures !(stack[i].at + [m] <= p) {
        assert (stack[i].at + [m])[|stack[i].at|] == m;
        if i < |stack| - 1 { assert p[|stack[i].at|] == top.at[|stack[i].at|]; }
      }
    }
  }

  lemma PushedLevel(nodes: Nodes, root: Ino, stack: seq<Level>, n: string, x: Ino, pending: seq<Child>)
    requires Rooted(nodes, root) && StackOk(nodes, root, stack) && stack != []
    requires n !in Upcoming(TopLevel(stack).pending) && Has(nodes, TopLevel(stack).fd, n) && Get(nodes, TopLevel(stack).fd, n) == x
    requires x in nodes && nodes[x].Dir? && Upcoming(pending) == Sorted(nodes[x].entries.Keys)
    requires forall k :: 0 <= k < |pending| ==> Has(nodes, x, pending[k].name)
    requires forall k :: 0 <= k < |pending| ==>
      var y := Get(nodes, x, pending[k].name); y in nodes && pending[k].kind == WalkKind(nodes[y])
    ensures var at := TopLevel(stack).at + [n];
      var l := Level(x, at, pending, Some(WalkEntry(Join(at), DirKind)));
      && StackOk(nodes, root, stack + [l])
      && Todo(nodes, root, stack + [l]) == Subtree(nodes, x, at) + Todo(nodes, root, stack)
      && Unopened(nodes, root, stack + [l]) + 1 == |Subtree(nodes, x, at)| + Unopened(nodes, root, stack)
  {
    var top := TopLevel(stack);
    var at := top.at + [n];
    var l := Level(x, at, pending, Some(WalkEntry(Join(at), DirKind)));
    assert LevelOk(nodes, root, top);
    WalkStep(nodes, root, top.at, n);
    assert LevelOk(nodes, root, l);
    PushedOk(nodes, root, stack, l);
    TodoSplit(nodes, root, stack, l);
    assert Contents(nodes, root, l) == Below(nodes, x, at);
  }

  lemma PushedOk(nodes: Nodes, root: Ino, stack: seq<Level>, l: Level)
    requires StackOk(nodes, root, stack) && stack != [] && LevelOk(nodes, root, l)
    requires l.at != [] && TopLevel(stack).at == l.at[..|l.at| - 1] && l.at[|l.at| - 1] !in Upcoming(TopLevel(stack).pending)
    ensures StackOk(nodes, root, stack + [l])
  {
    var stack', top := stack + [l], TopLevel(stack);
    forall i | 0 <= i < |stack'| ensures LevelOk(nodes, root, stack'[i]) {
      if i < |stack| { assert stack'[i] == stack[i]; }
    }
    forall i, j | 0 <= i < j < |stack'|
      ensures stack'[i].at < stack'[j].at && stack'[j].at[|stack'[i].at|] !in Upcoming(stack'[i].pending)
    {
      if j == |stack| && i < |stack| - 1 { assert l.at[|stack[i].at|] == top.at[|stack[i].at|]; }
    }
  }

  // ---- deleting what has been handed out ---------------------------------------------------------

  /** Nothing but `p` resolves differently or shows something else. */
  ghost predicate SameBut(nodes: Nodes, nodes': Nodes, root: Ino, p: Path) {
    forall q :: q != p ==> Walk(nodes', root, q) == Walk(nodes, root, q) && At(nodes', root, q) == At(nodes, root, q)
  }

  lemma SameChild(nodes: Nodes, nodes': Nodes, root: Ino, p: Path, at: Path, d: Ino, n: string)
    requires Rooted(nodes, root) && Rooted(nodes', root) && SameBut(nodes, nodes', root, p)
    requires Walk(nodes, root, at) == Some(d) == Walk(nodes', root, at) && at + [n] != p
    ensures Has(nodes, d, n) <==> Has(nodes', d, n)
    ensures Has(nodes, d, n) ==>
      && Get(nodes, d, n) == Get(nodes', d, n) && Get(nodes, d, n) in nodes && Get(nodes, d, n) in nodes'
      && Walk(nodes, root, at + [n]) == Some(Get(nodes, d, n)) == Walk(nodes', root, at + [n])
      && Show(nodes[Get(nodes, d, n)]) == Show(nodes'[Get(nodes, d, n)])
  {
    WalkStep(nodes, root, at, n);
    WalkStep(nodes', root, at, n);
  }

  lemma {:induction false} VisitsSame(nodes: Nodes, nodes': Nodes, root: Ino, p: Path, d: Ino, at: Path, names: seq<string>)
    requires Rooted(nodes, root) && Rooted(nodes', root) && SameBut(nodes, nodes', root, p)
    requires Walk(nodes, root, at) == Some(d) == Walk(nodes', root, at) && d in nodes && d in nodes'
    requires forall n :: n in names ==> Has(nodes, d, n) && !(at + [n] <= p)
    ensures forall n :: n in names ==> Has(nodes', d, n)
    ensures Visits(nodes', d, at, names) == Visits(nodes, d, at, names)
    decreases RankOf(nodes)[d], 0, |names|
  {
    if names != [] {
      assert Has(nodes, d, names[0]);
      SameChild(nodes, nodes', root, p, at, d, names[0]);
      SubtreeSame(nodes, nodes', root, p, Get(nodes, d, names[0]), at + [names[0]]);
      VisitsSame(nodes, nodes', root, p, d, at, names[1..]);
    }
  }

  lemma {:induction false} SubtreeSame(nodes: Nodes, nodes': Nodes, root: Ino, p: Path, x: Ino, at: Path)
    requires Rooted(nodes, root) && Rooted(nodes', root) && SameBut(nodes, nodes', root, p)
    requires Walk(nodes, root, at) == Some(x) == Walk(nodes', root, at) && x in nodes && x in nodes'
    requires !(at <= p)
    ensures Subtree(nodes', x, at) == Subtree(nodes, x, at)
    decreases RankOf(nodes)[x], 2, 0
  {
    assert At(nodes', root, at) == At(nodes, root, at);
    if nodes[x].Dir? {
      forall n ensures n in nodes[x].entries <==> n in nodes'[x].entries {
        SameChild(nodes, nodes', root, p, at, x, n);
      }
      assert nodes[x].entries.Keys == nodes'[x].entries.Keys;
      var names := Sorted(nodes[x].entries.Keys);
      assert forall n :: n in names ==> Has(nodes, x, n);
      VisitsSame(nodes, nodes', root, p, x, at, names);
    }
  }

  lemma LevelStillOk(nodes: Nodes, nodes': Nodes, root: Ino, p: Path, l: Level)
    requires Rooted(nodes, root) && Rooted(nodes', root) && SameBut(nodes, nodes', root, p)
    requires LevelOk(nodes, root, l) && !(p <= l.at)
    requires forall n :: n in Upcoming(l.pending) ==> !(l.at + [n] <= p)
    ensures LevelOk(nodes', root, l)
  {
    hide Closed, SingleParent, Sane, Acyclic, Less;
    assert l.at != p && At(nodes', root, l.at) == At(nodes, root, l.at);
    WalkLive(nodes', root, l.at);
    forall k | 0 <= k < |l.pending|
      ensures Has(nodes', l.fd, l.pending[k].name)
      ensures var x := Get(nodes', l.fd, l.pending[k].name); x in nodes' && l.pending[k].kind == WalkKind(nodes'[x])
    {
      assert l.pending[k].name in Upcoming(l.pending);
      SameChild(nodes, nodes', root, p, l.at, l.fd, l.pending[k].name);
    }
  }

  lemma LevelSame(nodes: Nodes, nodes': Nodes, root: Ino, p: Path, l: Level)
    requires Rooted(nodes, root) && Rooted(nodes', root) && SameBut(nodes, nodes', root, p)
    requires LevelOk(nodes, root, l) && !(p <= l.at)
    requires forall n :: n in Upcoming(l.pending) ==> !(l.at + [n] <= p)
    ensures LevelOk(nodes', root, l)
    ensures Contents(nodes', root, l) == Contents(nodes, root, l)
  {
    hide Rooted, Visits, Less;
    LevelStillOk(nodes, nodes', root, p, l);
    VisitsSame(nodes, nodes', root, p, l.fd, l.at, Upcoming(l.pending));
  }

  /** A caller that deletes what it has been handed leaves the rest of the walk as it was. */
  lemma {:induction false} DeletingHandedOut(nodes: Nodes, nodes': Nodes, root: Ino, p: Path, stack: seq<Level>)
    requires Rooted(nodes, root) && Rooted(nodes', root) && SameBut(nodes, nodes', root, p)
    requires StackOk(nodes, root, stack) && Clear(stack, p)
    ensures StackOk(nodes', root, stack)
    ensures Todo(nodes', root, stack) == Todo(nodes, root, stack)
    decreases |stack|
  {
    hide SameBut, LevelOk, Walk, At, SingleParent, Sane, Closed, Acyclic, Contents, Own, Upcoming;
    if stack != [] {
      var low, l := stack[..|stack| - 1], TopLevel(stack);
      DoneOk(nodes, root, stack);
      forall i | 0 <= i < |low|
        ensures !(p <= low[i].at) && forall n :: n in Upcoming(low[i].pending) ==> !(low[i].at + [n] <= p)
      {
        assert low[i] == stack[i];
      }
      DeletingHandedOut(nodes, nodes', root, p, low);
      LevelSame(nodes, nodes', root, p, l);
      assert stack == low + [l];
      TodoSplit(nodes, root, low, l);
      TodoSplit(nodes', root, low, l);
      forall i | 0 <= i < |stack| ensures LevelOk(nodes', root, stack[i]) {
        if i < |low| { assert low[i] == stack[i]; }
      }
    }
  }
}
