/** Two diffs of two manifests that have to agree: the linear merge of
    crates/mari-core/src/diff.rs and the map-based one of packages/control-plane/src/diff.ts. */
module Diffs {
  import opened Basics
  import opened Ordering
  import opened Manifests
  import opened Utf16

  type Entries = seq<ManifestEntry>

  datatype ModifiedEntry = ModifiedEntry(path: string, before: ManifestEntry, after: ManifestEntry, contentChanged: bool, modeChanged: bool)

  datatype ManifestDiff = ManifestDiff(added: Entries, removed: Entries, modified: seq<ModifiedEntry>)

  function ContentDiffers(a: ManifestEntry, b: ManifestEntry): bool {
    a.kind != b.kind || a.size != b.size || a.symlinkTarget != b.symlinkTarget || a.chunks != b.chunks
  }

  // ---- the keys of sorted lists -----------------------------------------------------------

  function Keys<T>(s: seq<T>, key: T -> string): (r: seq<string>)
    ensures |r| == |s| && forall i :: 0 <= i < |r| ==> r[i] == key(s[i])
  {
    seq(|s|, i requires 0 <= i < |s| => key(s[i]))
  }

  lemma KeyOfOne<T(!new)>(s: seq<T>, key: T -> string, k: string)
    ensures k in Keys(s, key) <==> exists x :: x in s && key(x) == k
  {
    var p := Keys(s, key);
    if k in p {
      var i :| 0 <= i < |p| && p[i] == k;
      assert s[i] in s;
    }
    if x :| x in s && key(x) == k {
      var i :| 0 <= i < |s| && s[i] == x;
      assert p[i] == k;
    }
  }

  ghost predicate SameKeySet<S(!new), T(!new)>(a: seq<S>, keyA: S -> string, b: seq<T>, keyB: T -> string) {
    && (forall x :: x in a ==> exists y :: y in b && keyB(y) == keyA(x))
    && (forall y :: y in b ==> exists x :: x in a && keyA(x) == keyB(y))
  }

  lemma {:induction false} SortedSize(p: seq<string>, less: (string, string) -> bool)
    requires StrictOrder(less) && SortedBy(p, Itself, less)
    ensures |set k | k in p| == |p|
    decreases |p|
  {
    if p != [] {
      var rest := p[1..];
      SortedSize(rest, less);
      forall k ensures k in p <==> k in rest || k == p[0] {
        NotFirstAgain(p, k, Itself, less);
      }
      NotFirstAgain(p, p[0], Itself, less);
      assert (set k | k in p) == (set k | k in rest) + {p[0]};
    } else {
      assert (set k | k in p) == {};
    }
  }

  /** No two of them stand differently in the two orders. */
  ghost predicate NoFlips(p: seq<string>) {
    forall i, j :: 0 <= i < |p| && 0 <= j < |p| ==> !Flips(p[i], p[j])
  }

  lemma NoFlipsSorted(p: seq<string>)
    requires SortedBy(p, Itself, Less) && NoFlips(p)
    ensures SortedBy(p, Itself, JsLess)
  {
    forall i, j | 0 <= i < j < |p| ensures JsLess(Itself(p[i]), Itself(p[j])) {
      assert Less(Itself(p[i]), Itself(p[j]));
      JsLessMeans(p[i], p[j]);
    }
  }

  lemma SortedBothWays(p: seq<string>)
    requires SortedBy(p, Itself, Less) && SortedBy(p, Itself, JsLess)
    ensures NoFlips(p)
  {
    LessIsStrict();
    JsIsStrict();
    forall i, j | 0 <= i < |p| && 0 <= j < |p| ensures !Flips(p[i], p[j]) {
      JsLessMeans(p[i], p[j]);
      JsLessMeans(p[j], p[i]);
      if i < j {
        assert JsLess(Itself(p[i]), Itself(p[j]));
      } else if j < i {
        assert Less(Itself(p[j]), Itself(p[i]));
      }
    }
  }

  lemma SameKeyMembers<S(!new), T(!new)>(a: seq<S>, keyA: S -> string, b: seq<T>, keyB: T -> string)
    requires SameKeySet(a, keyA, b, keyB)
    ensures forall k :: k in Keys(a, keyA) <==> k in Keys(b, keyB)
    ensures |Keys(a, keyA)| == |a| && |Keys(b, keyB)| == |b|
  {
    forall k ensures k in Keys(a, keyA) <==> k in Keys(b, keyB) {
      KeyOfOne(a, keyA, k);
      KeyOfOne(b, keyB, k);
    }
  }

  /** A list in code-point order and one in code-unit order with the same keys: as many, and
      in the same order exactly when no two keys flip. */
  lemma SameOrderIff<S(!new), T(!new)>(a: seq<S>, keyA: S -> string, b: seq<T>, keyB: T -> string)
    requires SortedBy(a, keyA, Less) && SortedBy(b, keyB, JsLess) && SameKeySet(a, keyA, b, keyB)
    ensures |a| == |b|
    ensures Keys(a, keyA) == Keys(b, keyB) <==> NoFlips(Keys(a, keyA))
  {
    hide Keys, Less, JsLess, Flips, StrictOrder, SortedBy, SameKeySet, NoFlips;
    var p, q := Keys(a, keyA), Keys(b, keyB);
    LessIsStrict();
    JsIsStrict();
    KeysSorted(a, keyA, Less);
    KeysSorted(b, keyB, JsLess);
    SameKeyMembers(a, keyA, b, keyB);
    SortedSize(p, Less);
    SortedSize(q, JsLess);
    assert (set k | k in p) == (set k | k in q);
    if NoFlips(p) {
      NoFlipsSorted(p);
      SortedUnique(p, q, Itself, JsLess);
    }
    if p == q { SortedBothWays(p); }
  }

  lemma KeysSorted<T(!new)>(s: seq<T>, key: T -> string, less: (string, string) -> bool)
    requires SortedBy(s, key, less)
    ensures SortedBy(Keys(s, key), Itself, less)
  {
  }

  function ModifiedPath(m: ModifiedEntry): string { m.path }

  // ---- what a diff is ------------------------------------------------------------------

  ghost predicate HasPath(es: Entries, path: string) {
    exists e :: e in es && e.path == path
  }

  /** The two manifests disagree about a path they both have. */
  ghost predicate Changed(a: Entries, b: Entries, m: ModifiedEntry) {
    && m.before in a && m.after in b && m.before.path == m.path == m.after.path && m.before != m.after
    && m.contentChanged == ContentDiffers(m.before, m.after) && m.modeChanged == (m.before.mode != m.after.mode)
  }

  ghost predicate SortedModified(ms: seq<ModifiedEntry>) {
    SortedBy(ms, ModifiedPath, Less)
  }

  ghost predicate IsDiff(a: Entries, b: Entries, d: ManifestDiff) {
    && (forall e :: e in d.added <==> e in b && !HasPath(a, e.path))
    && (forall e :: e in d.removed <==> e in a && !HasPath(b, e.path))
    && (forall m :: m in d.modified <==> Changed(a, b, m))
    && SortedByPath(d.added) && SortedByPath(d.removed) && SortedModified(d.modified)
  }

  // ---- the merge ----------------------------------------------------------------------------

  /** The state of the merge: everything before `i` and `j` is accounted for. */
  ghost predicate Merged(a: Entries, b: Entries, i: nat, j: nat, d: ManifestDiff)
    requires i <= |a| && j <= |b|
  {
    && (i > 0 && j < |b| ==> Less(a[i - 1].path, b[j].path))
    && (j > 0 && i < |a| ==> Less(b[j - 1].path, a[i].path))
    && (forall e :: e in d.added <==> e in b[..j] && !HasPath(a, e.path))
    && (forall e :: e in d.removed <==> e in a[..i] && !HasPath(b, e.path))
    && (forall m :: m in d.modified <==> Changed(a[..i], b[..j], m))
    && SortedByPath(d.added) && SortedByPath(d.removed) && SortedModified(d.modified)
  }

  /** `path` lies strictly between what precedes `k` and what starts at `k`. */
  lemma NotAmong(es: Entries, k: nat, path: string)
    requires SortedByPath(es) && k <= |es|
    requires k > 0 ==> Less(es[k - 1].path, path)
    requires k < |es| ==> Less(path, es[k].path)
    ensures !HasPath(es, path)
  {
    forall i | 0 <= i < |es| ensures es[i].path != path {
      LessTrichotomy(path, path);
      if i < k - 1 { LessTransitive(es[i].path, es[k - 1].path, path); }
      if i > k { LessTransitive(path, es[k].path, es[i].path); }
    }
  }

  lemma BelowNext(es: Entries, k: nat, e: ManifestEntry)
    requires SortedByPath(es) && k < |es| && e in es[..k]
    ensures Less(e.path, es[k].path)
  {
  }

  lemma SortedMore(es: Entries, e: ManifestEntry)
    requires SortedByPath(es) && forall x :: x in es ==> Less(x.path, e.path)
    ensures SortedByPath(es + [e])
  {
  }

  lemma TakeRemoved(a: Entries, b: Entries, i: nat, j: nat, d: ManifestDiff)
    requires SortedByPath(a) && SortedByPath(b) && i < |a| && j <= |b| && Merged(a, b, i, j, d)
    requires j < |b| ==> Less(a[i].path, b[j].path)
    ensures Merged(a, b, i + 1, j, d.(removed := d.removed + [a[i]]))
  {
    NotAmong(b, j, a[i].path);
    assert a[..i + 1] == a[..i] + [a[i]];
    forall x | x in d.removed ensures Less(x.path, a[i].path) { BelowNext(a, i, x); }
    SortedMore(d.removed, a[i]);
    if j > 0 && i + 1 < |a| { LessTransitive(b[j - 1].path, a[i].path, a[i + 1].path); }
    forall m ensures Changed(a[..i + 1], b[..j], m) <==> Changed(a[..i], b[..j], m) {
      assert m.after in b[..j] ==> m.after in b;
    }
  }

  lemma TakeAdded(a: Entries, b: Entries, i: nat, j: nat, d: ManifestDiff)
    requires SortedByPath(a) && SortedByPath(b) && i <= |a| && j < |b| && Merged(a, b, i, j, d)
    requires i < |a| ==> Less(b[j].path, a[i].path)
    ensures Merged(a, b, i, j + 1, d.(added := d.added + [b[j]]))
  {
    NotAmong(a, i, b[j].path);
    assert b[..j + 1] == b[..j] + [b[j]];
    forall x | x in d.added ensures Less(x.path, b[j].path) { BelowNext(b, j, x); }
    SortedMore(d.added, b[j]);
    if i > 0 && j + 1 < |b| { LessTransitive(a[i - 1].path, b[j].path, b[j + 1].path); }
    forall m ensures Changed(a[..i], b[..j + 1], m) <==> Changed(a[..i], b[..j], m) {
      assert m.before in a[..i] ==> m.before in a;
    }
  }

  function BothAt(ea: ManifestEntry, eb: ManifestEntry): seq<ModifiedEntry> {
    var contentChanged, modeChanged := ContentDiffers(ea, eb), ea.mode != eb.mode;
    if contentChanged || modeChanged then [ModifiedEntry(ea.path, ea, eb, contentChanged, modeChanged)] else []
  }

  /** One more pair with the same path changes what is changed by that pair alone. */
  lemma ChangedMore(a: Entries, b: Entries, i: nat, j: nat, m: ModifiedEntry)
    requires SortedByPath(a) && SortedByPath(b) && i < |a| && j < |b| && a[i].path == b[j].path
    ensures Changed(a[..i + 1], b[..j + 1], m) <==> Changed(a[..i], b[..j], m) || m in BothAt(a[i], b[j])
  {
    assert a[..i + 1] == a[..i] + [a[i]] && b[..j + 1] == b[..j] + [b[j]];
    LessTrichotomy(a[i].path, a[i].path);
    if m.before in a[..i] { BelowNext(a, i, m.before); }
    if m.after in b[..j] { BelowNext(b, j, m.after); }
  }

  lemma ModifiedMore(a: Entries, b: Entries, i: nat, j: nat, ms: seq<ModifiedEntry>)
    requires SortedByPath(a) && SortedByPath(b) && i < |a| && j < |b| && a[i].path == b[j].path
    requires SortedModified(ms) && forall m :: m in ms <==> Changed(a[..i], b[..j], m)
    ensures SortedModified(ms + BothAt(a[i], b[j]))
    ensures forall m :: m in ms + BothAt(a[i], b[j]) <==> Changed(a[..i + 1], b[..j + 1], m)
  {
    forall m | m in ms ensures Less(m.path, a[i].path) { BelowNext(a, i, m.before); }
    hide Changed, ContentDiffers;
    forall m ensures m in ms + BothAt(a[i], b[j]) <==> Changed(a[..i + 1], b[..j + 1], m) { ChangedMore(a, b, i, j, m); }
  }

  lemma OrderMore(a: Entries, b: Entries, i: nat, j: nat)
    requires SortedByPath(a) && SortedByPath(b) && i < |a| && j < |b| && a[i].path == b[j].path
    ensures j + 1 < |b| ==> Less(a[i].path, b[j + 1].path)
    ensures i + 1 < |a| ==> Less(b[j].path, a[i + 1].path)
  {
  }

  lemma TakeBoth(a: Entries, b: Entries, i: nat, j: nat, d: ManifestDiff)
    requires SortedByPath(a) && SortedByPath(b) && i < |a| && j < |b| && Merged(a, b, i, j, d)
    requires a[i].path == b[j].path
    ensures Merged(a, b, i + 1, j + 1, d.(modified := d.modified + BothAt(a[i], b[j])))
  {
    hide Changed, SortedByPath, SortedModified, BothAt, Less;
    assert a[..i + 1] == a[..i] + [a[i]] && b[..j + 1] == b[..j] + [b[j]];
    assert HasPath(a, b[j].path) && HasPath(b, a[i].path);
    hide HasPath;
    OrderMore(a, b, i, j);
    ModifiedMore(a, b, i, j, d.modified);
  }

  /** Linear merge by path. */
  method Diff(a: Entries, b: Entries) returns (d: ManifestDiff)
    requires SortedByPath(a) && SortedByPath(b)
    ensures IsDiff(a, b, d)
  {
    hide Changed, HasPath, SortedByPath, SortedModified, Merged;
    d := ManifestDiff([], [], []);
    var i, j := 0, 0;
    assert Merged(a, b, 0, 0, d) by { MergeStarts(a, b); }
    while i < |a| && j < |b|
      invariant i <= |a| && j <= |b| && Merged(a, b, i, j, d)
      decreases |a| - i + |b| - j
    {
      LessTrichotomy(a[i].path, b[j].path);
      if Less(a[i].path, b[j].path) {
        TakeRemoved(a, b, i, j, d);
        d := d.(removed := d.removed + [a[i]]);
        i := i + 1;
      } else if Less(b[j].path, a[i].path) {
        TakeAdded(a, b, i, j, d);
        d := d.(added := d.added + [b[j]]);
        j := j + 1;
      } else {
        TakeBoth(a, b, i, j, d);
        var contentChanged, modeChanged := ContentDiffers(a[i], b[j]), a[i].mode != b[j].mode;
        if contentChanged || modeChanged {
          d := d.(modified := d.modified + [ModifiedEntry(a[i].path, a[i], b[j], contentChanged, modeChanged)]);
        } else {
          assert d.modified + [] == d.modified;
        }
        i, j := i + 1, j + 1;
      }
    }
    while i < |a|
      invariant i <= |a| && j <= |b| && Merged(a, b, i, j, d) && (i < |a| ==> j == |b|)
    {
      TakeRemoved(a, b, i, j, d);
      d := d.(removed := d.removed + [a[i]]);
      i := i + 1;
    }
    while j < |b|
      invariant i == |a| && j <= |b| && Merged(a, b, i, j, d)
    {
      TakeAdded(a, b, i, j, d);
      d := d.(added := d.added + [b[j]]);
      j := j + 1;
    }
    MergeEnds(a, b, d);
  }

  lemma MergeStarts(a: Entries, b: Entries)
    ensures Merged(a, b, 0, 0, ManifestDiff([], [], []))
  {
  }

  lemma MergeEnds(a: Entries, b: Entries, d: ManifestDiff)
    requires Merged(a, b, |a|, |b|, d)
    ensures IsDiff(a, b, d)
  {
    assert a[..|a|] == a && b[..|b|] == b;
  }

  // ---- what a diff is good for ------------------------------------------------------------------

  /** Whether an entry of `a` is still there. */
  ghost predicate Kept(d: ManifestDiff, e: ManifestEntry) {
    e !in d.removed && forall m :: m in d.modified ==> m.before != e
  }

  /** `c` is what `d` makes of `a`. */
  ghost predicate Applied(a: Entries, d: ManifestDiff, c: Entries) {
    SortedByPath(c) && forall e :: e in c <==> e in d.added || (exists m :: m in d.modified && m.after == e) || (e in a && Kept(d, e))
  }

  lemma PathDecides(es: Entries, x: ManifestEntry, y: ManifestEntry)
    requires SortedByPath(es) && x in es && y in es && x.path == y.path
    ensures x == y
  {
    LessTrichotomy(x.path, y.path);
  }

  /** An entry of `b` is added, or the new form of a modified one, or an entry of `a` the diff keeps. */
  lemma WhereFrom(a: Entries, b: Entries, d: ManifestDiff, e: ManifestEntry)
    requires SortedByPath(a) && SortedByPath(b) && IsDiff(a, b, d)
    ensures e in b <==> e in d.added || (exists m :: m in d.modified && m.after == e) || (e in a && Kept(d, e))
  {
    if e in b && HasPath(a, e.path) {
      var x :| x in a && x.path == e.path;
      if x != e {
        assert Changed(a, b, ModifiedEntry(e.path, x, e, ContentDiffers(x, e), x.mode != e.mode));
      } else {
        forall m | m in d.modified ensures m.before != e {
          if m.before == e { PathDecides(b, e, m.after); }
        }
        assert HasPath(b, e.path);
      }
    }
    if e in a && Kept(d, e) {
      assert HasPath(b, e.path);
      var y :| y in b && y.path == e.path;
      var m := ModifiedEntry(e.path, e, y, ContentDiffers(e, y), e.mode != y.mode);
      assert y != e ==> Changed(a, b, m);
    }
  }

  /** Applying the diff of `a` and `b` to `a` gives `b`, and nothing else. */
  lemma ApplyGivesTheOther(a: Entries, b: Entries, d: ManifestDiff, c: Entries)
    requires SortedByPath(a) && SortedByPath(b) && IsDiff(a, b, d)
    ensures Applied(a, d, c) <==> c == b
  {
    hide IsDiff, Kept, SortedByPath;
    forall e ensures e in b <==> e in d.added || (exists m :: m in d.modified && m.after == e) || (e in a && Kept(d, e)) {
      WhereFrom(a, b, d, e);
    }
    if Applied(a, d, c) {
      forall e ensures e in c <==> e in b {}
      SortedEntriesUnique(c, b);
    }
  }

  function Mirror(m: ModifiedEntry): ModifiedEntry {
    m.(before := m.after, after := m.before)
  }

  function MirrorAll(ms: seq<ModifiedEntry>): (r: seq<ModifiedEntry>)
    ensures |r| == |ms| && forall i :: 0 <= i < |r| ==> r[i] == Mirror(ms[i])
  {
    seq(|ms|, i requires 0 <= i < |ms| => Mirror(ms[i]))
  }

  /** Swapping the manifests swaps added and removed, before and after. */
  lemma SwapMirrors(a: Entries, b: Entries, d: ManifestDiff)
    requires IsDiff(a, b, d)
    ensures IsDiff(b, a, ManifestDiff(d.removed, d.added, MirrorAll(d.modified)))
  {
    var ms := MirrorAll(d.modified);
    forall m ensures m in ms <==> Changed(b, a, m) {
      assert Changed(b, a, m) <==> Changed(a, b, Mirror(m));
      if m in ms {
        var i :| 0 <= i < |ms| && ms[i] == m;
        assert d.modified[i] == Mirror(m);
        assert Mirror(m) in d.modified;
      }
      if Changed(b, a, m) {
        assert Mirror(m) in d.modified;
        var i :| 0 <= i < |d.modified| && d.modified[i] == Mirror(m);
        assert ms[i] == m;
      }
    }
  }

  /** The diff is empty exactly when the entry lists are equal. */
  lemma EmptyIffEqual(a: Entries, b: Entries, d: ManifestDiff)
    requires SortedByPath(a) && SortedByPath(b) && IsDiff(a, b, d)
    ensures d.added == [] && d.removed == [] && d.modified == [] <==> a == b
  {
    assert d.added == [] || d.added[0] in d.added;
    assert d.removed == [] || d.removed[0] in d.removed;
    assert d.modified == [] || d.modified[0] in d.modified;
    if d.added == [] && d.removed == [] && d.modified == [] {
      assert forall e :: Kept(d, e);
      forall e ensures e in a <==> e in b { WhereFrom(a, b, d, e); }
      SortedEntriesUnique(a, b);
    }
    if a == b {
      forall e ensures e !in d.added && e !in d.removed { assert e in a ==> HasPath(a, e.path); }
      forall m ensures m !in d.modified { if m.before in a && m.after in a && m.before.path == m.after.path { PathDecides(a, m.before, m.after); } }
    }
  }

  // ---- the map-based one ----------------------------------------------------------------------------

  datatype Facts = Facts(kind: EntryKind, mode: nat, size: nat, symlinkTarget: Option<string>, chunks: nat)

  datatype TsEntry = TsEntry(path: string, facts: Facts)

  datatype TsModified = TsModified(path: string, from: Facts, to: Facts, sizeDelta: int,
                                   contentChanged: bool, modeChanged: bool, kindChanged: bool, symlinkChanged: bool)

  datatype TsDiff = TsDiff(added: seq<TsEntry>, modified: seq<TsModified>, removed: seq<TsEntry>)

  function FactsOf(e: ManifestEntry): Facts {
    Facts(e.kind, e.mode, e.size, e.symlinkTarget, |e.chunks|)
  }

  /** The same chunk list, ids and lengths. */
  method SameChunks(a: ManifestEntry, b: ManifestEntry) returns (same: bool)
    ensures same <==> a.chunks == b.chunks
  {
    if |a.chunks| != |b.chunks| { return false; }
    for i := 0 to |a.chunks|
      invariant a.chunks[..i] == b.chunks[..i]
    {
      var x, y := a.chunks[i], b.chunks[i];
      if x.chunk != y.chunk || x.len != y.len { return false; }
      assert a.chunks[..i + 1] == a.chunks[..i] + [x] && b.chunks[..i + 1] == b.chunks[..i] + [y];
    }
    assert a.chunks[..|a.chunks|] == a.chunks && b.chunks[..|b.chunks|] == b.chunks;
    return true;
  }

  /** The entries by path; a repeated path keeps its last entry. */
  function ByPathSpec(es: Entries): map<string, ManifestEntry> {
    if es == [] then map[] else ByPathSpec(es[..|es| - 1])[es[|es| - 1].path := es[|es| - 1]]
  }

  method ByPath(es: Entries) returns (m: map<string, ManifestEntry>)
    ensures m == ByPathSpec(es)
  {
    m := map[];
    for k := 0 to |es|
      invariant m == ByPathSpec(es[..k])
    {
      assert es[..k + 1][..k] == es[..k];
      m := m[es[k].path := es[k]];
    }
    assert es[..|es|] == es;
  }

  lemma {:induction false} ByPathHas(es: Entries)
    ensures forall p :: p in ByPathSpec(es) ==> ByPathSpec(es)[p] in es && ByPathSpec(es)[p].path == p
    ensures forall e :: e in es ==> e.path in ByPathSpec(es)
    decreases |es|
  {
    if es != [] {
      var less := es[..|es| - 1];
      ByPathHas(less);
      assert es == less + [es[|es| - 1]];
    }
  }

  lemma ByPathExact(es: Entries)
    requires SortedByPath(es)
    ensures forall e :: e in es <==> e.path in ByPathSpec(es) && ByPathSpec(es)[e.path] == e
    ensures forall p :: p in ByPathSpec(es) <==> HasPath(es, p)
  {
    ByPathHas(es);
    forall e | e in es ensures ByPathSpec(es)[e.path] == e { PathDecides(es, e, ByPathSpec(es)[e.path]); }
  }

  predicate TsChanged(x: ManifestEntry, y: ManifestEntry) {
    x.chunks != y.chunks || x.size != y.size || x.mode != y.mode || x.kind != y.kind || x.symlinkTarget != y.symlinkTarget
  }

  function TsModifiedOf(x: ManifestEntry, y: ManifestEntry): TsModified {
    TsModified(y.path, FactsOf(x), FactsOf(y), y.size as int - x.size as int,
               x.chunks != y.chunks || x.size != y.size, x.mode != y.mode, x.kind != y.kind, x.symlinkTarget != y.symlinkTarget)
  }

  function TsPath(t: TsEntry): string { t.path }

  function TsModifiedPath(t: TsModified): string { t.path }

  /** By path: what only `b` has, what only `a` has, and what both have but not the same. */
  ghost predicate IsTsDiff(a: map<string, ManifestEntry>, b: map<string, ManifestEntry>, d: TsDiff) {
    && (forall t :: t in d.added <==> t.path in b && t.path !in a && t.facts == FactsOf(b[t.path]))
    && (forall t :: t in d.removed <==> t.path in a && t.path !in b && t.facts == FactsOf(a[t.path]))
    && (forall t :: t in d.modified <==> t.path in a && t.path in b && TsChanged(a[t.path], b[t.path]) && t == TsModifiedOf(a[t.path], b[t.path]))
    && SortedBy(d.added, TsPath, JsLess) && SortedBy(d.removed, TsPath, JsLess) && SortedBy(d.modified, TsModifiedPath, JsLess)
  }

  lemma NothingListed()
    ensures SortedBy<TsEntry>([], TsPath, JsLess) && SortedBy<TsModified>([], TsModifiedPath, JsLess)
  {
  }

  /** `ts` lists, in order, what of `here`'s paths outside `todo` is not in `there`. */
  ghost predicate ListsOnly(here: map<string, ManifestEntry>, there: map<string, ManifestEntry>, todo: set<string>, ts: seq<TsEntry>) {
    && SortedBy(ts, TsPath, JsLess)
    && forall t :: t in ts <==> t.path in here && t.path !in todo && t.path !in there && t.facts == FactsOf(here[t.path])
  }

  ghost predicate ListsChanged(a: map<string, ManifestEntry>, b: map<string, ManifestEntry>, todo: set<string>, ts: seq<TsModified>) {
    && SortedBy(ts, TsModifiedPath, JsLess)
    && forall t :: t in ts <==>
         t.path in a && t.path in b && t.path !in todo && TsChanged(a[t.path], b[t.path]) && t == TsModifiedOf(a[t.path], b[t.path])
  }

  lemma NothingListedYet(a: map<string, ManifestEntry>, b: map<string, ManifestEntry>)
    ensures ListsOnly(b, a, b.Keys, []) && ListsChanged(a, b, b.Keys, [])
  {
  }

  lemma ListsOnlySorted(here: map<string, ManifestEntry>, there: map<string, ManifestEntry>, todo: set<string>, ts: seq<TsEntry>)
    requires ListsOnly(here, there, todo, ts)
    ensures SortedBy(ts, TsPath, JsLess)
  {
  }

  lemma ListsChangedSorted(a: map<string, ManifestEntry>, b: map<string, ManifestEntry>, todo: set<string>, ts: seq<TsModified>)
    requires ListsChanged(a, b, todo, ts)
    ensures SortedBy(ts, TsModifiedPath, JsLess)
  {
  }

  lemma ListsOnlyMore(here: map<string, ManifestEntry>, there: map<string, ManifestEntry>, todo: set<string>, ts: seq<TsEntry>, path: string)
    requires ListsOnly(here, there, todo, ts) && path in here && path in todo
    ensures path in there ==> ListsOnly(here, there, todo - {path}, ts)
    ensures forall t :: t in ts ==> t.path != path
  {
    hide FactsOf, SortedBy;
  }

  lemma ListsOnlyThis(here: map<string, ManifestEntry>, there: map<string, ManifestEntry>, todo: set<string>, ts: seq<TsEntry>, path: string)
    requires StrictOrder(JsLess) && ListsOnly(here, there, todo, ts) && path in here && path in todo && path !in there
    ensures forall t :: t in ts ==> TsPath(t) != path
    ensures ListsOnly(here, there, todo - {path}, InsertBy(ts, TsEntry(path, FactsOf(here[path])), TsPath, JsLess))
  {
    hide FactsOf, SortedBy, StrictOrder, JsLess;
    ListsOnlyMore(here, there, todo, ts, path);
  }

  lemma ListsChangedMore(a: map<string, ManifestEntry>, b: map<string, ManifestEntry>, todo: set<string>, ts: seq<TsModified>, path: string)
    requires ListsChanged(a, b, todo, ts) && path in b && path in todo && forall p :: p in b ==> b[p].path == p
    ensures path !in a || !TsChanged(a[path], b[path]) ==> ListsChanged(a, b, todo - {path}, ts)
    ensures forall t :: t in ts ==> t.path != path
  {
    hide FactsOf, SortedBy;
  }

  lemma ListsChangedThis(a: map<string, ManifestEntry>, b: map<string, ManifestEntry>, todo: set<string>, ts: seq<TsModified>, path: string)
    requires StrictOrder(JsLess) && ListsChanged(a, b, todo, ts) && path in a && path in b && path in todo && TsChanged(a[path], b[path])
    requires forall p :: p in b ==> b[p].path == p
    ensures forall t :: t in ts ==> TsModifiedPath(t) != path
    ensures ListsChanged(a, b, todo - {path}, InsertBy(ts, TsModifiedOf(a[path], b[path]), TsModifiedPath, JsLess))
  {
    hide FactsOf, SortedBy, StrictOrder, JsLess, TsChanged;
    ListsChangedMore(a, b, todo, ts, path);
  }

  /** The entries of `to`: added, or modified. */
  method AddedAndModified(a: map<string, ManifestEntry>, b: map<string, ManifestEntry>) returns (added: seq<TsEntry>, modified: seq<TsModified>)
    requires forall p :: p in b ==> b[p].path == p
    ensures ListsOnly(b, a, {}, added) && ListsChanged(a, b, {}, modified)
  {
    JsIsStrict();
    hide StrictOrder, SortedBy, JsLess, FactsOf, ListsOnly, ListsChanged;
    assert ListsOnly(b, a, b.Keys, []) && ListsChanged(a, b, b.Keys, []) by { NothingListedYet(a, b); }
    added, modified := [], [];
    var todo := b.Keys;
    while todo != {}
      invariant todo <= b.Keys && ListsOnly(b, a, todo, added) && ListsChanged(a, b, todo, modified)
      decreases todo
    {
      var path :| path in todo;
      var toEntry := b[path];
      ListsOnlyMore(b, a, todo, added, path);
      ListsChangedMore(a, b, todo, modified, path);
      if path !in a {
        ListsOnlyThis(b, a, todo, added, path);
        ListsOnlySorted(b, a, todo, added);
        added := InsertBy(added, TsEntry(path, FactsOf(toEntry)), TsPath, JsLess);
      } else {
        var fromEntry := a[path];
        var same := SameChunks(fromEntry, toEntry);
        var contentChanged := !same || fromEntry.size != toEntry.size;
        var modeChanged := fromEntry.mode != toEntry.mode;
        var kindChanged := fromEntry.kind != toEntry.kind;
        var symlinkChanged := fromEntry.symlinkTarget != toEntry.symlinkTarget;
        if contentChanged || modeChanged || kindChanged || symlinkChanged {
          ListsChangedThis(a, b, todo, modified, path);
          ListsChangedSorted(a, b, todo, modified);
          modified := InsertBy(modified, TsModified(path, FactsOf(fromEntry), FactsOf(toEntry),
            toEntry.size as int - fromEntry.size as int, contentChanged, modeChanged, kindChanged, symlinkChanged), TsModifiedPath, JsLess);
        }
      }
      todo := todo - {path};
    }
  }

  /** The entries of `from` that `to` no longer has. */
  method RemovedFrom(a: map<string, ManifestEntry>, b: map<string, ManifestEntry>) returns (removed: seq<TsEntry>)
    ensures ListsOnly(a, b, {}, removed)
  {
    JsIsStrict();
    hide StrictOrder, SortedBy, JsLess;
    NothingListed();
    removed := [];
    var todo := a.Keys;
    while todo != {}
      invariant todo <= a.Keys && ListsOnly(a, b, todo, removed)
      decreases todo
    {
      var path :| path in todo;
      if path !in b { removed := InsertBy(removed, TsEntry(path, FactsOf(a[path])), TsPath, JsLess); }
      todo := todo - {path};
    }
  }

  /** Map-based diff; the order in which the maps are walked does not show. */
  method DiffManifests(from: Entries, to: Entries) returns (d: TsDiff)
    ensures IsTsDiff(ByPathSpec(from), ByPathSpec(to), d)
  {
    var a := ByPath(from);
    var b := ByPath(to);
    ByPathHas(to);
    hide ByPathSpec, SortedBy;
    var added, modified := AddedAndModified(a, b);
    var removed := RemovedFrom(a, b);
    return TsDiff(added, modified, removed);
  }

  /** Field by field, what an item says of its entry. */
  ghost predicate Tells(f: Facts, e: ManifestEntry) {
    f.kind == e.kind && f.mode == e.mode && f.size == e.size && f.symlinkTarget == e.symlinkTarget && f.chunks == |e.chunks|
  }

  /** Every item reports its own entries, the old one first, and the change in size from old to new. */
  lemma ItemsTell(from: Entries, to: Entries, d: TsDiff)
    requires IsTsDiff(ByPathSpec(from), ByPathSpec(to), d)
    ensures forall t :: t in d.added ==> exists e :: e in to && e.path == t.path && Tells(t.facts, e)
    ensures forall t :: t in d.removed ==> exists e :: e in from && e.path == t.path && Tells(t.facts, e)
    ensures forall t :: t in d.modified ==> exists x, y :: x in from && y in to && x.path == t.path == y.path && Reports(t, x, y)
    ensures forall i, j :: 0 <= i < j < |d.added| ==> JsLess(d.added[i].path, d.added[j].path)
    ensures forall i, j :: 0 <= i < j < |d.removed| ==> JsLess(d.removed[i].path, d.removed[j].path)
    ensures forall i, j :: 0 <= i < j < |d.modified| ==> JsLess(d.modified[i].path, d.modified[j].path)
  {
    hide JsLess;
    forall i, j | 0 <= i < j < |d.added| ensures JsLess(d.added[i].path, d.added[j].path) { assert JsLess(TsPath(d.added[i]), TsPath(d.added[j])); }
    forall i, j | 0 <= i < j < |d.removed| ensures JsLess(d.removed[i].path, d.removed[j].path) { assert JsLess(TsPath(d.removed[i]), TsPath(d.removed[j])); }
    forall i, j | 0 <= i < j < |d.modified| ensures JsLess(d.modified[i].path, d.modified[j].path) {
      assert JsLess(TsModifiedPath(d.modified[i]), TsModifiedPath(d.modified[j]));
    }
    ByPathHas(from);
    ByPathHas(to);
    var a, b := ByPathSpec(from), ByPathSpec(to);
    hide ByPathSpec, SortedBy;
    forall t | t in d.added ensures exists e :: e in to && e.path == t.path && Tells(t.facts, e) { assert Tells(t.facts, b[t.path]); }
    forall t | t in d.removed ensures exists e :: e in from && e.path == t.path && Tells(t.facts, e) { assert Tells(t.facts, a[t.path]); }
    forall t | t in d.modified ensures exists x, y :: x in from && y in to && x.path == t.path == y.path && Reports(t, x, y) {
      assert Reports(t, a[t.path], b[t.path]);
    }
  }

  ghost predicate Reports(t: TsModified, x: ManifestEntry, y: ManifestEntry) {
    && Tells(t.from, x) && Tells(t.to, y) && x.size + t.sizeDelta == y.size
    && (t.contentChanged <==> x.chunks != y.chunks || x.size != y.size)
    && (t.modeChanged <==> x.mode != y.mode) && (t.kindChanged <==> x.kind != y.kind)
    && (t.symlinkChanged <==> x.symlinkTarget != y.symlinkTarget)
    && (t.contentChanged || t.modeChanged || t.kindChanged || t.symlinkChanged)
  }

  // ---- the two agree ------------------------------------------------------------------------------------

  /** What is in one list and has no namesake in the other, either way round. */
  lemma SameOnlyHere(here: Entries, there: Entries, es: Entries, ts: seq<TsEntry>)
    requires SortedByPath(here) && SortedByPath(there)
    requires forall e :: e in es <==> e in here && !HasPath(there, e.path)
    requires var h := ByPathSpec(here); forall t :: t in ts <==> t.path in h && t.path !in ByPathSpec(there) && t.facts == FactsOf(h[t.path])
    ensures forall t :: t in ts <==> exists x :: x in es && t == TsEntry(x.path, FactsOf(x))
  {
    ByPathExact(here);
    ByPathExact(there);
    hide ByPathSpec, SortedByPath, HasPath, FactsOf;
    var h := ByPathSpec(here);
    forall t ensures t in ts <==> exists x :: x in es && t == TsEntry(x.path, FactsOf(x)) {
      if t in ts { assert h[t.path] in es; }
      if x :| x in es && t == TsEntry(x.path, FactsOf(x)) { assert h[x.path] == x; }
    }
  }

  lemma SameModified(a: Entries, b: Entries, ms: seq<ModifiedEntry>, ts: seq<TsModified>)
    requires SortedByPath(a) && SortedByPath(b) && forall m :: m in ms <==> Changed(a, b, m)
    requires var x, y := ByPathSpec(a), ByPathSpec(b);
      forall t :: t in ts <==> t.path in x && t.path in y && TsChanged(x[t.path], y[t.path]) && t == TsModifiedOf(x[t.path], y[t.path])
    ensures forall t :: t in ts <==> exists m :: m in ms && t == TsModifiedOf(m.before, m.after)
  {
    ByPathExact(a);
    ByPathExact(b);
    hide ByPathSpec, SortedByPath, HasPath;
    var x, y := ByPathSpec(a), ByPathSpec(b);
    forall t ensures t in ts <==> exists m :: m in ms && t == TsModifiedOf(m.before, m.after) {
      if t in ts {
        var e, e' := x[t.path], y[t.path];
        assert ModifiedEntry(t.path, e, e', ContentDiffers(e, e'), e.mode != e'.mode) in ms;
      }
      if m :| m in ms && t == TsModifiedOf(m.before, m.after) { assert x[m.path] == m.before && y[m.path] == m.after; }
    }
  }

  lemma SameChanges(a: Entries, b: Entries, d: ManifestDiff, t: TsDiff)
    requires SortedByPath(a) && SortedByPath(b) && IsDiff(a, b, d) && IsTsDiff(ByPathSpec(a), ByPathSpec(b), t)
    ensures forall e :: e in t.added <==> exists x :: x in d.added && e == TsEntry(x.path, FactsOf(x))
    ensures forall e :: e in t.removed <==> exists x :: x in d.removed && e == TsEntry(x.path, FactsOf(x))
    ensures forall e :: e in t.modified <==> exists m :: m in d.modified && e == TsModifiedOf(m.before, m.after)
    ensures forall m :: m in d.modified ==> Changed(a, b, m)
  {
    hide ByPathSpec, SortedByPath, HasPath, Changed, FactsOf, TsModifiedOf, TsChanged, SortedBy, SortedModified;
    SameOnlyHere(b, a, d.added, t.added);
    SameOnlyHere(a, b, d.removed, t.removed);
    SameModified(a, b, d.modified, t.modified);
  }

  lemma SameFlags(a: Entries, b: Entries, m: ModifiedEntry)
    requires Changed(a, b, m)
    ensures var e := TsModifiedOf(m.before, m.after);
      m.path == m.after.path && m.modeChanged == e.modeChanged && m.contentChanged == (e.contentChanged || e.kindChanged || e.symlinkChanged)
  {
  }

  lemma SamePaths(es: Entries, ts: seq<TsEntry>)
    requires forall t :: t in ts <==> exists x :: x in es && t == TsEntry(x.path, FactsOf(x))
    ensures SameKeySet(es, PathOf, ts, TsPath)
  {
    hide FactsOf;
    forall x | x in es ensures exists t :: t in ts && TsPath(t) == PathOf(x) { assert TsPath(TsEntry(x.path, FactsOf(x))) == x.path; }
    forall t | t in ts ensures exists x :: x in es && PathOf(x) == TsPath(t) {
      var x :| x in es && t == TsEntry(x.path, FactsOf(x));
      assert PathOf(x) == TsPath(t);
    }
  }

  lemma ModifiedKeepsPath(x: ManifestEntry, y: ManifestEntry)
    ensures TsModifiedOf(x, y).path == y.path
  {
  }

  lemma SameModifiedPaths(ms: seq<ModifiedEntry>, ts: seq<TsModified>)
    requires forall m :: m in ms ==> m.path == m.after.path
    requires forall t :: t in ts <==> exists m :: m in ms && t == TsModifiedOf(m.before, m.after)
    ensures SameKeySet(ms, ModifiedPath, ts, TsModifiedPath)
  {
    hide TsModifiedOf;
    forall m | m in ms ensures exists t :: t in ts && TsModifiedPath(t) == ModifiedPath(m) {
      ModifiedKeepsPath(m.before, m.after);
      assert TsModifiedOf(m.before, m.after) in ts;
    }
    forall t | t in ts ensures exists m :: m in ms && ModifiedPath(m) == TsModifiedPath(t) {
      var m :| m in ms && t == TsModifiedOf(m.before, m.after);
      ModifiedKeepsPath(m.before, m.after);
      assert ModifiedPath(m) == TsModifiedPath(t);
    }
  }

  lemma InPathOrder(a: Entries, b: Entries, d: ManifestDiff, t: TsDiff)
    requires IsDiff(a, b, d) && IsTsDiff(ByPathSpec(a), ByPathSpec(b), t)
    ensures SortedBy(d.added, PathOf, Less) && SortedBy(d.removed, PathOf, Less) && SortedBy(d.modified, ModifiedPath, Less)
    ensures SortedBy(t.added, TsPath, JsLess) && SortedBy(t.removed, TsPath, JsLess) && SortedBy(t.modified, TsModifiedPath, JsLess)
  {
    PathSorted(d.added);
    PathSorted(d.removed);
  }

  /** On sorted manifests the two report the same added and removed entries and the same
      modified paths, their flags say the same thing of each, and the counts are equal. */
  lemma DiffsAgree(a: Entries, b: Entries, d: ManifestDiff, t: TsDiff)
    requires SortedByPath(a) && SortedByPath(b) && IsDiff(a, b, d) && IsTsDiff(ByPathSpec(a), ByPathSpec(b), t)
    ensures forall e :: e in t.added <==> exists x :: x in d.added && e == TsEntry(x.path, FactsOf(x))
    ensures forall e :: e in t.removed <==> exists x :: x in d.removed && e == TsEntry(x.path, FactsOf(x))
    ensures forall e :: e in t.modified <==> exists m :: m in d.modified && e == TsModifiedOf(m.before, m.after)
    ensures forall m :: m in d.modified ==>
      var e := TsModifiedOf(m.before, m.after);
      m.modeChanged == e.modeChanged && m.contentChanged == (e.contentChanged || e.kindChanged || e.symlinkChanged)
    ensures |t.added| == |d.added| && |t.removed| == |d.removed| && |t.modified| == |d.modified|
  {
    hide IsDiff, IsTsDiff, SortedByPath, SortedBy, FactsOf, TsModifiedOf, ByPathSpec;
    SameChanges(a, b, d, t);
    forall m | m in d.modified
      ensures var e := TsModifiedOf(m.before, m.after);
        m.path == m.after.path && m.modeChanged == e.modeChanged && m.contentChanged == (e.contentChanged || e.kindChanged || e.symlinkChanged)
    {
      SameFlags(a, b, m);
    }
    InPathOrder(a, b, d, t);
    SameOrders(d, t);
  }

  /** They list what they report in the same order exactly when, in each of the three lists, no
      two paths first differ in a supplementary character against one from U+E000 to U+FFFF. */
  lemma SameOrders(d: ManifestDiff, t: TsDiff)
    requires SortedBy(d.added, PathOf, Less) && SortedBy(d.removed, PathOf, Less) && SortedBy(d.modified, ModifiedPath, Less)
    requires SortedBy(t.added, TsPath, JsLess) && SortedBy(t.removed, TsPath, JsLess) && SortedBy(t.modified, TsModifiedPath, JsLess)
    requires forall e :: e in t.added <==> exists x :: x in d.added && e == TsEntry(x.path, FactsOf(x))
    requires forall e :: e in t.removed <==> exists x :: x in d.removed && e == TsEntry(x.path, FactsOf(x))
    requires forall e :: e in t.modified <==> exists m :: m in d.modified && e == TsModifiedOf(m.before, m.after)
    requires forall m :: m in d.modified ==> m.path == m.after.path
    ensures |t.added| == |d.added| && |t.removed| == |d.removed| && |t.modified| == |d.modified|
    ensures Keys(d.added, PathOf) == Keys(t.added, TsPath) <==> NoFlips(Keys(d.added, PathOf))
    ensures Keys(d.removed, PathOf) == Keys(t.removed, TsPath) <==> NoFlips(Keys(d.removed, PathOf))
    ensures Keys(d.modified, ModifiedPath) == Keys(t.modified, TsModifiedPath) <==> NoFlips(Keys(d.modified, ModifiedPath))
  {
    hide SortedBy, SameKeySet, FactsOf, TsModifiedOf, Keys, NoFlips;
    SamePaths(d.added, t.added);
    SamePaths(d.removed, t.removed);
    SameModifiedPaths(d.modified, t.modified);
    SameOrderIff(d.added, PathOf, t.added, TsPath);
    SameOrderIff(d.removed, PathOf, t.removed, TsPath);
    SameOrderIff(d.modified, ModifiedPath, t.modified, TsModifiedPath);
  }

  /** The whole output is in the same order exactly when none of the three lists has such a pair. */
  lemma OrdersAgreeIff(a: Entries, b: Entries, d: ManifestDiff, t: TsDiff)
    requires SortedByPath(a) && SortedByPath(b) && IsDiff(a, b, d) && IsTsDiff(ByPathSpec(a), ByPathSpec(b), t)
    ensures Keys(d.added, PathOf) == Keys(t.added, TsPath) <==> NoFlips(Keys(d.added, PathOf))
    ensures Keys(d.removed, PathOf) == Keys(t.removed, TsPath) <==> NoFlips(Keys(d.removed, PathOf))
    ensures Keys(d.modified, ModifiedPath) == Keys(t.modified, TsModifiedPath) <==> NoFlips(Keys(d.modified, ModifiedPath))
  {
    hide IsDiff, IsTsDiff, SortedByPath, SortedBy, FactsOf, TsModifiedOf, ByPathSpec, Keys, NoFlips;
    SameChanges(a, b, d, t);
    forall m | m in d.modified ensures m.path == m.after.path { SameFlags(a, b, m); }
    InPathOrder(a, b, d, t);
    SameOrders(d, t);
  }

  const WIDE: ManifestEntry := ManifestEntry("/\U{FF5E}", DirKind, 0x41ED, 0, None, [])
  const FACE: ManifestEntry := ManifestEntry("/\U{1F600}", DirKind, 0x41ED, 0, None, [])

  lemma TheTwoFlip()
    ensures Less(WIDE.path, FACE.path) && JsLess(FACE.path, WIDE.path)
  {
    hide JsLess;
    assert Less(WIDE.path[1..], FACE.path[1..]) && Flips(WIDE.path[1..], FACE.path[1..]);
    JsLessMeans(FACE.path, WIDE.path);
  }

  /** Two added directories, "/" and U+FF5E and "/" and U+1F600, are listed in opposite orders. */
  lemma OrdersCanDiffer(d: ManifestDiff, t: TsDiff)
    requires IsDiff([], [WIDE, FACE], d) && IsTsDiff(ByPathSpec([]), ByPathSpec([WIDE, FACE]), t)
    ensures SortedByPath([WIDE, FACE])
    ensures Keys(d.added, PathOf) == [WIDE.path, FACE.path]
    ensures Keys(t.added, TsPath) == [FACE.path, WIDE.path]
  {
    hide Less, JsLess, StrictOrder;
    var es := [WIDE, FACE];
    TheTwoFlip();
    forall e ensures e in d.added <==> e in es { assert e in es ==> !HasPath([], e.path); }
    SortedEntriesUnique(d.added, es);
    var listed := [TsEntry(FACE.path, FactsOf(FACE)), TsEntry(WIDE.path, FactsOf(WIDE))];
    ByPathExact(es);
    forall e ensures e in t.added <==> e in listed {
      assert e in t.added <==> HasPath(es, e.path) && e.facts == FactsOf(ByPathSpec(es)[e.path]);
    }
    JsIsStrict();
    assert SortedBy(listed, TsPath, JsLess);
    SortedUnique(t.added, listed, TsPath, JsLess);
  }
}
