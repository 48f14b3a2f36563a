/** Publishing a manifest last: snapshots and namespace bootstraps side by side
    (packages/control-plane/src/manifest-store.ts, crates/mari-core/src/snapshot.rs). */
module Publishing {
  import opened Basics
  import opened Manifests
  import opened ChunkStores
  import opened Gcs
  import opened Runs

  type Root = string

  /** One account namespace of the bucket. */
  datatype Namespace = Namespace(chunks: map<ChunkId, Body>, manifests: ManifestMap)

  type Bucket = map<Root, Namespace>

  function Of(b: Bucket, root: Root): Namespace {
    if root in b then b[root] else Namespace(map[], map[])
  }

  /** A manifest that is there has all its chunks there. */
  ghost predicate Whole(ns: Namespace) {
    forall id :: id in ns.manifests ==> ManifestChunks(ns.manifests[id]) <= ns.chunks.Keys
  }

  // ---- what a bootstrap leaves of the parents ------------------------------------------------

  /** Everything above `p` can be loaded, leaving `id` aside. */
  ghost predicate LoadableBesides(ms: ManifestMap, p: ManifestId, id: ManifestId) {
    forall x :: InClosure(ms, {p}, x) && x != id ==> Load(ms, x).Ok?
  }

  lemma {:induction false} AboveNew(ms: ManifestMap, id: ManifestId, m: Manifest, k: nat)
    requires IsAddress(id) && id !in ms && (m.parent.Some? ==> LoadableBesides(ms, m.parent.value, id))
    ensures var x := Ancestor(ms[id := m], id, k);
      x.Some? && x.value != id ==> m.parent.Some? && InClosure(ms, {m.parent.value}, x.value)
  {
    hide IsAddress;
    if k > 0 {
      AboveNew(ms, id, m, k - 1);
      var y := Ancestor(ms[id := m], id, k - 1);
      if y == Some(id) {
        if m.parent.Some? { ClosureStart(ms, {m.parent.value}, m.parent.value); }
      } else if y.Some? && Load(ms, y.value).Ok? && Load(ms, y.value).value.parent.Some? {
        ClosureStep(ms, {m.parent.value}, y.value);
      }
    }
  }

  lemma {:induction false} AboveOld(ms: ManifestMap, id: ManifestId, m: Manifest, p: ManifestId, k: nat)
    requires id !in ms && Ancestor(ms, p, k).Some?
    ensures Ancestor(ms[id := m], p, k) == Ancestor(ms, p, k)
  {
    if k > 0 { AboveOld(ms, id, m, p, k - 1); }
  }

  /** A manifest published on its own can be followed to the end of its parents exactly when it has
      none or they can be followed there already. */
  lemma NewClosureIff(ms: ManifestMap, id: ManifestId, m: Manifest)
    requires id !in ms
    ensures Complete(ms[id := m], {id}) <==> IsAddress(id) && (m.parent.Some? ==> LoadableBesides(ms, m.parent.value, id))
  {
    hide IsAddress;
    var ms' := ms[id := m];
    ClosureStart(ms', {id}, id);
    if IsAddress(id) && (m.parent.Some? ==> LoadableBesides(ms, m.parent.value, id)) {
      forall x | InClosure(ms', {id}, x) ensures Load(ms', x).Ok? {
        var r: ManifestId, k: nat :| r in {id} && Ancestor(ms', r, k) == Some(x);
        AboveNew(ms, id, m, k);
      }
    }
    if Complete(ms', {id}) && m.parent.Some? {
      var p := m.parent.value;
      forall x | InClosure(ms, {p}, x) && x != id ensures Load(ms, x).Ok? {
        var r: ManifestId, k: nat :| r in {p} && Ancestor(ms, r, k) == Some(x);
        AboveOld(ms, id, m, p, k);
        AncestorShift(ms', id, k);
        assert Ancestor(ms', id, k + 1) == Some(x);
        assert InClosure(ms', {id}, x);
      }
    }
  }

  // ---- one bootstrap -----------------------------------------------------------------

  datatype BootstrapError = NotATenant | NoSuchManifest | MissingChunk

  /** Nothing was taken away and no other namespace was touched. */
  ghost predicate OnlyAdded(before: Bucket, after: Bucket, root: Root) {
    && (forall r :: r != root ==> Of(after, r) == Of(before, r))
    && (forall c :: c in Of(before, root).chunks ==> c in Of(after, root).chunks && Of(after, root).chunks[c] == Of(before, root).chunks[c])
    && (forall id :: id in Of(before, root).manifests ==> id in Of(after, root).manifests)
  }

  /** What was copied came from the parent namespace, byte for byte. */
  ghost predicate CopiedFrom(before: Bucket, after: Bucket, root: Root, source: Root) {
    forall c :: c in Of(after, root).chunks && c !in Of(before, root).chunks ==>
      c in Of(before, source).chunks && Of(after, root).chunks[c] == Of(before, source).chunks[c]
  }

  /** The parent namespace has the manifest, and every chunk it names is in one of the two. */
  ghost predicate CanBootstrap(b: Bucket, root: Root, source: Root, id: ManifestId) {
    && id in Of(b, source).manifests
    && forall c :: c in ManifestChunks(Of(b, source).manifests[id]) ==> c in Of(b, root).chunks || c in Of(b, source).chunks
  }

  lemma CopiedAll(b0: Bucket, b: Bucket, root: Root, source: Root, id: ManifestId)
    requires CopiedFrom(b0, b, root, source) && id in Of(b0, source).manifests
    requires ManifestChunks(Of(b0, source).manifests[id]) <= Of(b, root).chunks.Keys
    ensures CanBootstrap(b0, root, source, id)
  {
    hide ManifestChunks;
  }

  lemma CannotCopy(b0: Bucket, b: Bucket, root: Root, source: Root, id: ManifestId, c: ChunkId)
    requires OnlyAdded(b0, b, root) && Of(b, source) == Of(b0, source) && id in Of(b0, source).manifests
    requires c in ManifestChunks(Of(b0, source).manifests[id]) && c !in Of(b, root).chunks && c !in Of(b, source).chunks
    ensures !CanBootstrap(b0, root, source, id)
  {
    hide ManifestChunks;
  }

  lemma NoManifestThere(b: Bucket, root: Root, source: Root, id: ManifestId)
    requires id !in Of(b, source).manifests
    ensures !CanBootstrap(b, root, source, id)
  {
  }

  lemma NothingAdded(b: Bucket, root: Root, source: Root)
    ensures OnlyAdded(b, b, root) && CopiedFrom(b, b, root, source)
  {
  }

  /** One chunk more, copied from the parent namespace. */
  lemma ChunkAdded(b0: Bucket, b: Bucket, root: Root, source: Root, c: ChunkId)
    requires OnlyAdded(b0, b, root) && CopiedFrom(b0, b, root, source) && root != source
    requires c !in Of(b, root).chunks && c in Of(b, source).chunks
    ensures var b' := b[root := Of(b, root).(chunks := Of(b, root).chunks[c := Of(b, source).chunks[c]])];
      OnlyAdded(b0, b', root) && CopiedFrom(b0, b', root, source)
  {
  }

  /** The manifest at last, with every chunk it names there. */
  lemma ManifestAdded(b0: Bucket, b: Bucket, root: Root, source: Root, id: ManifestId, m: Manifest)
    requires OnlyAdded(b0, b, root) && CopiedFrom(b0, b, root, source)
    requires Of(b, root).manifests == Of(b0, root).manifests && ManifestChunks(m) <= Of(b, root).chunks.Keys
    ensures var b' := b[root := Of(b, root).(manifests := Of(b, root).manifests[id := m])];
      OnlyAdded(b0, b', root) && CopiedFrom(b0, b', root, source) && (Whole(Of(b0, root)) ==> Whole(Of(b', root)))
  {
    hide ManifestChunks;
  }

  lemma StillWhole(b0: Bucket, b: Bucket, root: Root)
    requires OnlyAdded(b0, b, root) && Of(b, root).manifests == Of(b0, root).manifests
    ensures Whole(Of(b0, root)) ==> Whole(Of(b, root))
  {
    hide ManifestChunks;
  }

  class Storage {
    var bucket: Bucket

    function Get(root: Root): Namespace
      reads this
    {
      Of(bucket, root)
    }

    method PutChunkBody(root: Root, c: ChunkId, body: Body)
      modifies this
      ensures bucket == old(bucket)[root := Of(old(bucket), root).(chunks := Of(old(bucket), root).chunks[c := body])]
    {
      bucket := bucket[root := Get(root).(chunks := Get(root).chunks[c := body])];
    }

    method PutManifestBytes(root: Root, id: ManifestId, m: Manifest)
      modifies this
      ensures bucket == old(bucket)[root := Of(old(bucket), root).(manifests := Of(old(bucket), root).manifests[id := m])]
    {
      bucket := bucket[root := Get(root).(manifests := Get(root).manifests[id := m])];
    }

    /** Copy a manifest and its chunks from the parent namespace, the manifest last: a run of one
        writer `w` beside any `others`. */
    method EnsureManifestNamespace(id: ManifestId, root: Root, parentOf: Root -> Option<Root>, ghost others: map<nat, Writer>, ghost w: nat)
        returns (r: Result<(), BootstrapError>, ghost steps: seq<Step>)
      requires w !in others
      modifies this
      ensures OnlyAdded(old(bucket), bucket, root)
      ensures r.Ok? <==>
        root == "" || id in Of(old(bucket), root).manifests || (parentOf(root).Some? && CanBootstrap(old(bucket), root, parentOf(root).value, id))
      ensures r == Err(NotATenant) <==> root != "" && id !in Of(old(bucket), root).manifests && parentOf(root).None?
      ensures r == Err(NoSuchManifest) <==>
        root != "" && id !in Of(old(bucket), root).manifests && parentOf(root).Some? && id !in Of(old(bucket), parentOf(root).value).manifests
      ensures root == "" || id in Of(old(bucket), root).manifests ==> r.Ok? && bucket == old(bucket)
      ensures parentOf(root).Some? ==> CopiedFrom(old(bucket), bucket, root, parentOf(root).value)
      ensures r.Err? ==> Of(bucket, root).manifests == Of(old(bucket), root).manifests
      ensures r.Ok? && root != "" && id !in Of(old(bucket), root).manifests ==>
        && parentOf(root).Some?
        && id in Of(old(bucket), parentOf(root).value).manifests
        && Of(bucket, root).manifests == Of(old(bucket), root).manifests[id := Of(old(bucket), parentOf(root).value).manifests[id]]
        && ManifestChunks(Of(bucket, root).manifests[id]) <= Of(bucket, root).chunks.Keys
        && var m := Of(bucket, root).manifests[id];
          Complete(Of(bucket, root).manifests, {id}) <==>
            IsAddress(id) && (m.parent.Some? ==> LoadableBesides(Of(old(bucket), root).manifests, m.parent.value, id))
      ensures Whole(Of(old(bucket), root)) ==> Whole(Of(bucket, root))
      ensures Leads(Next, World(old(bucket), others), steps, World(bucket, others))
    {
      hide ManifestChunks, OnlyAdded, CopiedFrom, Whole, Complete, LoadableBesides, IsAddress, CanBootstrap;
      steps := [];
      NothingAdded(bucket, root, if parentOf(root).Some? then parentOf(root).value else root);
      if root == "" || id in Get(root).manifests { return Ok(()), []; }
      var parent := parentOf(root);
      if parent.None? { return Err(NotATenant), []; }
      var sourceRoot := parent.value;
      if id !in Get(sourceRoot).manifests {
        assert !CanBootstrap(bucket, root, sourceRoot, id) by { NoManifestThere(bucket, root, sourceRoot, id); }
        return Err(NoSuchManifest), [];
      }
      var m := Get(sourceRoot).manifests[id];
      var todo := ManifestChunks(m);
      hide Leads, Next;
      steps := [Bootstrap(w, root, id, sourceRoot)];
      BootstrapIsStep(bucket, others, w, root, id, sourceRoot);
      while todo != {}
        invariant OnlyAdded(old(bucket), bucket, root) && CopiedFrom(old(bucket), bucket, root, sourceRoot)
        invariant Of(bucket, root).manifests == Of(old(bucket), root).manifests
        invariant Of(bucket, sourceRoot) == Of(old(bucket), sourceRoot)
        invariant todo <= ManifestChunks(m) <= todo + Of(bucket, root).chunks.Keys
        invariant Leads(Next, World(old(bucket), others), steps, World(bucket, others[w := Writer(root, id, m, todo)]))
        decreases todo
      {
        var c :| c in todo;
        ghost var before, step := bucket, Present(w, c);
        if c !in Get(root).chunks {
          if c !in Get(sourceRoot).chunks {
            LastStep(bucket, others, w, Writer(root, id, m, todo));
            StillWhole(old(bucket), bucket, root);
            CannotCopy(old(bucket), bucket, root, sourceRoot, id, c);
            LeadsOne(World(old(bucket), others), steps, World(bucket, others[w := Writer(root, id, m, todo)]), GiveUp(w), World(bucket, others));
            return Err(MissingChunk), steps + [GiveUp(w)];
          }
          step := Upload(w, c, Get(sourceRoot).chunks[c]);
          ChunkAdded(old(bucket), bucket, root, sourceRoot, c);
          PutChunkBody(root, c, Get(sourceRoot).chunks[c]);
        }
        ChunkStep(before, bucket, others, w, Writer(root, id, m, todo), c, step);
        LeadsOne(World(old(bucket), others), steps, World(before, others[w := Writer(root, id, m, todo)]), step,
                 World(bucket, others[w := Writer(root, id, m, todo - {c})]));
        steps := steps + [step];
        todo := todo - {c};
      }
      ghost var copied := bucket;
      CopiedAll(old(bucket), bucket, root, sourceRoot, id);
      ManifestAdded(old(bucket), bucket, root, sourceRoot, id, m);
      NewClosureIff(Of(bucket, root).manifests, id, m);
      PutManifestBytes(root, id, m);
      LastStep(copied, others, w, Writer(root, id, m, {}));
      LeadsOne(World(old(bucket), others), steps, World(copied, others[w := Writer(root, id, m, {})]), Publish(w), World(bucket, others));
      return Ok(()), steps + [Publish(w)];
    }
  }

  lemma LeadsOne(s: World, steps: seq<Step>, m: World, step: Step, s': World)
    requires Leads(Next, s, steps, m) && Next(m, s', step)
    ensures Leads(Next, s, steps + [step], s')
  {
    OneStep(Next, m, s', step);
    LeadsOn(Next, s, steps, m, [step], s');
  }

  lemma BootstrapIsStep(b: Bucket, others: map<nat, Writer>, w: nat, root: Root, id: ManifestId, source: Root)
    requires w !in others && id in Of(b, source).manifests && id !in Of(b, root).manifests
    ensures var m := Of(b, source).manifests[id];
      Leads(Next, World(b, others), [Bootstrap(w, root, id, source)], World(b, others[w := Writer(root, id, m, ManifestChunks(m))]))
  {
    hide ManifestChunks;
    var s := World(b, others);
    var m := Of(b, source).manifests[id];
    OneStep(Next, s, World(b, others[w := Writer(root, id, m, ManifestChunks(m))]), Bootstrap(w, root, id, source));
  }

  /** The writer finds the chunk there, or uploads it. */
  lemma ChunkStep(b: Bucket, b': Bucket, others: map<nat, Writer>, w: nat, x: Writer, c: ChunkId, step: Step)
    requires c in x.todo
    requires if c in Of(b, x.root).chunks then step == Present(w, c) && b' == b
      else step.Upload? && step.w == w && step.c == c && b' == b[x.root := Of(b, x.root).(chunks := Of(b, x.root).chunks[c := step.body])]
    ensures Next(World(b, others[w := x]), World(b', others[w := x.(todo := x.todo - {c})]), step)
  {
    assert others[w := x][w := x.(todo := x.todo - {c})] == others[w := x.(todo := x.todo - {c})];
  }

  lemma LastStep(b: Bucket, others: map<nat, Writer>, w: nat, x: Writer)
    requires w !in others
    ensures Next(World(b, others[w := x]), World(b, others), GiveUp(w))
    ensures x.todo == {} ==> Next(World(b, others[w := x]),
      World(b[x.root := Of(b, x.root).(manifests := Of(b, x.root).manifests[x.id := x.m])], others), Publish(w))
  {
    assert others[w := x] - {w} == others;
  }

  /** A manifest with a parent, and nothing in either. */
  function Child(parent: ManifestId): Manifest {
    Manifest(Some(parent), 1, [])
  }

  function Base(): Manifest {
    Manifest(None, 0, [])
  }

  lemma {:induction false} BaseIsTop(ms: ManifestMap, base: ManifestId, k: nat)
    requires base in ms && ms[base] == Base()
    ensures Ancestor(ms, base, k) == if k == 0 then Some(base) else None
  {
    if k > 0 { BaseIsTop(ms, base, k - 1); }
  }

  /** The parent stays behind: in the namespace it comes from, the manifest can be followed to its
      base; bootstrapped into an empty one it cannot, so no live set can be collected from it there. */
  lemma BootstrapLeavesTheParent(root: Root, source: Root, base: ManifestId, id: ManifestId)
    requires root != source && base != id && IsAddress(base) && IsAddress(id)
    ensures var from := Namespace(map[], map[base := Base(), id := Child(base)]);
      var b: Bucket := map[source := from];
      var b' := b[root := Namespace(map[], map[id := Child(base)])];
      && Complete(from.manifests, {id})
      && Leads(Next, World(b, map[]), [Bootstrap(0, root, id, source), Publish(0)], World(b', map[]))
      && !Complete(Of(b', root).manifests, {id})
  {
    hide IsAddress;
    var none, one: ManifestMap := map[], map[base := Base()];
    var from := Namespace(map[], one[id := Child(base)]);
    var b: Bucket := map[source := from];
    var others: map<nat, Writer> := map[];
    var b' := b[root := Namespace(map[], map[id := Child(base)])];
    forall x | InClosure(one, {base}, x) ensures x == base {
      var r: ManifestId, k: nat :| r in {base} && Ancestor(one, r, k) == Some(x);
      BaseIsTop(one, base, k);
    }
    NewClosureIff(one, id, Child(base));
    NewClosureIff(none, id, Child(base));
    ClosureStart(none, {base}, base);
    assert none[id := Child(base)] == map[id := Child(base)];
    assert ManifestChunks(Child(base)) == {};
    BootstrapIsStep(b, others, 0, root, id, source);
    LastStep(b, others, 0, Writer(root, id, Child(base), {}));
    assert Of(b, root) == Namespace(map[], map[]) && [Bootstrap(0, root, id, source)] + [Publish(0)] == [Bootstrap(0, root, id, source), Publish(0)];
    hide Next, Leads;
    LeadsOne(World(b, others), [Bootstrap(0, root, id, source)], World(b, others[0 := Writer(root, id, Child(base), {})]), Publish(0), World(b', others));
  }

  // ---- many of them at once ---------------------------------------------------------------

  /** Someone on the way to publishing `m` in `root`; `todo` is what it has not yet seen there. */
  datatype Writer = Writer(root: Root, id: ManifestId, m: Manifest, todo: set<ChunkId>)

  datatype World = World(bucket: Bucket, writers: map<nat, Writer>)

  datatype Step =
    | Snapshot(w: nat, root: Root, id: ManifestId, m: Manifest)
    | Bootstrap(w: nat, root: Root, id: ManifestId, source: Root)
    | Present(w: nat, c: ChunkId)
    | Upload(w: nat, c: ChunkId, body: Body)
    | Publish(w: nat)
    | GiveUp(w: nat)

  /** One step of one writer; a copy is an upload of the source's body. */
  ghost predicate Next(s: World, s': World, step: Step) {
    match step
    case Snapshot(w, root, id, m) =>
      w !in s.writers && s' == s.(writers := s.writers[w := Writer(root, id, m, ManifestChunks(m))])
    case Bootstrap(w, root, id, source) =>
      && w !in s.writers && id in Of(s.bucket, source).manifests && id !in Of(s.bucket, root).manifests
      && var m := Of(s.bucket, source).manifests[id];
        s' == s.(writers := s.writers[w := Writer(root, id, m, ManifestChunks(m))])
    case Present(w, c) =>
      && w in s.writers && c in Of(s.bucket, s.writers[w].root).chunks
      && s' == s.(writers := s.writers[w := s.writers[w].(todo := s.writers[w].todo - {c})])
    case Upload(w, c, body) =>
      && w in s.writers && c in s.writers[w].todo
      && var ns := Of(s.bucket, s.writers[w].root);
        s' == World(s.bucket[s.writers[w].root := ns.(chunks := ns.chunks[c := body])],
                    s.writers[w := s.writers[w].(todo := s.writers[w].todo - {c})])
    case Publish(w) =>
      && w in s.writers && s.writers[w].todo == {}
      && var ns := Of(s.bucket, s.writers[w].root);
        s' == World(s.bucket[s.writers[w].root := ns.(manifests := ns.manifests[s.writers[w].id := s.writers[w].m])], s.writers - {w})
    case GiveUp(w) =>
      w in s.writers && s' == s.(writers := s.writers - {w})
  }

  ghost predicate IsRun(run: seq<World>, steps: seq<Step>) {
    && |run| == |steps| + 1 && run[0] == World(map[], map[])
    && forall i :: 0 <= i < |steps| ==> Next(run[i], run[i + 1], steps[i])
  }

  ghost predicate Closed(s: World) {
    && (forall root :: Whole(Of(s.bucket, root)))
    && (forall w :: w in s.writers ==> ManifestChunks(s.writers[w].m) <= s.writers[w].todo + Of(s.bucket, s.writers[w].root).chunks.Keys)
  }

  lemma StepClosed(s: World, s': World, step: Step)
    requires Closed(s) && Next(s, s', step)
    ensures Closed(s')
  {
    hide ManifestChunks;
    forall root ensures Whole(Of(s'.bucket, root)) { assert Whole(Of(s.bucket, root)); }
  }

  /** In every interleaving of any number of writers, each abandoned wherever it is, a
      manifest that is present in a namespace has every chunk it names present there. */
  lemma {:induction false} PublishedIsWhole(run: seq<World>, steps: seq<Step>, k: nat, root: Root)
    requires IsRun(run, steps) && k < |run|
    ensures Closed(run[k]) && Whole(Of(run[k].bucket, root))
  {
    if k > 0 {
      PublishedIsWhole(run, steps, k - 1, root);
      StepClosed(run[k - 1], run[k], steps[k - 1]);
    }
  }
}
