/** Many computers snapshot into one store with deduplication while a collector sweeps it
    from plans of any age (crates/mari-core/src/gc.rs, snapshot.rs). */
module GcRuns {
  import opened Basics
  import opened Errors
  import opened Paths
  import opened Disk
  import opened FileSystems
  import opened Manifests
  import opened ChunkStores
  import opened Snapshots
  import opened Runs
  import opened Gcs

  type Computer = nat

  /** How far a snapshot has got: nothing asked yet, the missing chunks known, or published. */
  datatype Phase = Built | Probed(missing: set<ChunkId>) | Published

  datatype Session = Session(m: Manifest, phase: Phase)

  /** `retained` is what the collector is told to keep. */
  datatype Fleet = Fleet(chunks: Chunks, manifests: ManifestMap, retained: set<ManifestId>,
                         heads: map<Computer, ManifestId>, sessions: map<Computer, Session>)

  datatype Step =
    | Begin(c: Computer, m: Manifest)
    | Probe(c: Computer)
    | Put(c: Computer, id: ChunkId, now: nat)
    | Publish(c: Computer)
    | Advance(c: Computer)
    | Abandon(c: Computer)
    | Retain(keep: set<ManifestId>)
    | Sweep(dead: seq<DeadChunk>)

  /** Manifest ids are content addresses. */
  ghost predicate Addresses(idOf: Manifest -> ManifestId) {
    forall m :: IsAddress(idOf(m))
  }

  /** No other manifest is stored under this one's id: the hash does not collide here. */
  ghost predicate Unclaimed(ms: ManifestMap, m: Manifest, idOf: Manifest -> ManifestId) {
    idOf(m) in ms ==> ms[idOf(m)] == m
  }

  ghost predicate InPhase(f: Fleet, c: Computer, probed: bool) {
    c in f.sessions && (if probed then f.sessions[c].phase.Probed? else f.sessions[c].phase.Published?)
  }

  /** One step. A sweep acts on any plan whatever; `quiesced` says whether it waits until no
      snapshot is under way. */
  ghost predicate Next(f: Fleet, f': Fleet, step: Step, idOf: Manifest -> ManifestId, quiesced: bool) {
    match step
    case Begin(c, m) =>
      && c !in f.sessions && (m.parent.Some? ==> InClosure(f.manifests, f.retained, m.parent.value))
      && (forall id :: id in ManifestChunks(m) ==> id.Blake3?)
      && f' == f.(sessions := f.sessions[c := Session(m, Built)])
    case Probe(c) =>
      && c in f.sessions && f.sessions[c].phase.Built?
      && f' == f.(sessions := f.sessions[c := Session(f.sessions[c].m, Probed(ManifestChunks(f.sessions[c].m) - f.chunks.Keys))])
    case Put(c, id, now) =>
      && InPhase(f, c, true) && id in f.sessions[c].phase.missing && id.Blake3?
      && f' == f.(chunks := f.chunks[id := Stored(Zstd(id.plain), Some(now))],
                  sessions := f.sessions[c := Session(f.sessions[c].m, Probed(f.sessions[c].phase.missing - {id}))])
    case Publish(c) =>
      && InPhase(f, c, true) && f.sessions[c].phase.missing == {} && Unclaimed(f.manifests, f.sessions[c].m, idOf)
      && f' == f.(manifests := f.manifests[idOf(f.sessions[c].m) := f.sessions[c].m],
                  sessions := f.sessions[c := Session(f.sessions[c].m, Published)])
    case Advance(c) =>
      && InPhase(f, c, false)
      && f' == f.(heads := f.heads[c := idOf(f.sessions[c].m)], retained := f.retained + {idOf(f.sessions[c].m)},
                  sessions := f.sessions - {c})
    case Abandon(c) =>
      c in f.sessions && f' == f.(sessions := f.sessions - {c})
    case Retain(keep) =>
      keep <= f.retained && (forall c :: c in f.heads ==> f.heads[c] in keep) && f' == f.(retained := keep)
    case Sweep(dead) =>
      && (quiesced ==> f.sessions == map[])
      && f' == f.(chunks := f'.chunks)
      && if Complete(f.manifests, f.retained)
         then exists live :: IsLiveSet(f.manifests, f.retained, live) && Swept(f.chunks, f'.chunks, dead, live)
         else f'.chunks == f.chunks
  }

  const EMPTY := Fleet(map[], map[], {}, map[], map[])

  ghost predicate IsRun(run: seq<Fleet>, steps: seq<Step>, idOf: Manifest -> ManifestId, quiesced: bool) {
    && |run| == |steps| + 1 && run[0] == EMPTY
    && forall i :: 0 <= i < |steps| ==> Next(run[i], run[i + 1], steps[i], idOf, quiesced)
  }

  // ---- closures as the store grows ---------------------------------------------------------

  /** Everything reachable from `ids` can be loaded, and every chunk of it is in the store. */
  ghost predicate Backed(chunks: Chunks, ms: ManifestMap, ids: set<ManifestId>) {
    Complete(ms, ids) && forall c :: Live(ms, ids, c) ==> c in chunks
  }

  ghost predicate Grown(ms: ManifestMap, ms': ManifestMap) {
    forall id :: id in ms ==> id in ms' && ms'[id] == ms[id]
  }

  lemma {:induction false} AncestorGrown(ms: ManifestMap, ms': ManifestMap, ids: set<ManifestId>, r: ManifestId, k: nat)
    requires Grown(ms, ms') && Complete(ms, ids) && r in ids
    ensures Ancestor(ms', r, k) == Ancestor(ms, r, k)
  {
    if k > 0 {
      AncestorGrown(ms, ms', ids, r, k - 1);
      if Ancestor(ms, r, k - 1).Some? { assert InClosure(ms, ids, Ancestor(ms, r, k - 1).value); }
    }
  }

  lemma ClosureGrown(ms: ManifestMap, ms': ManifestMap, ids: set<ManifestId>, x: ManifestId)
    requires Grown(ms, ms') && Complete(ms, ids)
    ensures InClosure(ms', ids, x) <==> InClosure(ms, ids, x)
    ensures InClosure(ms, ids, x) ==> Load(ms', x) == Load(ms, x)
  {
    if InClosure(ms', ids, x) {
      var r: ManifestId, k: nat :| r in ids && Ancestor(ms', r, k) == Some(x);
      AncestorGrown(ms, ms', ids, r, k);
    }
    if InClosure(ms, ids, x) {
      var r: ManifestId, k: nat :| r in ids && Ancestor(ms, r, k) == Some(x);
      AncestorGrown(ms, ms', ids, r, k);
    }
  }

  /** New manifests change nothing about what complete closures hold. */
  lemma LiveGrown(ms: ManifestMap, ms': ManifestMap, ids: set<ManifestId>)
    requires Complete(ms, ids) && Grown(ms, ms')
    ensures Complete(ms', ids)
    ensures forall c :: Live(ms', ids, c) <==> Live(ms, ids, c)
  {
    hide InClosure, ManifestChunks, Load;
    forall x ensures InClosure(ms', ids, x) <==> InClosure(ms, ids, x) ensures InClosure(ms, ids, x) ==> Load(ms', x) == Load(ms, x) {
      ClosureGrown(ms, ms', ids, x);
    }
    forall c ensures Live(ms', ids, c) <==> Live(ms, ids, c) {
      if Live(ms', ids, c) { var x :| InClosure(ms', ids, x) && Load(ms', x).Ok? && c in ManifestChunks(Load(ms', x).value); }
      if Live(ms, ids, c) { var x :| InClosure(ms, ids, x) && Load(ms, x).Ok? && c in ManifestChunks(Load(ms, x).value); }
    }
  }

  lemma BackedGrown(chunks: Chunks, chunks': Chunks, ms: ManifestMap, ms': ManifestMap, ids: set<ManifestId>)
    requires Backed(chunks, ms, ids) && Grown(ms, ms') && chunks.Keys <= chunks'.Keys
    ensures Backed(chunks', ms', ids)
  {
    LiveGrown(ms, ms', ids);
  }

  /** A new manifest adds itself and what its parent reaches. */
  lemma ClosureOfOne(ms: ManifestMap, id: ManifestId, x: ManifestId)
    requires Load(ms, id).Ok? && InClosure(ms, {id}, x)
    ensures x == id || (Load(ms, id).value.parent.Some? && InClosure(ms, {Load(ms, id).value.parent.value}, x))
  {
    var r: ManifestId, k: nat :| r in {id} && Ancestor(ms, r, k) == Some(x);
    if k > 0 {
      AncestorShift(ms, id, k - 1);
      assert Ancestor(ms, Load(ms, id).value.parent.value, k - 1) == Some(x);
    }
  }

  lemma ClosureOfUnion(ms: ManifestMap, a: set<ManifestId>, b: set<ManifestId>, x: ManifestId)
    requires InClosure(ms, a + b, x)
    ensures InClosure(ms, a, x) || InClosure(ms, b, x)
  {
    var r: ManifestId, k: nat :| r in a + b && Ancestor(ms, r, k) == Some(x);
    assert r in a || r in b;
  }

  lemma BackedWithNew(chunks: Chunks, ms: ManifestMap, ids: set<ManifestId>, id: ManifestId, m: Manifest)
    requires Backed(chunks, ms, ids) && Load(ms, id) == Ok(m) && ManifestChunks(m) <= chunks.Keys
    requires m.parent.Some? ==> Backed(chunks, ms, {m.parent.value})
    ensures Backed(chunks, ms, ids + {id})
  {
    hide InClosure, ManifestChunks, Load;
    forall x | InClosure(ms, ids + {id}, x) ensures InClosure(ms, ids, x) || x == id || (m.parent.Some? && InClosure(ms, {m.parent.value}, x)) {
      ClosureOfUnion(ms, ids, {id}, x);
      if !InClosure(ms, ids, x) { ClosureOfOne(ms, id, x); }
    }
    forall c | Live(ms, ids + {id}, c) ensures c in chunks {
      var x :| InClosure(ms, ids + {id}, x) && Load(ms, x).Ok? && c in ManifestChunks(Load(ms, x).value);
      if InClosure(ms, ids, x) { assert Live(ms, ids, c); }
      else if x != id { assert Live(ms, {m.parent.value}, c); }
    }
  }

  lemma BackedFewer(chunks: Chunks, ms: ManifestMap, ids: set<ManifestId>, fewer: set<ManifestId>)
    requires Backed(chunks, ms, ids) && fewer <= ids
    ensures Backed(chunks, ms, fewer)
  {
    hide ManifestChunks, Load, Ancestor;
    forall x | InClosure(ms, fewer, x) ensures InClosure(ms, ids, x) {
      var r: ManifestId, k: nat :| r in fewer && Ancestor(ms, r, k) == Some(x);
    }
    hide InClosure;
    forall c | Live(ms, fewer, c) ensures c in chunks {
      var x :| InClosure(ms, fewer, x) && Load(ms, x).Ok? && c in ManifestChunks(Load(ms, x).value);
      assert Live(ms, ids, c);
    }
  }

  lemma {:induction false} AncestorOnwards(ms: ManifestMap, r: ManifestId, j: nat, k: nat)
    requires Ancestor(ms, r, j).Some?
    ensures Ancestor(ms, Ancestor(ms, r, j).value, k) == Ancestor(ms, r, j + k)
  {
    if k > 0 { AncestorOnwards(ms, r, j, k - 1); }
  }

  lemma BackedAbove(chunks: Chunks, ms: ManifestMap, ids: set<ManifestId>, p: ManifestId)
    requires Backed(chunks, ms, ids) && InClosure(ms, ids, p)
    ensures Backed(chunks, ms, {p})
  {
    hide ManifestChunks, Load, Ancestor;
    var r: ManifestId, j: nat :| r in ids && Ancestor(ms, r, j) == Some(p);
    forall x | InClosure(ms, {p}, x) ensures InClosure(ms, ids, x) {
      var q: ManifestId, k: nat :| q in {p} && Ancestor(ms, q, k) == Some(x);
      AncestorOnwards(ms, r, j, k);
    }
    hide InClosure;
    forall c | Live(ms, {p}, c) ensures c in chunks {
      var x :| InClosure(ms, {p}, x) && Load(ms, x).Ok? && c in ManifestChunks(Load(ms, x).value);
      assert Live(ms, ids, c);
    }
  }

  // ---- safety ---------------------------------------------------------------------------------

  /** What the session is still going to put into the store. */
  ghost function Coming(s: Session): set<ChunkId> {
    match s.phase
    case Built => ManifestChunks(s.m)
    case Probed(missing) => missing
    case Published => {}
  }

  /** A chunk the session's head will need and the session will not put there itself: of its own
      manifest or of what its parent reaches. */
  ghost predicate Relied(ms: ManifestMap, s: Session, id: ChunkId) {
    && (id in ManifestChunks(s.m) || (s.m.parent.Some? && Live(ms, {s.m.parent.value}, id)))
    && id !in Coming(s)
  }

  /** What no sweep can change: the parents can be loaded, and only its own chunks are coming. */
  ghost predicate Orderly(ms: ManifestMap, s: Session, idOf: Manifest -> ManifestId) {
    && (s.m.parent.Some? ==> Complete(ms, {s.m.parent.value}))
    && Coming(s) <= ManifestChunks(s.m) && (forall id :: id in ManifestChunks(s.m) ==> id.Blake3?)
    && (s.phase.Published? ==> Load(ms, idOf(s.m)) == Ok(s.m))
  }

  ghost predicate SessionOk(f: Fleet, s: Session, idOf: Manifest -> ManifestId) {
    Orderly(f.manifests, s, idOf) && forall id :: Relied(f.manifests, s, id) ==> id in f.chunks
  }

  ghost predicate Safe(f: Fleet, idOf: Manifest -> ManifestId) {
    && Backed(f.chunks, f.manifests, f.retained)
    && (forall c :: c in f.heads ==> f.heads[c] in f.retained)
    && (forall c :: c in f.sessions ==> SessionOk(f, f.sessions[c], idOf))
  }

  lemma OrderlyGrown(ms: ManifestMap, ms': ManifestMap, s: Session, idOf: Manifest -> ManifestId)
    requires Orderly(ms, s, idOf) && Grown(ms, ms')
    ensures Orderly(ms', s, idOf)
    ensures forall id :: Relied(ms', s, id) <==> Relied(ms, s, id)
  {
    if s.m.parent.Some? { LiveGrown(ms, ms', {s.m.parent.value}); }
    hide Complete, Live, ManifestChunks;
  }

  /** More in the store does a session no harm. */
  lemma SessionGrown(f: Fleet, f': Fleet, s: Session, idOf: Manifest -> ManifestId)
    requires SessionOk(f, s, idOf) && Grown(f.manifests, f'.manifests) && f.chunks.Keys <= f'.chunks.Keys
    ensures SessionOk(f', s, idOf)
  {
    hide Orderly, Relied;
    OrderlyGrown(f.manifests, f'.manifests, s, idOf);
  }

  lemma StoreGrows(f: Fleet, f': Fleet, idOf: Manifest -> ManifestId)
    requires Safe(f, idOf) && Grown(f.manifests, f'.manifests) && f.chunks.Keys <= f'.chunks.Keys && f'.retained == f.retained
    ensures Backed(f'.chunks, f'.manifests, f'.retained)
    ensures forall c :: c in f.sessions ==> SessionOk(f', f.sessions[c], idOf)
  {
    hide Backed, SessionOk, Grown;
    BackedGrown(f.chunks, f'.chunks, f.manifests, f'.manifests, f.retained);
    forall c | c in f.sessions ensures SessionOk(f', f.sessions[c], idOf) { SessionGrown(f, f', f.sessions[c], idOf); }
  }

  lemma BeginSafe(f: Fleet, f': Fleet, c: Computer, m: Manifest, idOf: Manifest -> ManifestId)
    requires Safe(f, idOf) && Next(f, f', Begin(c, m), idOf, true)
    ensures Safe(f', idOf)
  {
    hide ManifestChunks, InClosure;
    StoreGrows(f, f', idOf);
    if m.parent.Some? { BackedAbove(f.chunks, f.manifests, f.retained, m.parent.value); }
    hide Live, Complete;
    assert SessionOk(f', Session(m, Built), idOf);
    hide SessionOk;
  }

  /** The session goes on to upload what it now knows to be missing. */
  lemma PhaseMoves(f: Fleet, f': Fleet, s: Session, s': Session, idOf: Manifest -> ManifestId)
    requires SessionOk(f, s, idOf) && f'.manifests == f.manifests && f.chunks.Keys <= f'.chunks.Keys
    requires s'.m == s.m && Coming(s') <= Coming(s) <= Coming(s') + f'.chunks.Keys
    requires s'.phase.Published? ==> Load(f.manifests, idOf(s.m)) == Ok(s.m)
    ensures SessionOk(f', s', idOf)
  {
    hide Live, Complete, ManifestChunks, Load;
    forall id | Relied(f.manifests, s', id) ensures id in f'.chunks {
      if id !in Coming(s) { assert Relied(f.manifests, s, id); }
    }
  }

  lemma ProbePutSafe(f: Fleet, f': Fleet, step: Step, idOf: Manifest -> ManifestId)
    requires Safe(f, idOf) && (step.Probe? || step.Put?) && Next(f, f', step, idOf, true)
    ensures Safe(f', idOf)
  {
    hide Backed, ManifestChunks, SessionOk;
    StoreGrows(f, f', idOf);
    PhaseMoves(f, f', f.sessions[step.c], f'.sessions[step.c], idOf);
  }

  lemma PublishSafe(f: Fleet, f': Fleet, c: Computer, idOf: Manifest -> ManifestId)
    requires Addresses(idOf) && Safe(f, idOf) && Next(f, f', Publish(c), idOf, true)
    ensures Safe(f', idOf)
  {
    hide Backed, ManifestChunks, IsAddress, SessionOk;
    var m := f.sessions[c].m;
    assert IsAddress(idOf(m));
    assert Grown(f.manifests, f'.manifests);
    StoreGrows(f, f', idOf);
    PhaseMoves(f', f', f.sessions[c], f'.sessions[c], idOf);
  }

  lemma AdvanceSafe(f: Fleet, f': Fleet, c: Computer, idOf: Manifest -> ManifestId)
    requires Safe(f, idOf) && Next(f, f', Advance(c), idOf, true)
    ensures Safe(f', idOf)
  {
    var s := f.sessions[c];
    assert SessionOk(f, s, idOf);
    assert forall id :: id in ManifestChunks(s.m) ==> Relied(f.manifests, s, id);
    assert s.m.parent.Some? ==> forall id :: Live(f.manifests, {s.m.parent.value}, id) ==> Relied(f.manifests, s, id);
    hide ManifestChunks, Live, Complete, Relied, Orderly;
    BackedWithNew(f.chunks, f.manifests, f.retained, idOf(s.m), s.m);
    hide Backed, SessionOk;
    StoreGrows(f, f'.(retained := f.retained), idOf);
    forall d | d in f'.sessions ensures SessionOk(f', f'.sessions[d], idOf) { SessionGrown(f, f', f.sessions[d], idOf); }
  }

  lemma SweepSafe(f: Fleet, f': Fleet, dead: seq<DeadChunk>, idOf: Manifest -> ManifestId)
    requires Safe(f, idOf) && Next(f, f', Sweep(dead), idOf, true)
    ensures Safe(f', idOf)
  {
    hide Live, Complete;
    var live :| IsLiveSet(f.manifests, f.retained, live) && Swept(f.chunks, f'.chunks, dead, live);
    forall c | Live(f.manifests, f.retained, c) ensures c in f'.chunks {
      SweepSparesTheLive(f.chunks, f'.chunks, dead, live, f.manifests, f.retained, c);
    }
  }

  lemma StepSafe(f: Fleet, f': Fleet, step: Step, idOf: Manifest -> ManifestId)
    requires Addresses(idOf) && Safe(f, idOf) && Next(f, f', step, idOf, true)
    ensures Safe(f', idOf)
  {
    match step {
      case Begin(c, m) => BeginSafe(f, f', c, m, idOf);
      case Probe(_) => ProbePutSafe(f, f', step, idOf);
      case Put(_, _, _) => ProbePutSafe(f, f', step, idOf);
      case Publish(c) => PublishSafe(f, f', c, idOf);
      case Advance(c) => AdvanceSafe(f, f', c, idOf);
      case Abandon(_) =>
        hide Backed, ManifestChunks;
        StoreGrows(f, f', idOf);
      case Retain(keep) =>
        hide Backed, ManifestChunks;
        StoreGrows(f, f'.(retained := f.retained), idOf);
        BackedFewer(f.chunks, f.manifests, f.retained, keep);
        forall d | d in f'.sessions ensures SessionOk(f', f'.sessions[d], idOf) { SessionGrown(f, f', f.sessions[d], idOf); }
      case Sweep(dead) => SweepSafe(f, f', dead, idOf);
    }
  }

  lemma EmptySafe(idOf: Manifest -> ManifestId)
    ensures Safe(EMPTY, idOf)
  {
    forall x ensures !InClosure(EMPTY.manifests, EMPTY.retained, x) {}
  }

  /** In every interleaving of any number of snapshots with sweeps from plans of any age, if
      sweeps wait for open snapshots, everything reachable from what is retained is in the
      store: also a chunk that was dead when planned and came back without being rewritten. */
  lemma {:induction false} GcSafe(run: seq<Fleet>, steps: seq<Step>, idOf: Manifest -> ManifestId, k: nat)
    requires Addresses(idOf) && IsRun(run, steps, idOf, true) && k < |run|
    ensures Safe(run[k], idOf)
  {
    if k == 0 {
      EmptySafe(idOf);
    } else {
      GcSafe(run, steps, idOf, k - 1);
      StepSafe(run[k - 1], run[k], steps[k - 1], idOf);
    }
  }

  /** Nothing retained is ever lost. */
  lemma RetainedIsWhole(run: seq<Fleet>, steps: seq<Step>, idOf: Manifest -> ManifestId, k: nat)
    requires Addresses(idOf) && IsRun(run, steps, idOf, true) && k < |run|
    ensures forall c :: c in run[k].heads ==> run[k].heads[c] in run[k].retained
    ensures Complete(run[k].manifests, run[k].retained)
    ensures forall id :: Live(run[k].manifests, run[k].retained, id) ==> id in run[k].chunks
  {
    GcSafe(run, steps, idOf, k);
  }

  // ---- when a sweep need not wait --------------------------------------------------------------

  /** A step, with sweeps that wait. */
  ghost function Waiting(idOf: Manifest -> ManifestId): (Fleet, Fleet, Step) -> bool {
    (f, f', step) => Next(f, f', step, idOf, true)
  }

  lemma {:induction false} SafeOnwards(f: Fleet, steps: seq<Step>, f': Fleet, idOf: Manifest -> ManifestId)
    requires Addresses(idOf) && Safe(f, idOf) && Leads(Waiting(idOf), f, steps, f')
    ensures Safe(f', idOf)
    decreases |steps|
  {
    hide Safe, Next, Addresses;
    if steps != [] {
      var g :| Next(f, g, steps[0], idOf, true) && Leads(Waiting(idOf), g, steps[1..], f');
      StepSafe(f, g, steps[0], idOf);
      SafeOnwards(g, steps[1..], f', idOf);
    }
  }

  /** Whatever happens from here on, further sweeps waiting for open snapshots, nothing retained is lost. */
  ghost predicate NeverLoses(f: Fleet, idOf: Manifest -> ManifestId) {
    forall steps, f' :: Leads(Waiting(idOf), f, steps, f') ==> Backed(f'.chunks, f'.manifests, f'.retained)
  }

  lemma PutIsStep(f: Fleet, c: Computer, id: ChunkId, now: nat, idOf: Manifest -> ManifestId)
    requires InPhase(f, c, true) && id in f.sessions[c].phase.missing && id.Blake3?
    ensures Next(f, f.(chunks := f.chunks[id := Stored(Zstd(id.plain), Some(now))],
                       sessions := f.sessions[c := Session(f.sessions[c].m, Probed(f.sessions[c].phase.missing - {id}))]),
                 Put(c, id, now), idOf, true)
  {
  }

  /** The session uploads all it knows to be missing. */
  lemma {:induction false} PutAll(f: Fleet, c: Computer, now: nat, idOf: Manifest -> ManifestId) returns (steps: seq<Step>, f': Fleet)
    requires InPhase(f, c, true) && forall id :: id in f.sessions[c].phase.missing ==> id.Blake3?
    ensures Leads(Waiting(idOf), f, steps, f')
    ensures f' == f.(chunks := f'.chunks, sessions := f.sessions[c := Session(f.sessions[c].m, Probed({}))])
    ensures f'.chunks.Keys == f.chunks.Keys + f.sessions[c].phase.missing
    ensures forall id :: id in f'.chunks ==>
      f'.chunks[id] == if id in f.sessions[c].phase.missing then Stored(Zstd(id.plain), Some(now)) else f.chunks[id]
    decreases f.sessions[c].phase.missing
  {
    hide Next;
    var s := f.sessions[c];
    if s.phase.missing == {} {
      steps, f' := [], f;
      assert f.sessions == f.sessions[c := Session(s.m, Probed({}))];
    } else {
      var id :| id in s.phase.missing;
      var s' := Session(s.m, Probed(s.phase.missing - {id}));
      var g := f.(chunks := f.chunks[id := Stored(Zstd(id.plain), Some(now))], sessions := f.sessions[c := s']);
      PutIsStep(f, c, id, now, idOf);
      OneStep(Waiting(idOf), f, g, Put(c, id, now));
      var rest;
      rest, f' := PutAll(g, c, now, idOf);
      assert g.sessions[c := Session(s.m, Probed({}))] == f.sessions[c := Session(s.m, Probed({}))];
      steps := [Put(c, id, now)] + rest;
      LeadsOn(Waiting(idOf), f, [Put(c, id, now)], g, rest, f');
    }
  }

  /** A head brings with it its own chunks and what its parent reaches. */
  lemma LiveOfHead(ms: ManifestMap, ids: set<ManifestId>, id: ManifestId, m: Manifest, x: ChunkId)
    requires id in ids && Load(ms, id) == Ok(m)
    requires x in ManifestChunks(m) || (m.parent.Some? && Live(ms, {m.parent.value}, x))
    ensures Live(ms, ids, x)
  {
    hide ManifestChunks, Load;
    ClosureStart(ms, ids, id);
    if x !in ManifestChunks(m) {
      var y :| InClosure(ms, {m.parent.value}, y) && Load(ms, y).Ok? && x in ManifestChunks(Load(ms, y).value);
      var r: ManifestId, k: nat :| r in {m.parent.value} && Ancestor(ms, r, k) == Some(y);
      AncestorShift(ms, id, k);
      assert Ancestor(ms, id, k + 1) == Some(y);
      assert InClosure(ms, ids, y);
    }
  }

  /** The published session advances the head, and with it what is retained. */
  lemma LosesPublished(f: Fleet, c: Computer, id: ChunkId, idOf: Manifest -> ManifestId) returns (steps: seq<Step>, f': Fleet)
    requires InPhase(f, c, false) && Orderly(f.manifests, f.sessions[c], idOf)
    requires Relied(f.manifests, f.sessions[c], id) && id !in f.chunks
    ensures Leads(Waiting(idOf), f, steps, f') && Live(f'.manifests, f'.retained, id) && id !in f'.chunks
  {
    hide Live, Complete, ManifestChunks, Load;
    var m := f.sessions[c].m;
    f' := f.(heads := f.heads[c := idOf(m)], retained := f.retained + {idOf(m)}, sessions := f.sessions - {c});
    steps := [Advance(c)];
    OneStep(Waiting(idOf), f, f', Advance(c));
    LiveOfHead(f'.manifests, f'.retained, idOf(m), m, id);
  }

  lemma LosesProbed(f: Fleet, c: Computer, id: ChunkId, idOf: Manifest -> ManifestId) returns (steps: seq<Step>, f': Fleet)
    requires Addresses(idOf) && InPhase(f, c, true) && Unclaimed(f.manifests, f.sessions[c].m, idOf)
    requires Orderly(f.manifests, f.sessions[c], idOf)
    requires Relied(f.manifests, f.sessions[c], id) && id !in f.chunks
    ensures Leads(Waiting(idOf), f, steps, f') && Live(f'.manifests, f'.retained, id) && id !in f'.chunks
  {
    hide Live, Complete, ManifestChunks, Next, IsAddress;
    var m := f.sessions[c].m;
    var puts, g := PutAll(f, c, 0, idOf);
    var h := g.(manifests := g.manifests[idOf(m) := m], sessions := g.sessions[c := Session(m, Published)]);
    PublishIsStep(g, c, idOf);
    OneStep(Waiting(idOf), g, h, Publish(c));
    assert IsAddress(idOf(m)) && Grown(f.manifests, h.manifests);
    OrderlyGrown(f.manifests, h.manifests, f.sessions[c], idOf);
    var last;
    last, f' := LosesPublished(h, c, id, idOf);
    LeadsOn(Waiting(idOf), f, puts, g, [Publish(c)], h);
    LeadsOn(Waiting(idOf), f, puts + [Publish(c)], h, last, f');
    steps := puts + [Publish(c)] + last;
  }

  lemma PublishIsStep(f: Fleet, c: Computer, idOf: Manifest -> ManifestId)
    requires InPhase(f, c, true) && f.sessions[c].phase.missing == {} && Unclaimed(f.manifests, f.sessions[c].m, idOf)
    ensures var m := f.sessions[c].m;
      Next(f, f.(manifests := f.manifests[idOf(m) := m], sessions := f.sessions[c := Session(m, Published)]), Publish(c), idOf, true)
  {
  }

  lemma ProbeIsStep(f: Fleet, c: Computer, idOf: Manifest -> ManifestId)
    requires c in f.sessions && f.sessions[c].phase.Built?
    ensures var m := f.sessions[c].m;
      Next(f, f.(sessions := f.sessions[c := Session(m, Probed(ManifestChunks(m) - f.chunks.Keys))]), Probe(c), idOf, true)
  {
  }

  /** An open session that relies on a chunk which is gone can run to its end, and then the chunk
      is missing from what is retained. */
  lemma LosesOpen(f: Fleet, c: Computer, id: ChunkId, idOf: Manifest -> ManifestId) returns (steps: seq<Step>, f': Fleet)
    requires Addresses(idOf) && c in f.sessions && Unclaimed(f.manifests, f.sessions[c].m, idOf)
    requires Orderly(f.manifests, f.sessions[c], idOf)
    requires Relied(f.manifests, f.sessions[c], id) && id !in f.chunks
    ensures Leads(Waiting(idOf), f, steps, f') && Live(f'.manifests, f'.retained, id) && id !in f'.chunks
  {
    hide Live, Complete, ManifestChunks, Next, Addresses;
    var s := f.sessions[c];
    match s.phase {
      case Published => steps, f' := LosesPublished(f, c, id, idOf);
      case Probed(_) => steps, f' := LosesProbed(f, c, id, idOf);
      case Built =>
        var g := f.(sessions := f.sessions[c := Session(s.m, Probed(ManifestChunks(s.m) - f.chunks.Keys))]);
        ProbeIsStep(f, c, idOf);
        OneStep(Waiting(idOf), f, g, Probe(c));
        var rest;
        rest, f' := LosesProbed(g, c, id, idOf);
        LeadsOn(Waiting(idOf), f, [Probe(c)], g, rest, f');
        steps := [Probe(c)] + rest;
    }
  }

  lemma SweepKeepsSafe(f: Fleet, f': Fleet, dead: seq<DeadChunk>, idOf: Manifest -> ManifestId)
    requires Safe(f, idOf) && Next(f, f', Sweep(dead), idOf, false)
    requires forall c, id :: c in f.sessions && Relied(f.manifests, f.sessions[c], id) ==> id in f'.chunks
    ensures Safe(f', idOf)
  {
    hide Live, Complete, Relied, Orderly;
    if Complete(f.manifests, f.retained) {
      var live :| IsLiveSet(f.manifests, f.retained, live) && Swept(f.chunks, f'.chunks, dead, live);
      forall id | Live(f.manifests, f.retained, id) ensures id in f'.chunks {
        SweepSparesTheLive(f.chunks, f'.chunks, dead, live, f.manifests, f.retained, id);
      }
    }
    forall c | c in f'.sessions ensures SessionOk(f', f'.sessions[c], idOf) { assert SessionOk(f, f.sessions[c], idOf); }
  }

  /** A sweep beside open snapshots does no harm, now or later if later sweeps wait, exactly when it
      leaves every chunk that one of them relies on. */
  lemma SweepIsSafeIff(f: Fleet, f': Fleet, dead: seq<DeadChunk>, idOf: Manifest -> ManifestId)
    requires Addresses(idOf) && Safe(f, idOf) && Next(f, f', Sweep(dead), idOf, false)
    requires forall c :: c in f.sessions ==> Unclaimed(f.manifests, f.sessions[c].m, idOf)
    ensures NeverLoses(f', idOf) <==>
      forall c, id :: c in f.sessions && Relied(f.manifests, f.sessions[c], id) ==> id in f'.chunks
  {
    hide Addresses, Relied, Live, Complete, Orderly;
    if forall c, id :: c in f.sessions && Relied(f.manifests, f.sessions[c], id) ==> id in f'.chunks {
      SweepKeepsSafe(f, f', dead, idOf);
      hide Next, Safe;
      forall steps, g | Leads(Waiting(idOf), f', steps, g) ensures Backed(g.chunks, g.manifests, g.retained) {
        SafeOnwards(f', steps, g, idOf);
        assert Safe(g, idOf);
        SafeIsBacked(g, idOf);
      }
    } else {
      var c, id :| c in f.sessions && Relied(f.manifests, f.sessions[c], id) && id !in f'.chunks;
      assert SessionOk(f, f.sessions[c], idOf);
      var steps, g := LosesOpen(f', c, id, idOf);
      assert !Backed(g.chunks, g.manifests, g.retained);
    }
  }

  lemma SafeIsBacked(f: Fleet, idOf: Manifest -> ManifestId)
    requires Safe(f, idOf)
    ensures Backed(f.chunks, f.manifests, f.retained)
  {
  }

  // ---- the operations are such steps -----------------------------------------------------------

  /** The store with a snapshot's chunks and manifest in it. */
  function WithSnapshot(f: Fleet, c: Computer, m: Manifest, chunks: Chunks, idOf: Manifest -> ManifestId): Fleet {
    f.(chunks := chunks, manifests := f.manifests[idOf(m) := m], sessions := f.sessions[c := Session(m, Published)])
  }

  /** What a snapshot does to the store is a run of one session, from its start to publication. */
  lemma SnapshotIsSteps(f: Fleet, c: Computer, m: Manifest, chunks: Chunks, now: nat, idOf: Manifest -> ManifestId) returns (steps: seq<Step>)
    requires c !in f.sessions && (m.parent.Some? ==> InClosure(f.manifests, f.retained, m.parent.value))
    requires Unclaimed(f.manifests, m, idOf) && forall id :: id in ManifestChunks(m) ==> id.Blake3?
    requires chunks.Keys == f.chunks.Keys + ManifestChunks(m) && Kept(f.chunks, chunks) && WrittenNow(f.chunks, chunks, now)
    ensures Leads(Waiting(idOf), f, steps, WithSnapshot(f, c, m, chunks, idOf))
  {
    hide ManifestChunks, InClosure;
    var a := f.(sessions := f.sessions[c := Session(m, Built)]);
    var b := a.(sessions := a.sessions[c := Session(m, Probed(ManifestChunks(m) - f.chunks.Keys))]);
    OneStep(Waiting(idOf), f, a, Begin(c, m));
    ProbeIsStep(a, c, idOf);
    OneStep(Waiting(idOf), a, b, Probe(c));
    hide Next, Leads;
    var puts, g := PutAll(b, c, now, idOf);
    assert g.chunks == chunks;
    PublishIsStep(g, c, idOf);
    var h := g.(manifests := g.manifests[idOf(m) := m], sessions := g.sessions[c := Session(m, Published)]);
    OneStep(Waiting(idOf), g, h, Publish(c));
    SessionsOverwritten(f, c, Session(m, Built), Session(m, Probed(ManifestChunks(m) - f.chunks.Keys)), Session(m, Probed({})), Session(m, Published));
    LeadsOn(Waiting(idOf), f, [Begin(c, m)], a, [Probe(c)], b);
    LeadsOn(Waiting(idOf), f, [Begin(c, m)] + [Probe(c)], b, puts, g);
    LeadsOn(Waiting(idOf), f, [Begin(c, m)] + [Probe(c)] + puts, g, [Publish(c)], h);
    steps := [Begin(c, m)] + [Probe(c)] + puts + [Publish(c)];
  }

  lemma SessionsOverwritten(f: Fleet, c: Computer, s1: Session, s2: Session, s3: Session, s4: Session)
    ensures f.sessions[c := s1][c := s2][c := s3][c := s4] == f.sessions[c := s4]
  {
  }

  lemma CapturedIdsAreAddresses(nodes: Nodes, root: Ino, excl: string -> bool, cut: seq<byte> -> seq<nat>, es: seq<ManifestEntry>)
    requires Captures(nodes, root, excl, cut, es)
    ensures forall id :: id in ChunksOf(es) ==> id.Blake3?
  {
    hide Recorded, At;
    forall id | id in ChunksOf(es) ensures id.Blake3? {
      var e, c :| e in es && c in e.chunks && c.chunk == id;
      var p :| Recorded(nodes, root, excl, p) && e == EntryOf(At(nodes, root, p), p, cut);
      var v := At(nodes, root, p);
      if v.IsFile? { RefsAreAddresses(v.bytes, cut(v.bytes), c); }
    }
  }

  lemma {:induction false} RefsAreAddresses(data: seq<byte>, lens: seq<nat>, c: ChunkRef)
    requires c in Refs(data, lens)
    ensures c.chunk.Blake3?
  {
    if c != Refs(data, lens)[0] { RefsAreAddresses(data[lens[0]..], lens[1..], c); }
  }

  /** A snapshot taken against the fleet's store. */
  method SnapshotInFleet(store: ChunkStore, fs: FileSystem, root: Ino, walk: seq<Path>, excl: string -> bool, cut: seq<byte> -> seq<nat>,
                         parent: Option<ManifestId>, createdAt: nat, now: nat, idOf: Manifest -> ManifestId, ghost f: Fleet, ghost c: Computer)
      returns (r: SnapshotResult, ghost steps: seq<Step>)
    requires Rooted(fs.nodes, root) && Enumerates(fs.nodes, root, walk) && Tiles(cut)
    requires store.chunks == f.chunks && store.manifests == f.manifests && c !in f.sessions
    requires parent.Some? ==> InClosure(f.manifests, f.retained, parent.value)
    modifies store, fs
    ensures store.manifests == WithSnapshot(f, c, r.manifest, store.chunks, idOf).manifests
    ensures Unclaimed(f.manifests, r.manifest, idOf) ==> Leads(Waiting(idOf), f, steps, WithSnapshot(f, c, r.manifest, store.chunks, idOf))
  {
    hide Rooted, Enumerates, Tiles, Captures, InClosure, Kept, WrittenNow, LeftOut, Topmost, Supplied, Sound, Leads;
    r := Snapshot(store, fs, root, walk, excl, cut, parent, createdAt, now, idOf);
    CapturedIdsAreAddresses(fs.nodes, root, excl, cut, r.manifest.entries);
    steps := [];
    if Unclaimed(f.manifests, r.manifest, idOf) { steps := SnapshotIsSteps(f, c, r.manifest, store.chunks, now, idOf); }
  }

  /** A collection against the fleet's store is one sweep, however it ends. */
  method ExecuteInFleet(store: ChunkStore, plan: GcPlan, retained: seq<ManifestId>, mode: GcMode, ghost f: Fleet, ghost idOf: Manifest -> ManifestId)
      returns (r: Result<GcReport, Error>)
    requires store.chunks == f.chunks && store.manifests == f.manifests && Elements(retained) == f.retained
    modifies store`chunks
    ensures Next(f, f.(chunks := store.chunks), Sweep(plan.dead), idOf, f.sessions == map[])
  {
    hide Complete, Live, Elements;
    r := Execute(store, plan, retained, mode);
  }

  // ---- why sweeps have to wait -------------------------------------------------------------------

  const X: ChunkId := Blake3([1])
  const ONE_FILE := Manifest(None, 0, [ManifestEntry("/a", FileKind, 0x81A4, 1, None, [ChunkRef(X, 1)])])
  const BODY: Chunks := map[X := Stored(Zstd([1]), Some(0))]
  const DEAD := [DeadChunk(X, 9, true, false)]
  const LOSING := [Begin(0, ONE_FILE), Probe(0), Put(0, X, 0), Abandon(0), Begin(1, ONE_FILE), Probe(1), Sweep(DEAD), Publish(1), Advance(1)]

  /** A snapshot uploads X and is abandoned; the next finds X there; the sweep takes it. */
  ghost function Losing(id: ManifestId): seq<Fleet> {
    [ EMPTY,
      EMPTY.(sessions := map[0 := Session(ONE_FILE, Built)]),
      EMPTY.(sessions := map[0 := Session(ONE_FILE, Probed({X}))]),
      EMPTY.(chunks := BODY, sessions := map[0 := Session(ONE_FILE, Probed({}))]),
      EMPTY.(chunks := BODY),
      EMPTY.(chunks := BODY, sessions := map[1 := Session(ONE_FILE, Built)]),
      EMPTY.(chunks := BODY, sessions := map[1 := Session(ONE_FILE, Probed({}))]),
      EMPTY.(sessions := map[1 := Session(ONE_FILE, Probed({}))]),
      EMPTY.(manifests := map[id := ONE_FILE], sessions := map[1 := Session(ONE_FILE, Published)]),
      EMPTY.(manifests := map[id := ONE_FILE], retained := {id}, heads := map[1 := id])
    ]
  }

  lemma OnlyX()
    ensures ManifestChunks(ONE_FILE) == {X}
  {
    assert ONE_FILE.entries[0] in ONE_FILE.entries && ChunkRef(X, 1) in ONE_FILE.entries[0].chunks;
  }

  lemma LosingEarly(idOf: Manifest -> ManifestId, i: nat)
    requires i < 4
    ensures Next(Losing(idOf(ONE_FILE))[i], Losing(idOf(ONE_FILE))[i + 1], LOSING[i], idOf, false)
  {
    var run := Losing(idOf(ONE_FILE));
    var none: map<Computer, Session> := map[];
    OnlyX();
    hide ManifestChunks, Live, Complete;
    if i == 1 { assert {X} - run[1].chunks.Keys == {X}; }
    if i == 2 { assert {X} - {X} == {}; }
    if i == 3 { assert run[3].sessions - {0} == none; }
  }

  lemma LosingLate(idOf: Manifest -> ManifestId, i: nat)
    requires 4 <= i < |LOSING|
    ensures Next(Losing(idOf(ONE_FILE))[i], Losing(idOf(ONE_FILE))[i + 1], LOSING[i], idOf, false)
  {
    var run := Losing(idOf(ONE_FILE));
    var none: map<Computer, Session> := map[];
    OnlyX();
    hide ManifestChunks, Live, Complete;
    if i == 5 { assert {X} - run[5].chunks.Keys == {}; }
    if i == 6 { NothingIsLive(run[6], DEAD, X); }
    if i == 8 { assert run[8].sessions - {1} == none; }
  }

  /** Without the wait the guarantee is gone: the published head names a missing chunk. */
  lemma OpenSnapshotLosesAChunk(idOf: Manifest -> ManifestId)
    requires IsAddress(idOf(ONE_FILE))
    ensures IsRun(Losing(idOf(ONE_FILE)), LOSING, idOf, false)
    ensures var f := Losing(idOf(ONE_FILE))[9]; Live(f.manifests, f.retained, X) && X !in f.chunks
  {
    var id := idOf(ONE_FILE);
    forall i | 0 <= i < |LOSING| ensures Next(Losing(id)[i], Losing(id)[i + 1], LOSING[i], idOf, false) {
      if i < 4 { LosingEarly(idOf, i); } else { LosingLate(idOf, i); }
    }
    var f := Losing(id)[9];
    OnlyX();
    ClosureStart(f.manifests, {id}, id);
    assert IsAddress(id);
    hide Next, ManifestChunks;
  }

  lemma NothingIsLive(f: Fleet, dead: seq<DeadChunk>, x: ChunkId)
    requires f.retained == {} && f.chunks.Keys == {x} && dead != [] && dead[0].chunk == x && !dead[0].protected
    ensures Complete(f.manifests, {}) && IsLiveSet(f.manifests, {}, {}) && Swept(f.chunks, map[], dead, {})
  {
    assert dead[0] in dead;
  }

  /** That sweep is unsafe by the condition above: the open snapshot relies on X. */
  lemma LosingSweepIsUnsafe(idOf: Manifest -> ManifestId)
    requires Addresses(idOf)
    ensures var f, f' := Losing(idOf(ONE_FILE))[6], Losing(idOf(ONE_FILE))[7];
      && Safe(f, idOf) && Next(f, f', Sweep(DEAD), idOf, false)
      && (forall c :: c in f.sessions ==> Unclaimed(f.manifests, f.sessions[c].m, idOf))
      && Relied(f.manifests, f.sessions[1], X) && !NeverLoses(f', idOf)
  {
    var run := Losing(idOf(ONE_FILE));
    hide Next, Safe, NeverLoses, Live, Addresses, ManifestChunks;
    forall i | 0 <= i < 6 ensures Next(run[i], run[i + 1], LOSING[i], idOf, true) {
      if i < 4 { LosingEarly(idOf, i); } else { LosingLate(idOf, i); }
      WaitingAnyway(run[i], run[i + 1], LOSING[i], idOf);
    }
    assert IsRun(run[..7], LOSING[..6], idOf, true);
    GcSafe(run[..7], LOSING[..6], idOf, 6);
    LosingLate(idOf, 6);
    OnlyX();
    assert X !in run[7].chunks && Relied(run[6].manifests, run[6].sessions[1], X);
    SweepIsSafeIff(run[6], run[7], DEAD, idOf);
  }

  /** Only a sweep can be asked to wait. */
  lemma WaitingAnyway(f: Fleet, f': Fleet, step: Step, idOf: Manifest -> ManifestId)
    requires Next(f, f', step, idOf, false) && !step.Sweep?
    ensures Next(f, f', step, idOf, true)
  {
    hide InClosure, ManifestChunks, Unclaimed;
  }

  // ---- a run of two snapshots --------------------------------------------------------------------

  const Y: ChunkId := Blake3([2])
  const ID1: ManifestId := IdOfDigit('1')
  const ID2: ManifestId := IdOfDigit('2')
  const TWO_FILES := Manifest(Some(ID1), 1, [
    ManifestEntry("/a", FileKind, 0x81A4, 1, None, [ChunkRef(X, 1)]), ManifestEntry("/b", FileKind, 0x81A4, 1, None, [ChunkRef(Y, 1)])])
  const BOTH: Chunks := map[X := Stored(Zstd([1]), Some(0)), Y := Stored(Zstd([2]), Some(1))]
  const GROWING := [Begin(0, ONE_FILE), Probe(0), Put(0, X, 0), Publish(0), Advance(0),
                    Begin(1, TWO_FILES), Probe(1), Put(1, Y, 1), Publish(1), Advance(1), Sweep(DEAD)]

  function IdOfDigit(c: char): (id: ManifestId)
    ensures |id| == 64 && forall i :: 0 <= i < |id| ==> id[i] == c
  {
    seq(64, _ => c)
  }

  function Naming(m: Manifest): ManifestId {
    if m == ONE_FILE then ID1 else ID2
  }

  /** One computer's snapshot, another's on top of it that finds X there, and a sweep from a plan in
      which X was dead. */
  ghost function Growing(): seq<Fleet> {
    var one, two: ManifestMap := map[ID1 := ONE_FILE], map[ID1 := ONE_FILE, ID2 := TWO_FILES];
    var f := Fleet(BODY, one, {ID1}, map[0 := ID1], map[]);
    var g := Fleet(BOTH, two, {ID1, ID2}, map[0 := ID1, 1 := ID2], map[]);
    [ EMPTY,
      EMPTY.(sessions := map[0 := Session(ONE_FILE, Built)]),
      EMPTY.(sessions := map[0 := Session(ONE_FILE, Probed({X}))]),
      EMPTY.(chunks := BODY, sessions := map[0 := Session(ONE_FILE, Probed({}))]),
      EMPTY.(chunks := BODY, manifests := one, sessions := map[0 := Session(ONE_FILE, Published)]),
      f,
      f.(sessions := map[1 := Session(TWO_FILES, Built)]),
      f.(sessions := map[1 := Session(TWO_FILES, Probed({Y}))]),
      f.(chunks := BOTH, sessions := map[1 := Session(TWO_FILES, Probed({}))]),
      f.(chunks := BOTH, manifests := two, sessions := map[1 := Session(TWO_FILES, Published)]),
      g, g ]
  }

  lemma XAndY()
    ensures ManifestChunks(TWO_FILES) == {X, Y}
  {
    var es := TWO_FILES.entries;
    assert es[0] in es && es[1] in es && ChunkRef(X, 1) in es[0].chunks && ChunkRef(Y, 1) in es[1].chunks;
  }

  lemma NamingIsSound()
    ensures Addresses(Naming) && ID1 != ID2 && ONE_FILE != TWO_FILES && Naming(ONE_FILE) == ID1 && Naming(TWO_FILES) == ID2
  {
    assert ID1[0] != ID2[0];
    assert IsAddress(ID1) && IsAddress(ID2);
  }

  lemma GrowingEarly(i: nat)
    requires i < 5
    ensures Next(Growing()[i], Growing()[i + 1], GROWING[i], Naming, true)
  {
    var run := Growing();
    var none: map<Computer, Session> := map[];
    OnlyX();
    NamingIsSound();
    hide ManifestChunks, Live, Complete, Addresses, Naming, IdOfDigit;
    if i == 1 { assert {X} - run[1].chunks.Keys == {X}; }
    if i == 2 { assert {X} - {X} == {}; }
    if i == 4 { assert run[4].sessions - {0} == none; }
  }

  lemma GrowingMid(i: nat)
    requires 5 <= i < 8
    ensures Next(Growing()[i], Growing()[i + 1], GROWING[i], Naming, true)
  {
    var run := Growing();
    XAndY();
    NamingIsSound();
    ClosureStart(run[5].manifests, {ID1}, ID1);
    hide ManifestChunks, Live, Complete, InClosure, Addresses, Naming, IdOfDigit;
    if i == 6 { assert {X, Y} - run[6].chunks.Keys == {Y}; }
    if i == 7 { assert {Y} - {Y} == {}; }
  }

  lemma GrowingLate(i: nat)
    requires 8 <= i < 10
    ensures Next(Growing()[i], Growing()[i + 1], GROWING[i], Naming, true)
  {
    var run := Growing();
    var none: map<Computer, Session> := map[];
    NamingIsSound();
    hide ManifestChunks, Live, Complete, InClosure, Addresses, Naming, IdOfDigit;
    if i == 9 { assert run[9].sessions - {1} == none; }
  }

  lemma GrowingLive()
    ensures var g := Growing()[10];
      Complete(g.manifests, g.retained) && IsLiveSet(g.manifests, g.retained, {X, Y})
  {
    var g := Growing()[10];
    var ms, ids := g.manifests, g.retained;
    NamingIsSound();
    OnlyX();
    XAndY();
    ClosureStart(ms, ids, ID1);
    ClosureStart(ms, ids, ID2);
    assert Load(ms, ID1) == Ok(ONE_FILE) && Load(ms, ID2) == Ok(TWO_FILES) by { assert IsAddress(ID1) && IsAddress(ID2); }
    hide Load, ManifestChunks, Ancestor;
    assert ParentClosed(ms, ids);
    forall x | InClosure(ms, ids, x) ensures x in ids {
      var r: ManifestId, k: nat :| r in ids && Ancestor(ms, r, k) == Some(x);
      ClosureWithin(ms, ids, ids, r, k);
    }
  }

  /** Such runs exist: different manifests under different ids, deduplication, and a sweep that
      spares a chunk its plan holds dead. */
  lemma TwoSnapshotsAreARun()
    ensures Addresses(Naming) && IsRun(Growing(), GROWING, Naming, true)
    ensures var f := Growing()[11];
      f.heads == map[0 := ID1, 1 := ID2] && ID1 != ID2 && f.chunks.Keys == {X, Y} && Safe(f, Naming)
  {
    var run := Growing();
    NamingIsSound();
    forall i | 0 <= i < |GROWING| ensures Next(run[i], run[i + 1], GROWING[i], Naming, true) {
      if i < 5 { GrowingEarly(i); } else if i < 8 { GrowingMid(i); } else if i < 10 { GrowingLate(i); } else { GrowingSweep(); }
    }
    hide Next, Safe, Addresses;
    GcSafe(run, GROWING, Naming, 11);
  }

  lemma GrowingSweep()
    ensures Next(Growing()[10], Growing()[11], GROWING[10], Naming, true)
  {
    var g := Growing()[10];
    GrowingLive();
    assert Swept(g.chunks, g.chunks, DEAD, {X, Y});
    hide Live, Complete;
  }
}
