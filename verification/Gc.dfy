/** Mark and sweep over the shared chunk store (crates/mari-core/src/gc.rs), and a manifest's
    delta against its parents (crates/mari-core/src/snapshot.rs). */
module Gcs {
  import opened Basics
  import opened Errors
  import opened Ordering
  import opened Manifests
  import opened ChunkStores

  // ---- what is live ------------------------------------------------------------------

  /** The manifest `k` parent links above `id`, if they can be followed. */
  function Ancestor(ms: ManifestMap, id: ManifestId, k: nat): Option<ManifestId> {
    if k == 0 then Some(id)
    else match Ancestor(ms, id, k - 1)
      case None => None
      case Some(a) => if Load(ms, a).Ok? then Load(ms, a).value.parent else None
  }

  /** `x` is retained or lies above something retained. */
  ghost predicate InClosure(ms: ManifestMap, retained: set<ManifestId>, x: ManifestId) {
    exists r: ManifestId, k: nat :: r in retained && Ancestor(ms, r, k) == Some(x)
  }

  /** Every manifest in the closure can be loaded. */
  ghost predicate Complete(ms: ManifestMap, retained: set<ManifestId>) {
    forall x :: InClosure(ms, retained, x) ==> Load(ms, x).Ok?
  }

  ghost predicate Live(ms: ManifestMap, retained: set<ManifestId>, c: ChunkId) {
    exists x :: InClosure(ms, retained, x) && Load(ms, x).Ok? && c in ManifestChunks(Load(ms, x).value)
  }

  lemma ClosureStart(ms: ManifestMap, retained: set<ManifestId>, r: ManifestId)
    requires r in retained
    ensures InClosure(ms, retained, r)
  {
    assert Ancestor(ms, r, 0) == Some(r);
  }

  lemma ClosureStep(ms: ManifestMap, retained: set<ManifestId>, x: ManifestId)
    requires InClosure(ms, retained, x) && Load(ms, x).Ok? && Load(ms, x).value.parent.Some?
    ensures InClosure(ms, retained, Load(ms, x).value.parent.value)
  {
    var r: ManifestId, k: nat :| r in retained && Ancestor(ms, r, k) == Some(x);
    assert Ancestor(ms, r, k + 1) == Load(ms, x).value.parent;
  }

  lemma {:induction false} AncestorShift(ms: ManifestMap, id: ManifestId, k: nat)
    requires Load(ms, id).Ok?
    ensures Ancestor(ms, id, k + 1) == match Load(ms, id).value.parent case None => None case Some(p) => Ancestor(ms, p, k)
  {
    if k > 0 {
      AncestorShift(ms, id, k - 1);
    } else {
      assert Ancestor(ms, id, 0) == Some(id);
    }
  }

  /** Closed under parents. */
  ghost predicate ParentClosed(ms: ManifestMap, ids: set<ManifestId>) {
    forall x :: x in ids ==> Load(ms, x).Ok? && (Load(ms, x).value.parent.Some? ==> Load(ms, x).value.parent.value in ids)
  }

  lemma {:induction false} ClosureWithin(ms: ManifestMap, retained: set<ManifestId>, ids: set<ManifestId>, r: ManifestId, k: nat)
    requires retained <= ids && ParentClosed(ms, ids) && r in retained && Ancestor(ms, r, k).Some?
    ensures Ancestor(ms, r, k).value in ids
  {
    if k > 0 { ClosureWithin(ms, retained, ids, r, k - 1); }
  }

  function Elements(s: seq<ManifestId>): set<ManifestId> {
    set x | x in s
  }

  /** The worklist at work: `visited` is done, `stack` is still to do. */
  ghost predicate Marking(ms: ManifestMap, retained: set<ManifestId>, visited: set<ManifestId>, stack: seq<ManifestId>, live: set<ChunkId>) {
    && retained <= visited + Elements(stack)
    && (forall x :: x in visited ==>
          && InClosure(ms, retained, x) && Load(ms, x).Ok?
          && (Load(ms, x).value.parent.Some? ==> Load(ms, x).value.parent.value in visited + Elements(stack)))
    && (forall x :: x in stack ==> InClosure(ms, retained, x))
    && (forall c :: c in live <==> exists x :: x in visited && Load(ms, x).Ok? && c in ManifestChunks(Load(ms, x).value))
  }

  lemma MarkAgain(ms: ManifestMap, retained: set<ManifestId>, visited: set<ManifestId>, stack: seq<ManifestId>, live: set<ChunkId>)
    requires Marking(ms, retained, visited, stack, live) && stack != [] && stack[|stack| - 1] in visited
    ensures Marking(ms, retained, visited, stack[..|stack| - 1], live)
  {
    var id, rest := stack[|stack| - 1], stack[..|stack| - 1];
    assert stack == rest + [id];
    assert visited + Elements(stack) == visited + Elements(rest);
  }

  lemma MarkOne(ms: ManifestMap, retained: set<ManifestId>, visited: set<ManifestId>, stack: seq<ManifestId>, live: set<ChunkId>, m: Manifest)
    requires Marking(ms, retained, visited, stack, live) && stack != [] && stack[|stack| - 1] !in visited
    requires Load(ms, stack[|stack| - 1]) == Ok(m)
    ensures var id, rest := stack[|stack| - 1], stack[..|stack| - 1];
      Marking(ms, retained, visited + {id}, if m.parent.Some? then rest + [m.parent.value] else rest, live + ManifestChunks(m))
  {
    var id, rest := stack[|stack| - 1], stack[..|stack| - 1];
    var visited', live' := visited + {id}, live + ManifestChunks(m);
    var stack' := if m.parent.Some? then rest + [m.parent.value] else rest;
    assert stack == rest + [id] && id in stack;
    if m.parent.Some? { ClosureStep(ms, retained, id); }
    assert visited + Elements(stack) <= visited' + Elements(stack');
    hide ManifestChunks;
    forall c ensures c in live' <==> exists x :: x in visited' && Load(ms, x).Ok? && c in ManifestChunks(Load(ms, x).value) {
      if c in live {
        var x :| x in visited && Load(ms, x).Ok? && c in ManifestChunks(Load(ms, x).value);
        assert x in visited';
      }
      if c in ManifestChunks(m) { assert id in visited'; }
    }
  }

  lemma MarkedAll(ms: ManifestMap, retained: set<ManifestId>, visited: set<ManifestId>, live: set<ChunkId>)
    requires Marking(ms, retained, visited, [], live)
    ensures Complete(ms, retained)
    ensures forall c :: c in live <==> Live(ms, retained, c)
  {
    assert visited + Elements([]) == visited;
    forall x | InClosure(ms, retained, x) ensures x in visited {
      var r: ManifestId, k: nat :| r in retained && Ancestor(ms, r, k) == Some(x);
      ClosureWithin(ms, retained, visited, r, k);
    }
  }

  lemma MarkStart(ms: ManifestMap, retained: seq<ManifestId>)
    ensures Marking(ms, Elements(retained), {}, retained, {})
  {
    forall x | x in retained ensures InClosure(ms, Elements(retained), x) { ClosureStart(ms, Elements(retained), x); }
  }

  /** Every chunk reachable from a retained manifest or its parents; an error if any of those
      manifests cannot be loaded. Terminates on cyclic parent links too. */
  method CollectLiveSet(store: ChunkStore, retained: seq<ManifestId>) returns (r: Result<set<ChunkId>, Error>)
    ensures r.Ok? <==> Complete(store.manifests, Elements(retained))
    ensures r.Ok? ==> forall c :: c in r.value <==> Live(store.manifests, Elements(retained), c)
    ensures r.Err? ==> Blamed(store.manifests, Elements(retained), r.error)
  {
    hide Marking, Complete, Live, ManifestChunks, Elements, InClosure, Blamed;
    ghost var ms, roots := store.manifests, Elements(retained);
    var live: set<ChunkId> := {};
    var visited: set<ManifestId> := {};
    var stack := retained;
    MarkStart(ms, retained);
    while stack != []
      invariant Marking(ms, roots, visited, stack, live)
      decreases |ms.Keys - visited|, |stack|
    {
      var id := stack[|stack| - 1];
      if id in visited {
        MarkAgain(ms, roots, visited, stack, live);
        stack := stack[..|stack| - 1];
      } else {
        var manifest := store.GetManifest(id);
        if manifest.Err? {
          Unloadable(ms, roots, visited, stack, live, id);
          return Err(manifest.error);
        }
        MarkOne(ms, roots, visited, stack, live, manifest.value);
        Shrinks(ms.Keys, visited, id);
        visited := visited + {id};
        live := live + ManifestChunks(manifest.value);
        stack := stack[..|stack| - 1];
        if manifest.value.parent.Some? { stack := stack + [manifest.value.parent.value]; }
      }
    }
    MarkedAll(ms, roots, visited, live);
    return Ok(live);
  }

  lemma Shrinks<T>(all: set<T>, visited: set<T>, x: T)
    requires x in all && x !in visited
    ensures |all - (visited + {x})| < |all - visited|
  {
    assert all - visited == all - (visited + {x}) + {x};
  }

  lemma Unloadable(ms: ManifestMap, retained: set<ManifestId>, visited: set<ManifestId>, stack: seq<ManifestId>, live: set<ChunkId>, id: ManifestId)
    requires Marking(ms, retained, visited, stack, live) && id in stack && Load(ms, id).Err?
    ensures !Complete(ms, retained) && Blamed(ms, retained, Load(ms, id).error)
  {
  }

  /** Some manifest in the closure cannot be loaded, for this reason. */
  ghost predicate Blamed(ms: ManifestMap, retained: set<ManifestId>, why: Error) {
    exists x :: InClosure(ms, retained, x) && Load(ms, x) == Err(why)
  }

  // ---- planning --------------------------------------------------------------------------

  datatype DeadChunk = DeadChunk(chunk: ChunkId, ageSecs: nat, mtimeKnown: bool, protected: bool)

  datatype GcPlan = GcPlan(live: set<ChunkId>, dead: seq<DeadChunk>, safetyWindowSecs: nat, nowSecs: nat, totalChunks: nat)

  datatype GcMode = DryRun | Delete

  datatype GcAction = Deleted | WouldDelete | ProtectedByWindow | Resurrected

  datatype GcAuditEntry = GcAuditEntry(chunk: ChunkId, ageSecs: nat, action: GcAction)

  datatype GcReport = GcReport(mode: GcMode, deleted: seq<ChunkId>, audit: seq<GcAuditEntry>)

  /** A listing names every stored chunk once. */
  ghost predicate Listing(chunks: Chunks, all: seq<ChunkId>) {
    && (forall c :: c in all <==> c in chunks)
    && (forall i, j :: 0 <= i < j < |all| ==> all[i] != all[j])
  }

  /** Too young to go: written less than a window ago, or who knows when. */
  predicate Young(stored: Stored, window: nat, now: nat) {
    stored.mtime.None? || (window > 0 && stored.mtime.value + window > now)
  }

  /** What a plan says of a dead chunk. */
  ghost predicate Judged(d: DeadChunk, stored: Stored, window: nat, now: nat) {
    && (d.mtimeKnown <==> stored.mtime.Some?)
    && (stored.mtime.None? ==> d.ageSecs == 0)
    && (stored.mtime.Some? ==> d.ageSecs == if stored.mtime.value <= now then now - stored.mtime.value else 0)
    && (d.protected <==> Young(stored, window, now))
  }

  function IdText(text: ChunkId -> string): DeadChunk -> string {
    (d: DeadChunk) => text(d.chunk)
  }

  /** The text of an id, as it is spelled in the store: different chunks there have different texts. */
  ghost predicate Spells(text: ChunkId -> string, chunks: Chunks) {
    forall a, b :: a in chunks && b in chunks && text(a) == text(b) ==> a == b
  }

  /** The chunks in `which` that are not live, each once, in the order of their text. */
  ghost predicate Plans(dead: seq<DeadChunk>, chunks: Chunks, which: set<ChunkId>, live: set<ChunkId>, text: ChunkId -> string, window: nat, now: nat) {
    && SortedBy(dead, IdText(text), Less)
    && (forall d :: d in dead ==> d.chunk in which && d.chunk in chunks && d.chunk !in live && Judged(d, chunks[d.chunk], window, now))
    && (forall c :: c in which && c !in live ==> Planned(dead, c))
  }

  ghost predicate Planned(dead: seq<DeadChunk>, c: ChunkId) {
    exists d :: d in dead && d.chunk == c
  }

  lemma PlanMore(dead: seq<DeadChunk>, chunks: Chunks, which: set<ChunkId>, live: set<ChunkId>, text: ChunkId -> string, window: nat, now: nat, d: DeadChunk)
    requires StrictOrder(Less) && Spells(text, chunks) && Plans(dead, chunks, which, live, text, window, now)
    requires d.chunk !in which && d.chunk in chunks && d.chunk !in live && Judged(d, chunks[d.chunk], window, now)
    ensures forall y :: y in dead ==> IdText(text)(y) != IdText(text)(d)
    ensures Plans(InsertBy(dead, d, IdText(text), Less), chunks, which + {d.chunk}, live, text, window, now)
  {
    hide Judged, StrictOrder;
    forall y | y in dead ensures IdText(text)(y) != IdText(text)(d) { assert y.chunk in which; }
    hide SortedBy;
    var more := InsertBy(dead, d, IdText(text), Less);
    forall c | c in which + {d.chunk} && c !in live ensures Planned(more, c) {
      if c in which { assert Planned(dead, c); } else { assert d in more; }
    }
  }

  lemma PlanSkips(dead: seq<DeadChunk>, chunks: Chunks, which: set<ChunkId>, live: set<ChunkId>, text: ChunkId -> string, window: nat, now: nat, c: ChunkId)
    requires Plans(dead, chunks, which, live, text, window, now) && c in live
    ensures Plans(dead, chunks, which + {c}, live, text, window, now)
  {
  }

  /** However the store lists its chunks and in whatever order their ages come back, the plan is
      the same. */
  lemma OnePlan(a: seq<DeadChunk>, b: seq<DeadChunk>, chunks: Chunks, which: set<ChunkId>, live: set<ChunkId>, text: ChunkId -> string, window: nat, now: nat)
    requires Plans(a, chunks, which, live, text, window, now) && Plans(b, chunks, which, live, text, window, now)
    ensures a == b
  {
    LessIsStrict();
    hide StrictOrder, SortedBy;
    forall d ensures d in a <==> d in b {
      if d in a { InOtherPlan(a, b, chunks, which, live, text, window, now, d); }
      if d in b { InOtherPlan(b, a, chunks, which, live, text, window, now, d); }
    }
    SortedUnique(a, b, IdText(text), Less);
  }

  lemma InOtherPlan(a: seq<DeadChunk>, b: seq<DeadChunk>, chunks: Chunks, which: set<ChunkId>, live: set<ChunkId>, text: ChunkId -> string, window: nat, now: nat, d: DeadChunk)
    requires Plans(a, chunks, which, live, text, window, now) && Plans(b, chunks, which, live, text, window, now) && d in a
    ensures d in b
  {
    assert Planned(b, d.chunk);
    var e :| e in b && e.chunk == d.chunk;
    hide SortedBy, Young;
    assert e == d;
  }

  /** List the store and judge what is not live by its age; `text` spells an id out. */
  method PlanAt(store: ChunkStore, retained: seq<ManifestId>, all: seq<ChunkId>, text: ChunkId -> string, window: nat, now: nat) returns (r: Result<GcPlan, Error>)
    requires Listing(store.chunks, all) && Spells(text, store.chunks)
    ensures r.Ok? <==> Complete(store.manifests, Elements(retained))
    ensures r.Err? ==> Blamed(store.manifests, Elements(retained), r.error)
    ensures r.Ok? ==>
      && (forall c :: c in r.value.live <==> Live(store.manifests, Elements(retained), c))
      && Plans(r.value.dead, store.chunks, store.chunks.Keys, r.value.live, text, window, now)
      && (forall i, j :: 0 <= i < j < |r.value.dead| ==> Less(text(r.value.dead[i].chunk), text(r.value.dead[j].chunk)))
      && r.value.safetyWindowSecs == window && r.value.nowSecs == now && r.value.totalChunks == |all|
  {
    hide Complete, Live, Elements, Plans, Spells, Blamed;
    var live := CollectLiveSet(store, retained);
    if live.Err? { return Err(live.error); }
    var dead: seq<DeadChunk> := [];
    LessIsStrict();
    NothingPlanned(store.chunks, live.value, text, window, now);
    for k := 0 to |all|
      invariant Plans(dead, store.chunks, Listed(all[..k]), live.value, text, window, now)
    {
      var c := all[k];
      assert c in all && Listed(all[..k + 1]) == Listed(all[..k]) + {c} && c !in Listed(all[..k]);
      if c !in live.value {
        var mtime := store.chunks[c].mtime;
        var age := if mtime.Some? && mtime.value < now then now - mtime.value else 0;
        var d := DeadChunk(c, age, mtime.Some?, mtime.None? || age < window);
        assert Judged(d, store.chunks[c], window, now);
        PlanMore(dead, store.chunks, Listed(all[..k]), live.value, text, window, now, d);
        PlanIsSorted(dead, store.chunks, Listed(all[..k]), live.value, text, window, now);
        dead := InsertBy(dead, d, IdText(text), Less);
      } else {
        PlanSkips(dead, store.chunks, Listed(all[..k]), live.value, text, window, now, c);
      }
    }
    assert all[..|all|] == all && Listed(all) == store.chunks.Keys;
    PlanAscends(dead, store.chunks, store.chunks.Keys, live.value, text, window, now);
    return Ok(GcPlan(live.value, dead, window, now, |all|));
  }

  function Listed(s: seq<ChunkId>): set<ChunkId> {
    set c | c in s
  }

  lemma NothingPlanned(chunks: Chunks, live: set<ChunkId>, text: ChunkId -> string, window: nat, now: nat)
    ensures Plans([], chunks, Listed([]), live, text, window, now)
  {
  }

  lemma PlanAscends(dead: seq<DeadChunk>, chunks: Chunks, which: set<ChunkId>, live: set<ChunkId>, text: ChunkId -> string, window: nat, now: nat)
    requires Plans(dead, chunks, which, live, text, window, now)
    ensures forall i, j :: 0 <= i < j < |dead| ==> Less(text(dead[i].chunk), text(dead[j].chunk))
  {
    hide Less;
    forall i, j | 0 <= i < j < |dead| ensures Less(text(dead[i].chunk), text(dead[j].chunk)) {
      assert Less(IdText(text)(dead[i]), IdText(text)(dead[j]));
    }
  }

  lemma PlanIsSorted(dead: seq<DeadChunk>, chunks: Chunks, which: set<ChunkId>, live: set<ChunkId>, text: ChunkId -> string, window: nat, now: nat)
    requires Plans(dead, chunks, which, live, text, window, now)
    ensures SortedBy(dead, IdText(text), Less)
  {
  }

  // ---- sweeping ----------------------------------------------------------------------------

  /** What becomes of a candidate, given the live set of now. */
  function Verdict(d: DeadChunk, live: set<ChunkId>, mode: GcMode): GcAction {
    if d.chunk in live then Resurrected
    else if d.protected then ProtectedByWindow
    else if mode == DryRun then WouldDelete
    else Deleted
  }

  ghost predicate Condemned(dead: seq<DeadChunk>, live: set<ChunkId>, c: ChunkId) {
    exists d :: d in dead && d.chunk == c && !d.protected && c !in live
  }

  /** Only condemned chunks went, and nothing else changed. */
  ghost predicate Swept(before: Chunks, after: Chunks, dead: seq<DeadChunk>, live: set<ChunkId>) {
    && (forall c :: c in after ==> c in before && after[c] == before[c])
    && (forall c :: c in before && c !in after ==> Condemned(dead, live, c))
  }

  /** The live set, as a set: what the mark computes when the closure is complete. */
  ghost predicate IsLiveSet(ms: ManifestMap, retained: set<ManifestId>, live: set<ChunkId>) {
    forall c :: c in live <==> Live(ms, retained, c)
  }

  ghost predicate Audited(audit: seq<GcAuditEntry>, dead: seq<DeadChunk>, live: set<ChunkId>, mode: GcMode) {
    && |audit| == |dead|
    && forall i :: 0 <= i < |dead| ==> audit[i] == GcAuditEntry(dead[i].chunk, dead[i].ageSecs, Verdict(dead[i], live, mode))
  }

  /** The chunks the audit says were deleted, in its order. */
  function Gone(audit: seq<GcAuditEntry>): seq<ChunkId> {
    if audit == [] then []
    else Gone(audit[..|audit| - 1]) + if audit[|audit| - 1].action == Deleted then [audit[|audit| - 1].chunk] else []
  }

  lemma GoneMore(audit: seq<GcAuditEntry>, e: GcAuditEntry)
    ensures Gone(audit + [e]) == if e.action == Deleted then Gone(audit) + [e.chunk] else Gone(audit)
  {
    assert (audit + [e])[..|audit|] == audit;
  }

  /** The sweep came as far as candidate `k`, whose id is no address: what was condemned before it is
      gone and nothing else. */
  ghost predicate BrokeOff(before: Chunks, after: Chunks, dead: seq<DeadChunk>, live: set<ChunkId>, k: nat) {
    && k < |dead| && dead[k].chunk.Malformed? && Condemned([dead[k]], live, dead[k].chunk)
    && (forall c :: Condemned(dead[..k], live, c) ==> !c.Malformed?)
    && (forall c :: c in after <==> c in before && !Condemned(dead[..k], live, c))
  }

  /** After the first `k` candidates. */
  ghost predicate Sweeping(before: Chunks, after: Chunks, dead: seq<DeadChunk>, k: nat, live: set<ChunkId>, mode: GcMode, deleted: seq<ChunkId>, audit: seq<GcAuditEntry>)
    requires k <= |dead|
  {
    && Swept(before, after, dead, live) && (mode == DryRun ==> after == before)
    && Audited(audit, dead[..k], live, mode) && deleted == Gone(audit)
    && (forall c :: c in deleted <==> mode == Delete && Condemned(dead[..k], live, c))
    && (forall c :: c in after <==> c in before && c !in deleted)
    && (forall c :: c in deleted ==> !c.Malformed?)
  }

  lemma SweepBegins(before: Chunks, dead: seq<DeadChunk>, live: set<ChunkId>, mode: GcMode)
    ensures Sweeping(before, before, dead, 0, live, mode, [], [])
  {
    assert dead[..0] == [];
  }

  /** A candidate that stays. */
  lemma SweepSkips(before: Chunks, after: Chunks, dead: seq<DeadChunk>, k: nat, live: set<ChunkId>, mode: GcMode, deleted: seq<ChunkId>, audit: seq<GcAuditEntry>)
    requires k < |dead| && Sweeping(before, after, dead, k, live, mode, deleted, audit) && Verdict(dead[k], live, mode) != Deleted
    ensures Sweeping(before, after, dead, k + 1, live, mode, deleted, audit + [GcAuditEntry(dead[k].chunk, dead[k].ageSecs, Verdict(dead[k], live, mode))])
  {
    CondemnedMore(dead, live, k);
    GoneMore(audit, GcAuditEntry(dead[k].chunk, dead[k].ageSecs, Verdict(dead[k], live, mode)));
    hide Condemned, Gone;
  }

  /** A candidate that goes. */
  lemma SweepDeletes(before: Chunks, after: Chunks, dead: seq<DeadChunk>, k: nat, live: set<ChunkId>, mode: GcMode, deleted: seq<ChunkId>, audit: seq<GcAuditEntry>)
    requires k < |dead| && Sweeping(before, after, dead, k, live, mode, deleted, audit) && Verdict(dead[k], live, mode) == Deleted
    requires !dead[k].chunk.Malformed?
    ensures Sweeping(before, after - {dead[k].chunk}, dead, k + 1, live, mode, deleted + [dead[k].chunk],
                     audit + [GcAuditEntry(dead[k].chunk, dead[k].ageSecs, Deleted)])
  {
    CondemnedMore(dead, live, k);
    GoneMore(audit, GcAuditEntry(dead[k].chunk, dead[k].ageSecs, Deleted));
    assert Condemned(dead, live, dead[k].chunk);
    hide Condemned, Gone;
  }

  /** A candidate that is to go and has no address for an id. */
  lemma SweepBreaks(before: Chunks, after: Chunks, dead: seq<DeadChunk>, k: nat, live: set<ChunkId>, deleted: seq<ChunkId>, audit: seq<GcAuditEntry>)
    requires k < |dead| && Sweeping(before, after, dead, k, live, Delete, deleted, audit) && Verdict(dead[k], live, Delete) == Deleted
    requires dead[k].chunk.Malformed?
    ensures BrokeOff(before, after, dead, live, k) && Condemned(dead, live, dead[k].chunk)
  {
    assert dead[k] in [dead[k]];
  }

  lemma SweepEnds(before: Chunks, after: Chunks, dead: seq<DeadChunk>, live: set<ChunkId>, mode: GcMode, deleted: seq<ChunkId>, audit: seq<GcAuditEntry>)
    requires Sweeping(before, after, dead, |dead|, live, mode, deleted, audit)
    ensures Swept(before, after, dead, live) && Audited(audit, dead, live, mode) && deleted == Gone(audit)
    ensures forall c :: c in deleted <==> mode == Delete && Condemned(dead, live, c)
    ensures forall c :: c in after <==> c in before && c !in deleted
    ensures mode == Delete ==> forall c: ChunkId :: c.Malformed? ==> !Condemned(dead, live, c)
    ensures mode == DryRun ==> after == before
  {
    assert dead[..|dead|] == dead;
    hide Condemned, Gone;
  }

  /** Delete what the plan condemned and is still not live against what is retained now. */
  method Execute(store: ChunkStore, plan: GcPlan, retained: seq<ManifestId>, mode: GcMode) returns (r: Result<GcReport, Error>)
    modifies store`chunks
    ensures !Complete(store.manifests, Elements(retained)) ==>
      r.Err? && Blamed(store.manifests, Elements(retained), r.error) && store.chunks == old(store.chunks)
    ensures Complete(store.manifests, Elements(retained)) ==>
      exists live :: IsLiveSet(store.manifests, Elements(retained), live)
        && Swept(old(store.chunks), store.chunks, plan.dead, live)
        && (mode == DryRun ==> r.Ok? && store.chunks == old(store.chunks))
        && (r.Err? <==> mode == Delete && exists c: ChunkId :: c.Malformed? && Condemned(plan.dead, live, c))
        && (r.Err? ==> r.error == InvalidManifest && exists k: nat :: BrokeOff(old(store.chunks), store.chunks, plan.dead, live, k))
        && (r.Ok? ==>
              && r.value.mode == mode && Audited(r.value.audit, plan.dead, live, mode) && r.value.deleted == Gone(r.value.audit)
              && (forall c :: c in r.value.deleted <==> mode == Delete && Condemned(plan.dead, live, c))
              && (forall c :: c in store.chunks <==> c in old(store.chunks) && c !in r.value.deleted))
  {
    hide Complete, Live, Elements, Blamed, Sweeping, Swept, Audited, Gone, Condemned, BrokeOff;
    var found := CollectLiveSet(store, retained);
    if found.Err? { return Err(found.error); }
    var live := found.value;
    assert IsLiveSet(store.manifests, Elements(retained), live);
    hide IsLiveSet;
    var deleted: seq<ChunkId> := [];
    var audit: seq<GcAuditEntry> := [];
    ghost var before := store.chunks;
    SweepBegins(before, plan.dead, live, mode);
    for k := 0 to |plan.dead|
      invariant Sweeping(before, store.chunks, plan.dead, k, live, mode, deleted, audit)
    {
      var d := plan.dead[k];
      if d.chunk in live {
        SweepSkips(before, store.chunks, plan.dead, k, live, mode, deleted, audit);
        audit := audit + [GcAuditEntry(d.chunk, d.ageSecs, Resurrected)];
      } else if d.protected {
        SweepSkips(before, store.chunks, plan.dead, k, live, mode, deleted, audit);
        audit := audit + [GcAuditEntry(d.chunk, d.ageSecs, ProtectedByWindow)];
      } else {
        match mode {
          case DryRun =>
            SweepSkips(before, store.chunks, plan.dead, k, live, mode, deleted, audit);
            audit := audit + [GcAuditEntry(d.chunk, d.ageSecs, WouldDelete)];
          case Delete =>
            ghost var now := store.chunks;
            var gone := store.DeleteChunk(d.chunk);
            if gone.Err? {
              SweepBreaks(before, now, plan.dead, k, live, deleted, audit);
              SweptSoFar(before, now, plan.dead, k, live, mode, deleted, audit);
              return Err(gone.error);
            }
            SweepDeletes(before, now, plan.dead, k, live, mode, deleted, audit);
            deleted := deleted + [d.chunk];
            audit := audit + [GcAuditEntry(d.chunk, d.ageSecs, Deleted)];
        }
      }
    }
    SweepEnds(before, store.chunks, plan.dead, live, mode, deleted, audit);
    return Ok(GcReport(mode, deleted, audit));
  }

  lemma SweptSoFar(before: Chunks, after: Chunks, dead: seq<DeadChunk>, k: nat, live: set<ChunkId>, mode: GcMode, deleted: seq<ChunkId>, audit: seq<GcAuditEntry>)
    requires k <= |dead| && Sweeping(before, after, dead, k, live, mode, deleted, audit)
    ensures Swept(before, after, dead, live)
  {
  }

  lemma CondemnedMore(dead: seq<DeadChunk>, live: set<ChunkId>, k: nat)
    requires k < |dead|
    ensures dead[..k + 1] == dead[..k] + [dead[k]]
    ensures forall c :: Condemned(dead[..k + 1], live, c) <==>
      Condemned(dead[..k], live, c) || (c == dead[k].chunk && !dead[k].protected && c !in live)
  {
    assert dead[..k + 1] == dead[..k] + [dead[k]];
    forall c ensures Condemned(dead[..k + 1], live, c) <==>
      Condemned(dead[..k], live, c) || (c == dead[k].chunk && !dead[k].protected && c !in live)
    {
      if Condemned(dead[..k], live, c) {
        var d :| d in dead[..k] && d.chunk == c && !d.protected && c !in live;
        assert d in dead[..k + 1];
      }
      assert dead[k] in dead[..k + 1];
    }
  }

  /** Whatever plan it was given, a sweep never takes a chunk that is live now. */
  lemma SweepSparesTheLive(before: Chunks, after: Chunks, dead: seq<DeadChunk>, live: set<ChunkId>, ms: ManifestMap, retained: set<ManifestId>, c: ChunkId)
    requires IsLiveSet(ms, retained, live) && Swept(before, after, dead, live)
    requires c in before && Live(ms, retained, c)
    ensures c in after
  {
    hide Live;
  }

  // ---- deltas --------------------------------------------------------------------------------------

  /** The parent chain from `from` up to a manifest with no parent. */
  predicate IsChain(ms: ManifestMap, from: Option<ManifestId>, chain: seq<ManifestId>)
    decreases |chain|
  {
    if chain == [] then from.None?
    else from == Some(chain[0]) && Load(ms, chain[0]).Ok? && IsChain(ms, Load(ms, chain[0]).value.parent, chain[1..])
  }

  /** The parents lead to a base, without a gap and without a cycle. */
  ghost predicate ChainEnds(ms: ManifestMap, from: Option<ManifestId>) {
    exists chain :: IsChain(ms, from, chain)
  }

  function ChainChunks(ms: ManifestMap, chain: seq<ManifestId>): set<ChunkId> {
    if chain == [] then {}
    else (if Load(ms, chain[0]).Ok? then ManifestChunks(Load(ms, chain[0]).value) else {}) + ChainChunks(ms, chain[1..])
  }

  /** Following parents is a matter of where one starts. */
  lemma {:induction false} OneChain(ms: ManifestMap, from: Option<ManifestId>, a: seq<ManifestId>, b: seq<ManifestId>)
    requires IsChain(ms, from, a) && IsChain(ms, from, b)
    ensures a == b
    decreases |a|
  {
    if a != [] && b != [] {
      OneChain(ms, Load(ms, a[0]).value.parent, a[1..], b[1..]);
      assert a == [a[0]] + a[1..] && b == [b[0]] + b[1..];
    }
  }

  lemma {:induction false} ChainTail(ms: ManifestMap, from: Option<ManifestId>, chain: seq<ManifestId>, i: nat)
    requires IsChain(ms, from, chain) && i < |chain|
    ensures IsChain(ms, Some(chain[i]), chain[i..]) && Load(ms, chain[i]).Ok?
    decreases i
  {
    if i > 0 {
      ChainTail(ms, Load(ms, chain[0]).value.parent, chain[1..], i - 1);
      assert chain[1..][i - 1..] == chain[i..];
    }
  }

  /** A chain that ends never comes back to where it was. */
  lemma ChainIsAcyclic(ms: ManifestMap, from: Option<ManifestId>, chain: seq<ManifestId>, i: nat, j: nat)
    requires IsChain(ms, from, chain) && i < j < |chain|
    ensures chain[i] != chain[j]
  {
    ChainTail(ms, from, chain, i);
    ChainTail(ms, from, chain, j);
    if chain[i] == chain[j] { OneChain(ms, Some(chain[i]), chain[i..], chain[j..]); }
  }

  lemma {:induction false} FollowedPrefix(ms: ManifestMap, from: Option<ManifestId>, done: seq<ManifestId>, cur: Option<ManifestId>, chain: seq<ManifestId>)
    requires Walked(ms, from, done, cur) && IsChain(ms, from, chain)
    ensures done <= chain && IsChain(ms, cur, chain[|done|..])
    decreases |done|
  {
    if done != [] {
      FollowedPrefix(ms, Load(ms, done[0]).value.parent, done[1..], cur, chain[1..]);
      assert chain == [chain[0]] + chain[1..] && done == [done[0]] + done[1..];
      assert chain[1..][|done[1..]|..] == chain[|done|..];
    } else {
      assert chain[0..] == chain;
    }
  }

  /** `done` are the parents met from `from`, and `cur` is the next. */
  predicate Walked(ms: ManifestMap, from: Option<ManifestId>, done: seq<ManifestId>, cur: Option<ManifestId>)
    decreases |done|
  {
    if done == [] then cur == from
    else from == Some(done[0]) && Load(ms, done[0]).Ok? && Walked(ms, Load(ms, done[0]).value.parent, done[1..], cur)
  }

  lemma {:induction false} WalkedOne(ms: ManifestMap, from: Option<ManifestId>, done: seq<ManifestId>, id: ManifestId)
    requires Walked(ms, from, done, Some(id)) && Load(ms, id).Ok?
    ensures Walked(ms, from, done + [id], Load(ms, id).value.parent)
    decreases |done|
  {
    if done == [] {
      assert ([] + [id])[1..] == [];
    } else {
      WalkedOne(ms, Load(ms, done[0]).value.parent, done[1..], id);
      assert (done + [id])[1..] == done[1..] + [id];
    }
  }

  lemma {:induction false} WalkedIsChain(ms: ManifestMap, from: Option<ManifestId>, done: seq<ManifestId>)
    requires Walked(ms, from, done, None)
    ensures IsChain(ms, from, done)
    decreases |done|
  {
    if done != [] { WalkedIsChain(ms, Load(ms, done[0]).value.parent, done[1..]); }
  }

  lemma {:induction false} ChunksMore(ms: ManifestMap, done: seq<ManifestId>, id: ManifestId)
    requires Load(ms, id).Ok?
    ensures ChainChunks(ms, done + [id]) == ChainChunks(ms, done) + ManifestChunks(Load(ms, id).value)
    decreases |done|
  {
    hide ManifestChunks;
    if done == [] {
      assert ([] + [id])[1..] == [];
    } else {
      ChunksMore(ms, done[1..], id);
      assert (done + [id])[1..] == done[1..] + [id];
    }
  }

  /** Following the parents comes back to one met before, or to one that cannot be loaded for this reason. */
  ghost predicate ChainBreaks(ms: ManifestMap, from: Option<ManifestId>, why: Error) {
    exists done, id :: Walked(ms, from, done, Some(id)) && (if id in done then why == InvalidManifest else Load(ms, id) == Err(why))
  }

  /** The chunks a manifest refers to that no ancestor already provides; a parent that cannot
      be loaded and a cycle are errors. */
  method DeltaChunks(store: ChunkStore, m: Manifest) returns (r: Result<set<ChunkId>, Error>)
    ensures r.Ok? <==> ChainEnds(store.manifests, m.parent)
    ensures r.Err? ==> ChainBreaks(store.manifests, m.parent, r.error)
    ensures forall chain :: IsChain(store.manifests, m.parent, chain) ==>
      r == Ok(ManifestChunks(m) - ChainChunks(store.manifests, chain))
  {
    hide ManifestChunks;
    ghost var ms := store.manifests;
    ghost var done: seq<ManifestId> := [];
    var ancestor: set<ChunkId> := {};
    var seen: set<ManifestId> := {};
    var cur := m.parent;
    while cur.Some?
      invariant Walked(ms, m.parent, done, cur)
      invariant ancestor == ChainChunks(ms, done)
      invariant forall x :: x in seen <==> x in done
      invariant seen <= ms.Keys
      decreases |ms.Keys - seen|
    {
      var pid := cur.value;
      if pid in seen {
        forall chain | IsChain(ms, m.parent, chain) ensures false {
          FollowedPrefix(ms, m.parent, done, cur, chain);
          var i :| 0 <= i < |done| && done[i] == pid;
          assert chain[|done|..][0] == chain[|done|];
          ChainIsAcyclic(ms, m.parent, chain, i, |done|);
        }
        return Err(InvalidManifest);
      }
      var pm := store.GetManifest(pid);
      if pm.Err? {
        forall chain | IsChain(ms, m.parent, chain) ensures false {
          FollowedPrefix(ms, m.parent, done, cur, chain);
        }
        return Err(pm.error);
      }
      Shrinks(ms.Keys, seen, pid);
      WalkedOne(ms, m.parent, done, pid);
      ChunksMore(ms, done, pid);
      seen := seen + {pid};
      done := done + [pid];
      ancestor := ancestor + ManifestChunks(pm.value);
      cur := pm.value.parent;
    }
    WalkedIsChain(ms, m.parent, done);
    forall chain | IsChain(ms, m.parent, chain) ensures chain == done { OneChain(ms, m.parent, chain, done); }
    assert ChainEnds(ms, m.parent);
    var delta := set c | c in ManifestChunks(m) && c !in ancestor;
    assert delta == ManifestChunks(m) - ChainChunks(ms, done);
    return Ok(delta);
  }

  /** The deltas of a chain of manifests, from the tip down to the base. */
  function Deltas(ms: ManifestMap, chain: seq<ManifestId>): seq<set<ChunkId>> {
    if chain == [] then []
    else
      [(if Load(ms, chain[0]).Ok? then ManifestChunks(Load(ms, chain[0]).value) else {}) - ChainChunks(ms, chain[1..])]
      + Deltas(ms, chain[1..])
  }

  function Union(sets: seq<set<ChunkId>>): set<ChunkId> {
    if sets == [] then {} else sets[0] + Union(sets[1..])
  }

  function Sizes(sets: seq<set<ChunkId>>): nat {
    if sets == [] then 0 else |sets[0]| + Sizes(sets[1..])
  }

  /** No chunk is in two deltas, together they are everything the chain refers to, and so
      their sizes add up. */
  lemma {:induction false} DeltasPartition(ms: ManifestMap, chain: seq<ManifestId>)
    ensures var d := Deltas(ms, chain);
      && |d| == |chain|
      && Union(d) == ChainChunks(ms, chain)
      && Sizes(d) == |ChainChunks(ms, chain)|
      && (forall i, j :: 0 <= i < j < |d| ==> d[i] !! d[j])
    decreases |chain|
  {
    hide ManifestChunks;
    if chain != [] {
      var own := if Load(ms, chain[0]).Ok? then ManifestChunks(Load(ms, chain[0]).value) else {};
      DeltasPartition(ms, chain[1..]);
      var rest := Deltas(ms, chain[1..]);
      assert Deltas(ms, chain) == [own - Union(rest)] + rest;
      assert ChainChunks(ms, chain) == own + Union(rest);
      hide Deltas, ChainChunks, Load;
      OneMoreDelta(own, rest);
    }
  }

  /** What one manifest has beyond a partition of the rest extends the partition. */
  lemma OneMoreDelta(own: set<ChunkId>, rest: seq<set<ChunkId>>)
    requires forall i, j :: 0 <= i < j < |rest| ==> rest[i] !! rest[j]
    requires Sizes(rest) == |Union(rest)|
    ensures var d := [own - Union(rest)] + rest;
      && Union(d) == own + Union(rest)
      && Sizes(d) == |own + Union(rest)|
      && (forall i, j :: 0 <= i < j < |d| ==> d[i] !! d[j])
  {
    var d, first := [own - Union(rest)] + rest, own - Union(rest);
    assert d[1..] == rest;
    assert own + Union(rest) == first + Union(rest);
    forall i, j | 0 <= i < j < |d| ensures d[i] !! d[j] {
      if i == 0 { InUnion(rest, j - 1); }
    }
  }

  lemma {:induction false} InUnion(sets: seq<set<ChunkId>>, j: nat)
    requires j < |sets|
    ensures sets[j] <= Union(sets)
  {
    if j > 0 { InUnion(sets[1..], j - 1); }
  }

  lemma {:induction false} ChainIsClosure(ms: ManifestMap, chain: seq<ManifestId>, tip: ManifestId, x: ManifestId)
    requires IsChain(ms, Some(tip), chain)
    ensures x in chain <==> InClosure(ms, {tip}, x)
    ensures x in chain ==> Load(ms, x).Ok?
  {
    if x in chain {
      var i :| 0 <= i < |chain| && chain[i] == x;
      ChainAncestor(ms, chain, tip, i);
      ChainTail(ms, Some(tip), chain, i);
    }
    if InClosure(ms, {tip}, x) {
      var r: ManifestId, k: nat :| r in {tip} && Ancestor(ms, r, k) == Some(x);
      AncestorInChain(ms, chain, tip, k);
    }
  }

  lemma {:induction false} ChainAncestor(ms: ManifestMap, chain: seq<ManifestId>, tip: ManifestId, i: nat)
    requires IsChain(ms, Some(tip), chain) && i < |chain|
    ensures Ancestor(ms, tip, i) == Some(chain[i])
  {
    if i > 0 {
      ChainAncestor(ms, chain, tip, i - 1);
      ChainTail(ms, Some(tip), chain, i - 1);
      ChainTail(ms, Some(tip), chain, i);
      assert chain[i - 1..][1..] == chain[i..] && chain[i..][0] == chain[i];
    }
  }

  lemma {:induction false} AncestorInChain(ms: ManifestMap, chain: seq<ManifestId>, tip: ManifestId, k: nat)
    requires IsChain(ms, Some(tip), chain) && Ancestor(ms, tip, k).Some?
    ensures k < |chain| && Ancestor(ms, tip, k) == Some(chain[k])
  {
    if k > 0 {
      AncestorInChain(ms, chain, tip, k - 1);
      ChainTail(ms, Some(tip), chain, k - 1);
      assert chain[k - 1..][1..] == chain[k..];
      if k < |chain| { assert chain[k..][0] == chain[k]; }
    }
  }

  lemma {:induction false} ChainChunksMembers(ms: ManifestMap, chain: seq<ManifestId>, c: ChunkId)
    ensures c in ChainChunks(ms, chain) <==> exists x :: x in chain && Load(ms, x).Ok? && c in ManifestChunks(Load(ms, x).value)
    decreases |chain|
  {
    hide ManifestChunks;
    if chain != [] {
      ChainChunksMembers(ms, chain[1..], c);
      assert forall x :: x in chain <==> x == chain[0] || x in chain[1..];
    }
  }

  /** For a tip whose parent chain ends, the deltas along the chain partition the tip's live
      set: what each snapshot added adds up to what has to be kept. */
  lemma DeltasAddUpToTheLiveSet(ms: ManifestMap, tip: ManifestId, chain: seq<ManifestId>, live: set<ChunkId>)
    requires IsChain(ms, Some(tip), chain) && IsLiveSet(ms, {tip}, live)
    ensures Complete(ms, {tip})
    ensures var d := Deltas(ms, chain);
      Union(d) == live && Sizes(d) == |live| && (forall i, j :: 0 <= i < j < |d| ==> d[i] !! d[j])
  {
    hide ManifestChunks, InClosure;
    forall x ensures x in chain <==> InClosure(ms, {tip}, x) ensures x in chain ==> Load(ms, x).Ok? { ChainIsClosure(ms, chain, tip, x); }
    DeltasPartition(ms, chain);
    forall c ensures c in live <==> c in ChainChunks(ms, chain) { ChainChunksMembers(ms, chain, c); }
    assert live == ChainChunks(ms, chain);
  }
}
