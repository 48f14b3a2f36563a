/** One run's journal across supervisor lives: segments go to the disk, then to the store,
    then into the durable record; a crash ends a life at any point and a resume continues it
    (crates/marid/src/continuation.rs, state.rs, run.rs). */
module Lives {
  import opened Basics
  import opened Journals
  import opened Runs

  // ---- the state ----------------------------------------------------------------------

  /** Where the flush of the next segment stands. */
  datatype Flight = Idle | Reserved(bytes: seq<byte>) | OnDisk(bytes: seq<byte>) | InStore(bytes: seq<byte>)

  /** One supervisor life's journal. `inherited` is what the store held when it began. */
  datatype Life = Life(base: nat, first: nat, buf: seq<byte>, uploaded: nat, nextSeq: nat, finished: bool,
                       flight: Flight, inherited: Segments)

  /** The durable record's journal fields. */
  datatype Progress = Progress(journalLen: nat, nextSeq: nat)

  datatype World = World(disk: Segments, stored: Segments, record: Progress, life: Option<Life>, past: seq<Life>)

  const START := World(map[], map[], Progress(0, 0), None, [])

  datatype Step =
    | Append(data: seq<byte>)
    | Finish
    | Reserve
    | WriteLocal
    | WriteFails(kept: nat)
    | Upload
    | UploadFails(arrived: bool)
    | Commit
    | Record(journalLen: nat, nextSeq: nat)
    | Crash
    | Resume(control: nat, next: nat)
    | Replay(control: nat, next: nat)
    | Rollback(to: nat)

  // ---- what the disk attests to ----------------------------------------------------------

  function SizeAt(disk: Segments, i: nat): nat {
    if i in disk then |disk[i]| else 0
  }

  /** The bytes in ordinals below `n`. */
  function Total(disk: Segments, n: nat): nat {
    if n == 0 then 0 else Total(disk, n - 1) + SizeAt(disk, n - 1)
  }

  /** `n` is the first ordinal with no file. */
  predicate IsNext(disk: Segments, n: nat) {
    n !in disk && forall i :: 0 <= i < n ==> i in disk
  }

  /** Count the contiguous segments from ordinal 0; `sizes` lists ordinal and length, ascending. */
  method LocalJournalState(sizes: seq<(nat, nat)>, ghost disk: Segments) returns (total: nat, next: nat)
    requires forall a, b :: 0 <= a < b < |sizes| ==> sizes[a].0 < sizes[b].0
    requires forall a :: 0 <= a < |sizes| ==> sizes[a].0 in disk && sizes[a].1 == |disk[sizes[a].0]|
    requires forall i :: i in disk ==> exists a :: 0 <= a < |sizes| && sizes[a].0 == i
    ensures IsNext(disk, next) && total == Total(disk, next)
  {
    total, next := 0, 0;
    for a := 0 to |sizes|
      invariant next == a && total == Total(disk, next)
      invariant forall b :: 0 <= b < a ==> sizes[b].0 == b
      invariant forall i :: 0 <= i < next ==> i in disk
    {
      if sizes[a].0 != next {
        assert a > 0 ==> sizes[a - 1].0 < sizes[a].0;
        assert forall c :: 0 <= c < |sizes| ==> sizes[c].0 != next;
        return;
      }
      total := total + sizes[a].1;
      next := sizes[a].0 + 1;
    }
    assert forall c :: 0 <= c < |sizes| ==> sizes[c].0 != next;
  }

  function Max(a: nat, b: nat): nat {
    if a < b then b else a
  }

  /** set_journal_progress: never backwards. */
  function SetProgress(r: Progress, journalLen: nat, nextSeq: nat): Progress {
    if journalLen <= r.journalLen && nextSeq <= r.nextSeq then r
    else Progress(Max(r.journalLen, journalLen), Max(r.nextSeq, nextSeq))
  }

  /** The journal signal: the disk holds fewer bytes than the record says were durable. */
  predicate JournalSignal(disk: Segments, next: nat, record: Progress) {
    Total(disk, next) < record.journalLen
  }

  predicate ReplayIsSafe(record: Progress, control: nat, diskTotal: nat) {
    record.journalLen == 0 && control == 0 && diskTotal == 0
  }

  /** A replay is allowed exactly where a resume would begin at offset 0: no copy of the journal, be
      it the record, the control plane or the disk, holds a byte. */
  lemma ReplayGuardIff(w: World, control: nat, next: nat)
    ensures ReplayIsSafe(w.record, control, Total(w.disk, next)) <==> Resumed(w, control, next).base == 0
    ensures Resumed(w, control, next).base == 0 <==> w.record.journalLen == 0 && control == 0 && Total(w.disk, next) == 0
  {
  }

  /** A resumed life takes the highest end any surviving copy attests to. */
  function Resumed(w: World, control: nat, next: nat): Life {
    var base := Max(Max(w.record.journalLen, control), Total(w.disk, next));
    Life(base, Max(next, w.record.nextSeq), [], base, Max(next, w.record.nextSeq), false, Idle, w.stored)
  }

  /** A replayed run starts at the top. */
  function Replayed(w: World): Life {
    Life(0, 0, [], 0, 0, false, Idle, w.stored)
  }

  // ---- the steps ------------------------------------------------------------------------------

  /** What a flush would reserve now. */
  function Ready(l: Life, size: nat): Option<seq<byte>>
    requires l.base <= l.uploaded <= l.base + |l.buf|
  {
    var tail := l.buf[l.uploaded - l.base..];
    if tail == [] then None
    else if |tail| >= size then Some(tail[..size])
    else if l.finished then Some(tail)
    else None
  }

  /** Is the step possible, and where does it lead? */
  ghost predicate Next(w: World, w': World, step: Step, size: nat) {
    if step.Resume? then
      && w.life.None? && IsNext(w.disk, step.next) && !JournalSignal(w.disk, step.next, w.record)
      && w' == w.(life := Some(Resumed(w, step.control, step.next)))
    else if step.Replay? then
      // on a tree signal; the guard is all the code asks of the journal
      && w.life.None? && IsNext(w.disk, step.next) && ReplayIsSafe(w.record, step.control, Total(w.disk, step.next))
      && w' == w.(life := Some(Replayed(w)))
    else
      w.life.Some? && LifeStep(w, w', w.life.value, step, size)
  }

  /** A step of the running supervisor. */
  ghost predicate LifeStep(w: World, w': World, l: Life, step: Step, size: nat) {
    match step
    case Append(data) => w' == w.(life := Some(l.(buf := l.buf + data)))
    case Finish => w' == w.(life := Some(l.(finished := true)))
    case Reserve =>
      && l.flight == Idle && l.base <= l.uploaded <= l.base + |l.buf| && Ready(l, size).Some?
      && w' == w.(life := Some(l.(flight := Reserved(Ready(l, size).value))))
    case WriteLocal =>
      l.flight.Reserved? && w' == w.(disk := w.disk[l.nextSeq := l.flight.bytes], life := Some(l.(flight := OnDisk(l.flight.bytes))))
    case WriteFails(kept) =>
      l.flight.Reserved? && w' == w.(disk := w.disk[l.nextSeq := Take(l.flight.bytes, kept)], life := Some(l.(flight := Idle)))
    case Upload =>
      l.flight.OnDisk? && w' == w.(stored := w.stored[l.nextSeq := l.flight.bytes], life := Some(l.(flight := InStore(l.flight.bytes))))
    case UploadFails(arrived) =>
      && l.flight.OnDisk?
      && w' == w.(stored := if arrived then w.stored[l.nextSeq := l.flight.bytes] else w.stored, life := Some(l.(flight := Idle)))
    case Commit =>
      && l.flight.InStore?
      && w' == w.(life := Some(l.(uploaded := l.uploaded + |l.flight.bytes|, nextSeq := l.nextSeq + 1, flight := Idle)))
    case Record(len, seq_) =>
      // the values were read from the journal at some moment of this life
      len <= l.uploaded && seq_ <= l.nextSeq && w' == w.(record := SetProgress(w.record, len, seq_))
    case Crash => w' == w.(life := None, past := w.past + [l])
    case _ => false
  }

  /** Step `i` of a run. A rollback puts the disk back to what it was in an earlier state. */
  ghost predicate Happens(run: seq<World>, i: nat, step: Step, size: nat)
    requires i + 1 < |run|
  {
    if step.Rollback? then step.to <= i && run[i].life.None? && run[i + 1] == run[i].(disk := run[step.to].disk)
    else Next(run[i], run[i + 1], step, size)
  }

  /** A run of the system: any interleaving of steps, from the start. */
  ghost predicate IsRun(run: seq<World>, steps: seq<Step>, size: nat) {
    && size > 0 && |run| == |steps| + 1 && run[0] == START
    && forall i :: 0 <= i < |steps| ==> Happens(run, i, steps[i], size)
  }

  // ---- the chain in the store -----------------------------------------------------------------

  function FlatRange(m: Segments, a: nat, b: nat): seq<byte> {
    if a >= b then [] else FlatRange(m, a, b - 1) + if b - 1 in m then m[b - 1] else []
  }

  lemma {:induction false} FlatSame(m: Segments, i: nat, s: seq<byte>, a: nat, b: nat)
    requires !(a <= i < b)
    ensures FlatRange(m[i := s], a, b) == FlatRange(m, a, b)
  {
    if a < b { FlatSame(m, i, s, a, b - 1); }
  }

  /** Everything of `before` is still there. */
  ghost predicate Untouched(before: Segments, after: Segments) {
    forall i :: i in before ==> i in after && after[i] == before[i]
  }

  /** The stored segments of this life are exactly its bytes `[base, uploaded)`, above all that
      it found in the store, which is still there as it was. */
  ghost predicate Chained(stored: Segments, l: Life) {
    && l.base <= l.uploaded <= l.base + |l.buf| && l.first <= l.nextSeq
    && (forall i :: l.first <= i < l.nextSeq ==> i in stored)
    && FlatRange(stored, l.first, l.nextSeq) == l.buf[..l.uploaded - l.base]
    && (forall i :: i in l.inherited ==> i < l.first) && Untouched(l.inherited, stored)
  }

  /** `b` is the next part of the life's bytes. */
  ghost predicate Tails(l: Life, b: seq<byte>) {
    && b != [] && l.base <= l.uploaded && l.uploaded - l.base + |b| <= |l.buf|
    && b == l.buf[l.uploaded - l.base..l.uploaded - l.base + |b|]
  }

  ghost predicate FlightStored(stored: Segments, l: Life) {
    && (l.flight.Idle? || Tails(l, l.flight.bytes))
    && (l.flight.InStore? ==> l.nextSeq in stored && stored[l.nextSeq] == l.flight.bytes)
  }

  /** The later life found there what the earlier one had found and stored. */
  ghost predicate Inherits(later: Life, earlier: Life) {
    && (forall i :: earlier.first <= i < earlier.nextSeq ==> i in later.inherited)
    && (forall i :: i in earlier.inherited ==> i in later.inherited)
  }

  ghost predicate StoreOk(w: World) {
    && (forall i :: 0 <= i < |w.past| ==> Chained(w.stored, w.past[i]))
    && (forall i, j :: 0 <= i < j < |w.past| ==> Inherits(w.past[j], w.past[i]))
    && (w.life.Some? ==>
          && Chained(w.stored, w.life.value) && FlightStored(w.stored, w.life.value)
          && forall i :: 0 <= i < |w.past| ==> Inherits(w.life.value, w.past[i]))
  }

  /** Nothing is stored at or above the ordinal a life starts at. */
  ghost predicate Fresh(stored: Segments, first: nat) {
    forall i :: i in stored ==> i < first
  }

  lemma ChainUntouched(stored: Segments, l: Life, k: nat, c: seq<byte>)
    requires Chained(stored, l) && !(l.first <= k < l.nextSeq) && k !in l.inherited
    ensures Chained(stored[k := c], l)
  {
    FlatSame(stored, k, c, l.first, l.nextSeq);
  }

  /** A life is as good as before when only its bytes grew or its flush moved on. */
  lemma ChainGrows(stored: Segments, l: Life, l': Life)
    requires Chained(stored, l) && l' == l.(buf := l'.buf, finished := l'.finished, flight := l'.flight) && l.buf <= l'.buf
    ensures Chained(stored, l')
    ensures forall b :: Tails(l, b) ==> Tails(l', b)
  {
    assert l'.buf[..l.uploaded - l.base] == l.buf[..l.uploaded - l.base];
    forall b | Tails(l, b) ensures Tails(l', b) {
      var at := l.uploaded - l.base;
      assert l'.buf[at..at + |b|] == l.buf[at..at + |b|];
    }
  }

  lemma ReadyTails(l: Life, size: nat)
    requires l.base <= l.uploaded <= l.base + |l.buf| && size > 0 && Ready(l, size).Some?
    ensures Tails(l, Ready(l, size).value)
  {
    var at := l.uploaded - l.base;
    assert l.buf[at..] == l.buf[at..at + |l.buf[at..]|];
  }

  /** What a life writes at its next ordinal leaves every earlier life's segments alone. */
  lemma PastUntouched(w: World, c: seq<byte>)
    requires StoreOk(w) && w.life.Some?
    ensures forall i :: 0 <= i < |w.past| ==> Chained(w.stored[w.life.value.nextSeq := c], w.past[i])
    ensures Chained(w.stored[w.life.value.nextSeq := c], w.life.value)
  {
    var l := w.life.value;
    forall i | 0 <= i < |w.past| ensures Chained(w.stored[l.nextSeq := c], w.past[i]) {
      assert Inherits(l, w.past[i]);
      ChainUntouched(w.stored, w.past[i], l.nextSeq, c);
    }
    ChainUntouched(w.stored, l, l.nextSeq, c);
  }

  /** The life as it is, with its flush elsewhere or its bytes longer, on the store given. */
  lemma LifeMoves(w: World, w': World, l: Life, l': Life, c: seq<byte>)
    requires StoreOk(w) && w.life == Some(l) && w'.life == Some(l') && w'.past == w.past
    requires l' == l.(buf := l'.buf, finished := l'.finished, flight := l'.flight) && l.buf <= l'.buf
    requires w'.stored == w.stored || w'.stored == w.stored[l.nextSeq := c]
    requires FlightStored(w'.stored, l')
    ensures StoreOk(w')
  {
    hide Chained, FlightStored;
    if w'.stored != w.stored {
      PastUntouched(w, c);
    }
    ChainGrows(w'.stored, l, l');
    forall i | 0 <= i < |w'.past| ensures Inherits(l', w'.past[i]) { assert Inherits(l, w.past[i]); }
  }

  lemma MemoryStepOk(w: World, w': World, step: Step, size: nat)
    requires StoreOk(w) && size > 0 && (step.Append? || step.Finish? || step.Reserve?) && Next(w, w', step, size)
    ensures StoreOk(w')
  {
    hide Chained, Ready, StoreOk, Tails;
    var l, l' := w.life.value, w'.life.value;
    LifeOfStoreOk(w);
    if step.Reserve? { ReadyTails(l, size); }
    ChainGrows(w.stored, l, l');
    LifeMoves(w, w', l, l', []);
  }

  lemma LifeOfStoreOk(w: World)
    requires StoreOk(w) && w.life.Some?
    ensures Chained(w.stored, w.life.value) && FlightStored(w.stored, w.life.value)
  {
  }

  lemma FlushStepOk(w: World, w': World, step: Step, size: nat)
    requires StoreOk(w) && (step.WriteLocal? || step.WriteFails? || step.Upload? || step.UploadFails?) && Next(w, w', step, size)
    ensures StoreOk(w')
  {
    hide Chained, StoreOk;
    var l, l' := w.life.value, w'.life.value;
    LifeOfStoreOk(w);
    LifeMoves(w, w', l, l', if step.Upload? || step.UploadFails? then l.flight.bytes else []);
  }

  lemma CommitChain(stored: Segments, l: Life)
    requires Chained(stored, l) && l.flight.InStore? && FlightStored(stored, l)
    ensures Chained(stored, l.(uploaded := l.uploaded + |l.flight.bytes|, nextSeq := l.nextSeq + 1, flight := Idle))
  {
    var at, b := l.uploaded - l.base, l.flight.bytes;
    assert l.buf[..at + |b|] == l.buf[..at] + l.buf[at..at + |b|];
  }

  lemma CommitOk(w: World, w': World, size: nat)
    requires StoreOk(w) && Next(w, w', Step.Commit, size)
    ensures StoreOk(w')
  {
    CommitChain(w.stored, w.life.value);
    hide Chained;
    forall i | 0 <= i < |w'.past| ensures Inherits(w'.life.value, w'.past[i]) { assert Inherits(w.life.value, w.past[i]); }
  }

  lemma CrashOk(w: World, w': World, size: nat)
    requires StoreOk(w) && Next(w, w', Step.Crash, size)
    ensures StoreOk(w')
  {
    hide Chained;
    forall i | 0 <= i < |w'.past| ensures Chained(w'.stored, w'.past[i]) {
      assert Chained(w.stored, if i < |w.past| then w.past[i] else w.life.value);
    }
    forall i, j | 0 <= i < j < |w'.past| ensures Inherits(w'.past[j], w'.past[i]) {
      assert Inherits(if j < |w.past| then w.past[j] else w.life.value, w.past[i]);
    }
  }

  lemma StartOk(w: World, w': World, l: Life)
    requires StoreOk(w) && w' == w.(life := Some(l)) && Begun(w', l) && Fresh(w.stored, l.first)
    ensures StoreOk(w')
  {
    assert FlatRange(w.stored, l.first, l.first) == [] && l.buf[..0] == [];
    forall i | 0 <= i < |w.past| ensures Inherits(l, w.past[i]) { assert Chained(w.stored, w.past[i]); }
  }

  /** A life that has done nothing yet. */
  ghost predicate Begun(w: World, l: Life) {
    && w.life == Some(l) && l.buf == [] && l.uploaded == l.base && l.nextSeq == l.first
    && !l.finished && l.flight == Idle && l.inherited == w.stored
  }

  predicate Starts(step: Step) {
    step.Resume? || step.Replay?
  }

  /** Every step keeps the chain, if a life starts above all that is stored. */
  lemma StepOk(w: World, w': World, step: Step, size: nat)
    requires StoreOk(w) && size > 0 && Next(w, w', step, size)
    requires Starts(step) ==> Fresh(w.stored, w'.life.value.first)
    ensures StoreOk(w')
  {
    hide StoreOk, Fresh;
    match step {
      case Commit => CommitOk(w, w', size);
      case Crash => CrashOk(w, w', size);
      case Record(_, _) => RecordOk(w, w', step, size);
      case Resume(_, _) => StartOk(w, w', w'.life.value);
      case Replay(_, _) => StartOk(w, w', w'.life.value);
      case Append(_) => MemoryStepOk(w, w', step, size);
      case Finish => MemoryStepOk(w, w', step, size);
      case Reserve => MemoryStepOk(w, w', step, size);
      case WriteLocal => FlushStepOk(w, w', step, size);
      case WriteFails(_) => FlushStepOk(w, w', step, size);
      case Upload => FlushStepOk(w, w', step, size);
      case UploadFails(_) => FlushStepOk(w, w', step, size);
      case Rollback(_) =>
    }
  }

  lemma RecordOk(w: World, w': World, step: Step, size: nat)
    requires StoreOk(w) && step.Record? && Next(w, w', step, size)
    ensures StoreOk(w')
  {
    hide Chained, FlightStored, Inherits;
  }

  ghost predicate FreshStarts(run: seq<World>, steps: seq<Step>)
    requires |run| == |steps| + 1
  {
    forall k :: 0 <= k < |steps| && Starts(steps[k]) ==> run[k + 1].life.Some? && Fresh(run[k].stored, run[k + 1].life.value.first)
  }

  lemma {:induction false} RunsAreOk(run: seq<World>, steps: seq<Step>, size: nat, k: nat)
    requires IsRun(run, steps, size) && FreshStarts(run, steps) && k < |run|
    ensures StoreOk(run[k])
  {
    if k > 0 {
      RunsAreOk(run, steps, size, k - 1);
      assert Happens(run, k - 1, steps[k - 1], size);
      hide Next, Fresh, Chained, FlightStored, Inherits;
      if !steps[k - 1].Rollback? { StepOk(run[k - 1], run[k], steps[k - 1], size); }
    }
  }

  /** `r` is, in each of its two numbers, the greatest of what the first `k` steps recorded, and 0 if
      they recorded nothing. */
  ghost predicate Greatest(r: Progress, steps: seq<Step>, k: nat)
    requires k <= |steps|
  {
    && (forall i :: 0 <= i < k && steps[i].Record? ==> steps[i].journalLen <= r.journalLen && steps[i].nextSeq <= r.nextSeq)
    && (r.journalLen == 0 || exists i :: 0 <= i < k && steps[i].Record? && steps[i].journalLen == r.journalLen)
    && (r.nextSeq == 0 || exists i :: 0 <= i < k && steps[i].Record? && steps[i].nextSeq == r.nextSeq)
  }

  /** A record that comes late, in whatever order, never walks either number backwards. */
  lemma {:induction false} RecordIsGreatest(run: seq<World>, steps: seq<Step>, size: nat, k: nat)
    requires IsRun(run, steps, size) && k < |run|
    ensures Greatest(run[k].record, steps, k)
  {
    if k > 0 {
      RecordIsGreatest(run, steps, size, k - 1);
      var w, w', step := run[k - 1], run[k], steps[k - 1];
      assert Happens(run, k - 1, step, size);
      assert w'.record == if step.Record? then SetProgress(w.record, step.journalLen, step.nextSeq) else w.record by { hide Ready, IsNext, Total, Resumed; }
    }
  }

  /** All that the life committed is below `first`. */
  predicate EndsBelow(l: Life, first: nat) {
    l.first == l.nextSeq || l.nextSeq <= first
  }

  ghost predicate ChainHolds(w: World) {
    && (forall i :: 0 <= i < |w.past| ==> Chained(w.stored, w.past[i]))
    && (forall i, j :: 0 <= i < j < |w.past| ==> EndsBelow(w.past[i], w.past[j].first))
    && (w.life.Some? ==>
          && Chained(w.stored, w.life.value)
          && forall i :: 0 <= i < |w.past| ==> EndsBelow(w.past[i], w.life.value.first))
  }

  lemma InheritsMeansAbove(stored: Segments, later: Life, earlier: Life)
    requires Inherits(later, earlier) && Chained(stored, later) && Chained(stored, earlier)
    ensures EndsBelow(earlier, later.first)
  {
    assert earlier.first < earlier.nextSeq ==> earlier.nextSeq - 1 in later.inherited;
  }

  /** In every state of every run, whatever failed, crashed or rolled back: if each life started
      above all that was stored, each life's stored segments are exactly its bytes from its base
      to what it committed, and no life changed anything an earlier one had stored. */
  lemma SegmentChain(run: seq<World>, steps: seq<Step>, size: nat, k: nat)
    requires IsRun(run, steps, size) && FreshStarts(run, steps) && k < |run|
    ensures ChainHolds(run[k])
  {
    RunsAreOk(run, steps, size, k);
    var w := run[k];
    hide Chained, Inherits, EndsBelow;
    forall i, j | 0 <= i < j < |w.past| ensures EndsBelow(w.past[i], w.past[j].first) {
      InheritsMeansAbove(w.stored, w.past[j], w.past[i]);
    }
    if w.life.Some? {
      forall i | 0 <= i < |w.past| ensures EndsBelow(w.past[i], w.life.value.first) {
        InheritsMeansAbove(w.stored, w.life.value, w.past[i]);
      }
    }
  }

  /** A segment is only ever written where nothing an earlier life stored can be. */
  lemma UploadsAreFresh(run: seq<World>, steps: seq<Step>, size: nat, k: nat)
    requires IsRun(run, steps, size) && FreshStarts(run, steps) && k < |steps| && (steps[k].Upload? || steps[k].UploadFails?)
    ensures run[k].life.Some? && run[k].life.value.nextSeq !in run[k].life.value.inherited
    ensures Untouched(run[k].life.value.inherited, run[k + 1].stored)
  {
    RunsAreOk(run, steps, size, k);
    RunsAreOk(run, steps, size, k + 1);
    assert Happens(run, k, steps[k], size);
  }

  // ---- the journal's flush is such a run of steps ---------------------------------------------------------

  /** Steps of one life: it neither ends nor starts. */
  predicate InLife(steps: seq<Step>) {
    forall s :: s in steps ==> !s.Crash? && !s.Resume? && !s.Replay? && !s.Rollback?
  }

  ghost function Taking(size: nat): (World, World, Step) -> bool {
    (w, w', step) => Next(w, w', step, size)
  }

  /** The state a flush leaves, as the journal's contract has it. */
  function Flushed(w: World, l: Life, ready: seq<seq<byte>>, fault: Fault): World {
    var k := Committed(fault, |ready|);
    w.(disk := LocalAfter(w.disk, l.nextSeq, ready, fault),
       stored := StoredAfter(w.stored, l.nextSeq, ready, fault),
       life := Some(l.(uploaded := l.uploaded + |Flat(ready[..k])|, nextSeq := l.nextSeq + k)))
  }

  function Sooner(fault: Fault): Fault
    requires fault.NoFault? || fault.after > 0
  {
    match fault
    case NoFault => NoFault
    case WriteFails(after, kept) => Fault.WriteFails(after - 1, kept)
    case UploadFails(after, arrived) => Fault.UploadFails(after - 1, arrived)
  }

  /** The state after one more segment. */
  function OneMore(w: World, l: Life, s: seq<byte>): World {
    w.(disk := w.disk[l.nextSeq := s], stored := w.stored[l.nextSeq := s],
       life := Some(l.(uploaded := l.uploaded + |s|, nextSeq := l.nextSeq + 1)))
  }

  lemma SegmentIsSteps(w: World, l: Life, size: nat, s: seq<byte>)
    requires size > 0 && w.life == Some(l) && l.flight == Idle && l.base <= l.uploaded <= l.base + |l.buf| && Ready(l, size) == Some(s)
    ensures Leads(Taking(size), w, [Step.Reserve, Step.WriteLocal, Step.Upload, Step.Commit], OneMore(w, l, s))
  {
    hide Leads;
    var a := w.(life := Some(l.(flight := Reserved(s))));
    var b := a.(disk := w.disk[l.nextSeq := s], life := Some(l.(flight := OnDisk(s))));
    var c := b.(stored := w.stored[l.nextSeq := s], life := Some(l.(flight := InStore(s))));
    OneStep(Taking(size), w, a, Step.Reserve);
    OneStep(Taking(size), a, b, Step.WriteLocal);
    OneStep(Taking(size), b, c, Step.Upload);
    OneStep(Taking(size), c, OneMore(w, l, s), Step.Commit);
    hide *;
    LeadsOn(Taking(size), w, [Step.Reserve], a, [Step.WriteLocal], b);
    LeadsOn(Taking(size), w, [Step.Reserve] + [Step.WriteLocal], b, [Step.Upload], c);
    LeadsOn(Taking(size), w, [Step.Reserve] + [Step.WriteLocal] + [Step.Upload], c, [Step.Commit], OneMore(w, l, s));
    assert [Step.Reserve] + [Step.WriteLocal] + [Step.Upload] + [Step.Commit] == [Step.Reserve, Step.WriteLocal, Step.Upload, Step.Commit];
  }

  lemma FaultIsSteps(w: World, l: Life, size: nat, ready: seq<seq<byte>>, fault: Fault) returns (steps: seq<Step>)
    requires size > 0 && w.life == Some(l) && l.flight == Idle && l.base <= l.uploaded <= l.base + |l.buf|
    requires ready != [] && Ready(l, size) == Some(ready[0]) && FailsAt(fault, 0)
    ensures Leads(Taking(size), w, steps, Flushed(w, l, ready, fault)) && InLife(steps)
  {
    hide Leads;
    var s := ready[0];
    assert ready[..0] == [];
    var a := w.(life := Some(l.(flight := Reserved(s))));
    OneStep(Taking(size), w, a, Step.Reserve);
    if fault.WriteFails? {
      OneStep(Taking(size), a, Flushed(w, l, ready, fault), Step.WriteFails(fault.kept));
      steps := [Step.Reserve] + [Step.WriteFails(fault.kept)];
      LeadsOn(Taking(size), w, [Step.Reserve], a, [Step.WriteFails(fault.kept)], Flushed(w, l, ready, fault));
    } else {
      var b := a.(disk := w.disk[l.nextSeq := s], life := Some(l.(flight := OnDisk(s))));
      OneStep(Taking(size), a, b, Step.WriteLocal);
      OneStep(Taking(size), b, Flushed(w, l, ready, fault), Step.UploadFails(fault.arrived));
      LeadsOn(Taking(size), w, [Step.Reserve], a, [Step.WriteLocal], b);
      LeadsOn(Taking(size), w, [Step.Reserve] + [Step.WriteLocal], b, [Step.UploadFails(fault.arrived)], Flushed(w, l, ready, fault));
      steps := [Step.Reserve] + [Step.WriteLocal] + [Step.UploadFails(fault.arrived)];
    }
  }

  lemma FlushedFromNext(w: World, l: Life, ready: seq<seq<byte>>, fault: Fault)
    requires w.life == Some(l) && ready != [] && !FailsAt(fault, 0)
    ensures Flushed(w, l, ready, fault) == Flushed(OneMore(w, l, ready[0]), OneMore(w, l, ready[0]).life.value, ready[1..], Sooner(fault))
  {
    var k := Committed(fault, |ready|);
    assert ready[..k][1..] == ready[1..][..k - 1];
  }

  lemma NothingFlushed(w: World, l: Life, fault: Fault, size: nat)
    requires w.life == Some(l)
    ensures Leads(Taking(size), w, [], Flushed(w, l, [], fault))
  {
    var none: seq<seq<byte>> := [];
    assert none[..0] == [];
  }

  /** A segment can be reserved exactly when the journal's flush has one to cut, and it is the first. */
  lemma ReadyIsCut(l: Life, size: nat)
    requires size > 0 && l.base <= l.uploaded <= l.base + |l.buf|
    ensures var ready := Cut(l.buf[l.uploaded - l.base..], size, l.finished);
      Ready(l, size) == if ready == [] then None else Some(ready[0])
  {
    var tail := l.buf[l.uploaded - l.base..];
    CutStep(tail, size, l.finished, if |tail| >= size then size else if l.finished then |tail| else 0);
    hide Cut;
    assert tail[..|tail|] == tail;
  }

  /** A flush of the journal, faults and all, is a run of the steps above: what holds of
      every run of steps holds of every run of flushes. */
  lemma {:induction false} FlushIsSteps(w: World, l: Life, size: nat, fault: Fault) returns (steps: seq<Step>)
    requires size > 0 && w.life == Some(l) && l.flight == Idle && l.base <= l.uploaded <= l.base + |l.buf|
    ensures Leads(Taking(size), w, steps, Flushed(w, l, Cut(l.buf[l.uploaded - l.base..], size, l.finished), fault)) && InLife(steps)
    decreases l.base + |l.buf| - l.uploaded
  {
    hide Next, Leads, Cut, Flat, PutAll, LocalAfter, StoredAfter;
    var tail := l.buf[l.uploaded - l.base..];
    var ready := Cut(tail, size, l.finished);
    CutStep(tail, size, l.finished, if |tail| >= size then size else if l.finished then |tail| else 0);
    if ready == [] {
      steps := [];
      NothingFlushed(w, l, fault, size);
    } else if FailsAt(fault, 0) {
      assert tail[..|tail|] == tail;
      steps := FaultIsSteps(w, l, size, ready, fault);
    } else {
      var s := ready[0];
      assert tail[..|tail|] == tail;
      SegmentIsSteps(w, l, size, s);
      var l' := OneMore(w, l, s).life.value;
      assert l'.buf[l'.uploaded - l'.base..] == tail[|s|..];
      assert ready[1..] == Cut(tail[|s|..], size, l.finished);
      var rest := FlushIsSteps(OneMore(w, l, s), l', size, Sooner(fault));
      FlushedFromNext(w, l, ready, fault);
      steps := [Step.Reserve, Step.WriteLocal, Step.Upload, Step.Commit] + rest;
      LeadsOn(Taking(size), w, [Step.Reserve, Step.WriteLocal, Step.Upload, Step.Commit], OneMore(w, l, s), rest, Flushed(w, l, ready, fault));
    }
  }

  // ---- when a start is safe ---------------------------------------------------------------------

  /** Whatever this life goes on to do, what is stored now stays as it is. */
  ghost predicate NeverOverwrites(w: World, size: nat) {
    forall steps, w' :: InLife(steps) && Leads(Taking(size), w, steps, w') ==> Untouched(w.stored, w'.stored)
  }

  lemma LifeStepAbove(w: World, w': World, step: Step, size: nat, first: nat)
    requires w.life.Some? && w.life.value.nextSeq >= first && InLife([step]) && Next(w, w', step, size)
    ensures w'.life.Some? && w'.life.value.nextSeq >= first
    ensures forall i :: i < first ==> (i in w'.stored <==> i in w.stored) && (i in w.stored ==> w'.stored[i] == w.stored[i])
  {
    assert step in [step];
  }

  lemma {:induction false} LifeStaysAbove(w: World, steps: seq<Step>, w': World, size: nat, first: nat)
    requires w.life.Some? && w.life.value.nextSeq >= first && InLife(steps) && Leads(Taking(size), w, steps, w')
    ensures forall i :: i < first && i in w.stored ==> i in w'.stored && w'.stored[i] == w.stored[i]
    decreases |steps|
  {
    if steps != [] {
      var m :| Next(w, m, steps[0], size) && Leads(Taking(size), m, steps[1..], w');
      LifeStepAbove(w, m, steps[0], size, first);
      LifeStaysAbove(m, steps[1..], w', size, first);
    }
  }

  function Const(b: byte, n: nat): seq<byte> {
    seq(n, _ => b)
  }

  function Repeat(b: byte, size: nat, n: nat): seq<byte> {
    if n == 0 then [] else Const(b, size) + Repeat(b, size, n - 1)
  }

  lemma {:induction false} CutOfRepeat(b: byte, size: nat, n: nat)
    requires size > 0
    ensures var segs := Cut(Repeat(b, size, n), size, false);
      |segs| == n && forall i :: 0 <= i < n ==> segs[i] == Const(b, size)
  {
    if n > 0 {
      CutOfRepeat(b, size, n - 1);
      var tail := Repeat(b, size, n);
      assert tail[..size] == Const(b, size) && tail[size..] == Repeat(b, size, n - 1);
      assert Cut(tail, size, false) == [Const(b, size)] + Cut(Repeat(b, size, n - 1), size, false);
    }
  }

  lemma Different(old_: seq<byte>, size: nat) returns (b: byte)
    requires size > 0
    ensures Const(b, size) != old_
  {
    b := 0;
    if old_ == Const(0, size) {
      b := 1;
      assert Const(0, size)[0] == 0 && Const(1, size)[0] == 1;
    }
  }

  /** A life that starts at or below a stored ordinal and produces enough overwrites it. */
  lemma StaleStartOverwrites(w: World, l: Life, size: nat, s: nat) returns (steps: seq<Step>, w': World)
    requires size > 0 && Begun(w, l) && s in w.stored && s >= l.first
    ensures InLife(steps) && Leads(Taking(size), w, steps, w') && !Untouched(w.stored, w'.stored)
  {
    hide Flat, PutAll, Cut, Next;
    var b := Different(w.stored[s], size);
    var data := Repeat(b, size, s - l.first + 1);
    var l' := l.(buf := data);
    var a := w.(life := Some(l'));
    assert [] + data == data;
    assert Next(w, a, Step.Append(data), size) by { AppendIsStep(w, l, data, size); }
    OneStep(Taking(size), w, a, Step.Append(data));
    assert data[l'.uploaded - l'.base..] == data;
    var flush := FlushIsSteps(a, l', size, NoFault);
    CutOfRepeat(b, size, s - l.first + 1);
    var ready := Cut(data, size, false);
    w' := Flushed(a, l', ready, NoFault);
    assert ready[..|ready|] == ready;
    PutAllHolds(w.stored, l.first, ready);
    assert w'.stored[s] == ready[s - l.first];
    steps := [Step.Append(data)] + flush;
    LeadsOn(Taking(size), w, [Step.Append(data)], a, flush, w');
  }

  lemma AppendIsStep(w: World, l: Life, data: seq<byte>, size: nat)
    requires w.life == Some(l) && l.buf == []
    ensures Next(w, w.(life := Some(l.(buf := data))), Step.Append(data), size)
  {
    assert [] + data == data;
  }

  /** A life that has just started never overwrites what is stored, whatever it goes on to do,
      exactly when nothing is stored at or above the ordinal it starts at. */
  lemma StartIsSafeIff(w: World, l: Life, size: nat)
    requires size > 0 && Begun(w, l)
    ensures NeverOverwrites(w, size) <==> Fresh(w.stored, l.first)
  {
    if Fresh(w.stored, l.first) {
      forall steps, w' | InLife(steps) && Leads(Taking(size), w, steps, w') ensures Untouched(w.stored, w'.stored) {
        LifeStaysAbove(w, steps, w', size, l.first);
      }
    } else {
      var s :| s in w.stored && s >= l.first;
      var steps, w' := StaleStartOverwrites(w, l, size, s);
    }
  }

  /** A resumed life is safe exactly when every stored segment is below what is left of the disk
      copy or counted in the record: none is missing from both. */
  lemma ResumeIsSafeIff(w: World, control: nat, next: nat, size: nat)
    requires size > 0
    ensures NeverOverwrites(w.(life := Some(Resumed(w, control, next))), size) <==>
      forall i :: i in w.stored ==> i < next || i < w.record.nextSeq
  {
    StartIsSafeIff(w.(life := Some(Resumed(w, control, next))), Resumed(w, control, next), size);
  }

  /** A replayed run is safe exactly when the store holds no segment of it at all, which its
      guard does not ask. */
  lemma ReplayIsSafeIff(w: World, size: nat)
    requires size > 0
    ensures NeverOverwrites(w.(life := Some(Replayed(w))), size) <==> w.stored == map[]
  {
    StartIsSafeIff(w.(life := Some(Replayed(w))), Replayed(w), size);
    if Fresh(w.stored, 0) { assert forall i :: i !in w.stored; }
  }

  // ---- a replay that overwrites ------------------------------------------------------------------

  const SEG: Segments := map[0 := [7]]
  const AGAIN: Segments := map[0 := [8]]

  function First(): Life {
    Life(0, 0, [7], 0, 0, false, Idle, map[])
  }

  function Second(): Life {
    Life(0, 0, [8], 0, 0, false, Idle, SEG)
  }

  const REPLAYING: seq<Step> := [
    Step.Resume(0, 0), Step.Append([7]), Step.Reserve, Step.WriteLocal, Step.Upload, Step.Commit, Step.Crash,
    Step.Rollback(0), Step.Replay(0, 0), Step.Append([8]), Step.Reserve, Step.WriteLocal, Step.Upload]

  /** One segment reaches the store but neither the record nor the control plane; the disk goes
      back to the start; the guard finds no output anywhere, and the replay writes ordinal 0 again. */
  function Replaying(): seq<World> {
    var none: Segments := map[];
    var rec := Progress(0, 0);
    var up := First().(uploaded := 1, nextSeq := 1);
    [ START,
      START.(life := Some(First().(buf := []))),
      START.(life := Some(First())),
      START.(life := Some(First().(flight := Reserved([7])))),
      World(SEG, none, rec, Some(First().(flight := OnDisk([7]))), []),
      World(SEG, SEG, rec, Some(First().(flight := InStore([7]))), []),
      World(SEG, SEG, rec, Some(up), []),
      World(SEG, SEG, rec, None, [up]),
      World(none, SEG, rec, None, [up]),
      World(none, SEG, rec, Some(Second().(buf := [])), [up]),
      World(none, SEG, rec, Some(Second()), [up]),
      World(none, SEG, rec, Some(Second().(flight := Reserved([8]))), [up]),
      World(AGAIN, SEG, rec, Some(Second().(flight := OnDisk([8]))), [up]),
      World(AGAIN, AGAIN, rec, Some(Second().(flight := InStore([8]))), [up]) ]
  }

  lemma ReplayingFacts()
    ensures var none: Segments := map[]; IsNext(none, 0) && Total(none, 0) == 0 && none[0 := [7]] == SEG && none[0 := [8]] == AGAIN
    ensures SEG[0 := [8]] == AGAIN && [] + [7] == [7] && [] + [8] == [8]
    ensures Ready(First(), 1) == Some([7]) && Ready(Second(), 1) == Some([8])
  {
    assert [7][0..] == [7] && [7][..1] == [7] && [8][0..] == [8] && [8][..1] == [8];
  }

  lemma ReplayingLow(i: nat)
    requires i < 4
    ensures Happens(Replaying(), i, REPLAYING[i], 1)
  {
    ReplayingFacts();
    hide Ready, IsNext, Total;
  }

  lemma ReplayingMid(i: nat)
    requires 4 <= i < 8
    ensures Happens(Replaying(), i, REPLAYING[i], 1)
  {
    ReplayingFacts();
    hide Ready, IsNext, Total;
  }

  lemma ReplayingLate(i: nat)
    requires 8 <= i < |REPLAYING|
    ensures Happens(Replaying(), i, REPLAYING[i], 1)
  {
    ReplayingFacts();
    hide Ready, IsNext, Total;
  }

  /** So the guard lets through a replay that destroys a segment an earlier life committed. */
  lemma ReplayCanOverwrite()
    ensures IsRun(Replaying(), REPLAYING, 1)
    ensures var w := Replaying()[8];
      ReplayIsSafe(w.record, 0, Total(w.disk, 0)) && IsNext(w.disk, 0) && w.past[0].first < w.past[0].nextSeq
    ensures !Untouched(Replaying()[8].stored, Replaying()[13].stored)
  {
    forall i | 0 <= i < |REPLAYING| ensures Happens(Replaying(), i, REPLAYING[i], 1) {
      if i < 4 { ReplayingLow(i); } else if i < 8 { ReplayingMid(i); } else { ReplayingLate(i); }
    }
    assert SEG[0] != AGAIN[0];
  }

  /** A resume on the same disk takes the same start, so a rollback that the signals miss ends alike. */
  lemma ResumeCanOverwrite()
    ensures IsRun(Replaying(), REPLAYING[8 := Step.Resume(0, 0)], 1)
    ensures !JournalSignal(Replaying()[8].disk, 0, Replaying()[8].record)
  {
    ReplayCanOverwrite();
    ReplayingFacts();
    var steps := REPLAYING[8 := Step.Resume(0, 0)];
    forall i | 0 <= i < |steps| ensures Happens(Replaying(), i, steps[i], 1) {
      if i == 8 { ResumingIsStep(); } else { assert Happens(Replaying(), i, REPLAYING[i], 1); }
    }
  }

  lemma ResumingIsStep()
    ensures Happens(Replaying(), 8, Step.Resume(0, 0), 1)
  {
    ReplayingFacts();
    hide Total, IsNext, Ready;
  }
}
