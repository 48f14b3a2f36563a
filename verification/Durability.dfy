/** What a disk that nobody puts back attests to: record, store and disk stay in order, every life
    starts above all that is stored, and how far the journal signal tells a rolled-back disk from
    a healthy one (crates/marid/src/continuation.rs, state.rs, run.rs). */
module Durability {
  import opened Basics
  import opened Journals
  import opened Runs
  import opened Lives

  /** No rollback, and so no replay. */
  predicate DiskKept(steps: seq<Step>) {
    forall s :: s in steps ==> !s.Rollback? && !s.Replay?
  }

  // ---- what every step keeps --------------------------------------------------------------------

  ghost predicate Dense(disk: Segments, n: nat) {
    forall i: nat :: i in disk <==> i < n
  }

  /** Committed segments are on the disk with the same bytes, and none of them is empty. */
  ghost predicate Mirrored(disk: Segments, stored: Segments, l: Life) {
    forall i :: l.first <= i < l.nextSeq ==> i in disk && i in stored && disk[i] == stored[i] && disk[i] != []
  }

  ghost predicate FlightOnDisk(disk: Segments, l: Life) {
    l.flight.OnDisk? || l.flight.InStore? ==> l.nextSeq in disk && disk[l.nextSeq] == l.flight.bytes
  }

  /** `n` files on the disk, numbered from 0, and nothing stored or recorded beyond them. */
  ghost predicate DiskOk(w: World, n: nat) {
    && Dense(w.disk, n) && w.record.nextSeq <= n && Fresh(w.stored, n)
    && (forall i :: 0 <= i < |w.past| ==> Mirrored(w.disk, w.stored, w.past[i]))
    && (w.life.Some? ==>
          var l := w.life.value;
          && Mirrored(w.disk, w.stored, l) && FlightOnDisk(w.disk, l)
          && w.record.nextSeq <= l.nextSeq && (n == l.nextSeq || n == l.nextSeq + 1))
  }

  ghost predicate SoundAt(w: World, n: nat) {
    StoreOk(w) && DiskOk(w, n)
  }

  lemma {:induction false} TotalSame(disk: Segments, i: nat, b: seq<byte>, n: nat)
    requires n <= i
    ensures Total(disk[i := b], n) == Total(disk, n)
  {
    if n > 0 { TotalSame(disk, i, b, n - 1); }
  }

  /** What the life writes at its next ordinal is outside every life's segments. */
  lemma OthersMirrored(w: World, w': World, b: seq<byte>)
    requires StoreOk(w) && w.life.Some? && w'.past == w.past
    requires w'.disk == w.disk || w'.disk == w.disk[w.life.value.nextSeq := b]
    requires w'.stored == w.stored || w'.stored == w.stored[w.life.value.nextSeq := b]
    requires forall i :: 0 <= i < |w.past| ==> Mirrored(w.disk, w.stored, w.past[i])
    requires Mirrored(w.disk, w.stored, w.life.value)
    ensures forall i :: 0 <= i < |w.past| ==> Mirrored(w'.disk, w'.stored, w'.past[i])
    ensures Mirrored(w'.disk, w'.stored, w.life.value)
  {
    hide FlightStored;
    forall i | 0 <= i < |w.past| ensures Mirrored(w'.disk, w'.stored, w.past[i]) {
      var l, p := w.life.value, w.past[i];
      assert Inherits(l, p) && Mirrored(w.disk, w.stored, p) && Chained(w.stored, l);
      assert p.first <= l.nextSeq < p.nextSeq ==> l.nextSeq in l.inherited;
    }
  }

  lemma WriteKeeps(w: World, w': World, step: Step, size: nat, n: nat)
    requires SoundAt(w, n) && (step.WriteLocal? || step.WriteFails?) && Next(w, w', step, size)
    ensures DiskOk(w', w.life.value.nextSeq + 1)
  {
    hide StoreOk, Mirrored;
    OthersMirrored(w, w', w'.disk[w.life.value.nextSeq]);
    MirroredLife(w'.disk, w'.stored, w.life.value, w'.life.value);
  }

  lemma MirroredLife(disk: Segments, stored: Segments, l: Life, l': Life)
    requires Mirrored(disk, stored, l) && l'.first == l.first && l'.nextSeq == l.nextSeq
    ensures Mirrored(disk, stored, l')
  {
  }

  lemma UploadKeeps(w: World, w': World, step: Step, size: nat, n: nat)
    requires SoundAt(w, n) && (step.Upload? || step.UploadFails?) && Next(w, w', step, size)
    ensures DiskOk(w', n)
  {
    hide StoreOk, Mirrored;
    OthersMirrored(w, w', w.life.value.flight.bytes);
    MirroredLife(w'.disk, w'.stored, w.life.value, w'.life.value);
  }

  lemma MemoryKeeps(w: World, w': World, step: Step, size: nat, n: nat)
    requires SoundAt(w, n) && (step.Append? || step.Finish? || step.Reserve? || step.Record?) && Next(w, w', step, size)
    ensures DiskOk(w', n)
  {
    hide StoreOk, Mirrored, Ready;
    MirroredLife(w'.disk, w'.stored, w.life.value, w'.life.value);
  }

  /** The segment just committed is on the disk and in the store with the same bytes. */
  lemma MirroredCommit(disk: Segments, stored: Segments, l: Life)
    requires Mirrored(disk, stored, l) && l.flight.InStore? && FlightOnDisk(disk, l) && FlightStored(stored, l)
    ensures Mirrored(disk, stored, l.(uploaded := l.uploaded + |l.flight.bytes|, nextSeq := l.nextSeq + 1, flight := Idle))
  {
  }

  lemma CommitKeeps(w: World, w': World, size: nat, n: nat)
    requires SoundAt(w, n) && Next(w, w', Step.Commit, size)
    ensures DiskOk(w', n)
  {
    LifeOfStoreOk(w);
    hide StoreOk, Chained, FlightStored, Mirrored;
    MirroredCommit(w.disk, w.stored, w.life.value);
  }

  lemma CrashKeeps(w: World, w': World, size: nat, n: nat)
    requires SoundAt(w, n) && Next(w, w', Step.Crash, size)
    ensures DiskOk(w', n)
  {
    hide StoreOk, Mirrored;
    forall i | 0 <= i < |w'.past| ensures Mirrored(w'.disk, w'.stored, w'.past[i]) {
      assert Mirrored(w.disk, w.stored, if i < |w.past| then w.past[i] else w.life.value);
    }
  }

  lemma ResumeKeeps(w: World, w': World, step: Step, size: nat, n: nat)
    requires SoundAt(w, n) && step.Resume? && Next(w, w', step, size)
    ensures step.next == n == w'.life.value.first && DiskOk(w', n)
  {
    hide StoreOk;
    assert step.next == n;
  }

  /** Every step on a disk that is kept. */
  lemma StepSound(w: World, w': World, step: Step, size: nat, n: nat) returns (n': nat)
    requires SoundAt(w, n) && size > 0 && DiskKept([step]) && Next(w, w', step, size)
    ensures SoundAt(w', n')
    ensures step.Resume? ==> Fresh(w.stored, w'.life.value.first)
  {
    assert step in [step];
    hide StoreOk, DiskOk, Next;
    n' := n;
    match step {
      case WriteLocal => n' := w.life.value.nextSeq + 1; WriteKeeps(w, w', step, size, n);
      case WriteFails(_) => n' := w.life.value.nextSeq + 1; WriteKeeps(w, w', step, size, n);
      case Upload => UploadKeeps(w, w', step, size, n);
      case UploadFails(_) => UploadKeeps(w, w', step, size, n);
      case Commit => CommitKeeps(w, w', size, n);
      case Crash => CrashKeeps(w, w', size, n);
      case Resume(_, _) => ResumeKeeps(w, w', step, size, n); FreshAt(w, n);
      case Append(_) => MemoryKeeps(w, w', step, size, n);
      case Finish => MemoryKeeps(w, w', step, size, n);
      case Reserve => MemoryKeeps(w, w', step, size, n);
      case Record(_, _) => MemoryKeeps(w, w', step, size, n);
    }
    StepOk(w, w', step, size);
  }

  lemma FreshAt(w: World, n: nat)
    requires DiskOk(w, n)
    ensures Fresh(w.stored, n)
  {
  }

  lemma KeptStep(run: seq<World>, steps: seq<Step>, size: nat, k: nat)
    requires IsRun(run, steps, size) && DiskKept(steps) && k < |steps|
    ensures Next(run[k], run[k + 1], steps[k], size) && DiskKept([steps[k]])
  {
    assert Happens(run, k, steps[k], size) && steps[k] in steps;
  }

  /** In every state of every run on a disk that is kept, with whatever failed and crashed. */
  lemma {:induction false} RunsAreSound(run: seq<World>, steps: seq<Step>, size: nat, k: nat) returns (n: nat)
    requires IsRun(run, steps, size) && DiskKept(steps) && k < |run|
    ensures SoundAt(run[k], n)
    ensures k > 0 && steps[k - 1].Resume? ==> run[k].life.Some? && Fresh(run[k - 1].stored, run[k].life.value.first)
  {
    if k == 0 { return 0; }
    hide SoundAt, Fresh;
    var m := RunsAreSound(run, steps, size, k - 1);
    KeptStep(run, steps, size, k - 1);
    n := StepSound(run[k - 1], run[k], steps[k - 1], size, m);
  }

  /** On a disk that is kept every life starts above all that is stored: each life's stored
      segments are exactly its bytes, and nothing an earlier life stored is ever changed. */
  lemma KeptDiskStartsFresh(run: seq<World>, steps: seq<Step>, size: nat)
    requires IsRun(run, steps, size) && DiskKept(steps)
    ensures FreshStarts(run, steps)
  {
    hide Fresh;
    forall k | 0 <= k < |steps| && Starts(steps[k])
      ensures run[k + 1].life.Some? && Fresh(run[k].stored, run[k + 1].life.value.first)
    {
      assert steps[k] in steps;
      var n := RunsAreSound(run, steps, size, k + 1);
    }
  }

  // ---- durability order ------------------------------------------------------------------------------

  /** The offsets of a life run alongside the bytes of its files. */
  ghost predicate InStep(w: World) {
    w.life.Some? ==>
      var l := w.life.value;
      && l.uploaded + Total(w.disk, l.first) == l.base + Total(w.disk, l.nextSeq)
      && w.record.journalLen <= l.uploaded
  }

  lemma LifeStepInStep(w: World, w': World, step: Step, size: nat, n: nat)
    requires SoundAt(w, n) && w.life.Some? && Next(w, w', step, size) && InStep(w)
    ensures InStep(w')
  {
    LifeOfStoreOk(w);
    var l := w.life.value;
    if step.WriteLocal? || step.WriteFails? {
      TotalSame(w.disk, l.nextSeq, w'.disk[l.nextSeq], l.nextSeq);
      TotalSame(w.disk, l.nextSeq, w'.disk[l.nextSeq], l.first);
    }
    hide StoreOk, Ready;
  }

  lemma StepInStep(w: World, w': World, step: Step, size: nat, n: nat)
    requires SoundAt(w, n) && size > 0 && DiskKept([step]) && Next(w, w', step, size) && InStep(w)
    ensures InStep(w')
  {
    assert step in [step];
    if step.Resume? {
      ResumeKeeps(w, w', step, size, n);
    } else {
      hide SoundAt, InStep;
      LifeStepInStep(w, w', step, size, n);
    }
  }

  lemma {:induction false} RunsAreInStep(run: seq<World>, steps: seq<Step>, size: nat, k: nat)
    requires IsRun(run, steps, size) && DiskKept(steps) && k < |run|
    ensures InStep(run[k])
  {
    if k > 0 {
      RunsAreInStep(run, steps, size, k - 1);
      hide SoundAt, InStep;
      var n := RunsAreSound(run, steps, size, k - 1);
      KeptStep(run, steps, size, k - 1);
      StepInStep(run[k - 1], run[k], steps[k - 1], size, n);
    }
  }

  /** Every life took its base from the disk: no other copy attested to more. */
  ghost predicate DiskBased(run: seq<World>, steps: seq<Step>)
    requires |run| == |steps| + 1
  {
    forall k :: 0 <= k < |steps| && steps[k].Resume? ==> steps[k].control <= Total(run[k].disk, steps[k].next)
  }

  /** record <= uploaded <= what the disk attests to */
  ghost predicate Durable(w: World, n: nat) {
    && w.record.journalLen <= Total(w.disk, n)
    && (w.life.Some? ==>
          var l := w.life.value;
          w.record.journalLen <= l.uploaded == Total(w.disk, l.nextSeq) <= Total(w.disk, n))
  }

  lemma {:induction false} TotalGrows(disk: Segments, a: nat, b: nat)
    requires a <= b
    ensures Total(disk, a) <= Total(disk, b)
    decreases b - a
  {
    if a < b { TotalGrows(disk, a, b - 1); }
  }

  lemma CommitTotal(w: World, l: Life)
    requires FlightOnDisk(w.disk, l) && l.flight.InStore?
    ensures Total(w.disk, l.nextSeq + 1) == Total(w.disk, l.nextSeq) + |l.flight.bytes|
  {
  }

  lemma StepDurable(w: World, w': World, step: Step, size: nat, m: nat, n: nat)
    requires SoundAt(w, m) && Durable(w, m) && InStep(w) && size > 0 && DiskKept([step]) && Next(w, w', step, size)
    requires SoundAt(w', n) && InStep(w')
    requires step.Resume? ==> step.control <= Total(w.disk, step.next)
    ensures Durable(w', n)
  {
    assert step in [step];
    hide StoreOk, Mirrored, Ready;
    if step.Resume? {
      ResumeKeeps(w, w', step, size, m);
      TotalGrows(w'.disk, w'.life.value.nextSeq, n);
    } else if w'.life.Some? {
      var l, l' := w.life.value, w'.life.value;
      if step.WriteLocal? || step.WriteFails? {
        TotalSame(w.disk, l.nextSeq, w'.disk[l.nextSeq], l.nextSeq);
      } else if step.Commit? {
        CommitTotal(w, l);
      }
      TotalGrows(w'.disk, l'.nextSeq, n);
    } else {
      assert m !in w.disk && n !in w.disk;
    }
  }

  lemma OnlyNext(w: World, m: nat, n: nat)
    requires SoundAt(w, m) && IsNext(w.disk, n)
    ensures m == n
  {
    assert m !in w.disk;
  }

  lemma StartDurable(n: nat)
    ensures Durable(START, n)
  {
  }

  lemma {:induction false} RunsAreDurable(run: seq<World>, steps: seq<Step>, size: nat, k: nat, n: nat)
    requires IsRun(run, steps, size) && DiskKept(steps) && DiskBased(run, steps) && k < |run| && SoundAt(run[k], n)
    ensures Durable(run[k], n)
    decreases k
  {
    hide SoundAt, InStep, Durable, Next;
    if k > 0 {
      RunsAreInStep(run, steps, size, k);
      RunsAreInStep(run, steps, size, k - 1);
      var m := RunsAreSound(run, steps, size, k - 1);
      RunsAreDurable(run, steps, size, k - 1, m);
      KeptStep(run, steps, size, k - 1);
      StepDurable(run[k - 1], run[k], steps[k - 1], size, m, n);
    } else {
      StartDurable(n);
    }
  }

  /** In every state the record is at most what the store confirmed, and that is what the disk holds
      below the next segment. */
  lemma DurabilityOrder(run: seq<World>, steps: seq<Step>, size: nat, k: nat, n: nat)
    requires IsRun(run, steps, size) && DiskKept(steps) && DiskBased(run, steps) && k < |run| && IsNext(run[k].disk, n)
    ensures Durable(run[k], n)
  {
    hide SoundAt, Durable;
    var m := RunsAreSound(run, steps, size, k);
    OnlyNext(run[k], m, n);
    RunsAreDurable(run, steps, size, k, n);
  }

  /** While every base came from the disk, a restart on it never looks like a rollback. */
  lemma HealthyRestartIsNoRollback(run: seq<World>, steps: seq<Step>, size: nat, k: nat, n: nat)
    requires IsRun(run, steps, size) && DiskKept(steps) && DiskBased(run, steps) && k < |run| && IsNext(run[k].disk, n)
    ensures !JournalSignal(run[k].disk, n, run[k].record)
  {
    DurabilityOrder(run, steps, size, k, n);
  }

  // ---- which rollbacks are seen ------------------------------------------------------------------------

  /** Ordinals below this are never written again: what a life has committed, or all that
      stands on the disk between lives. */
  function Settled(w: World, n: nat): nat {
    if w.life.Some? then w.life.value.nextSeq else n
  }

  lemma SettledStep(w: World, w': World, step: Step, size: nat, n: nat, n': nat)
    requires SoundAt(w, n) && SoundAt(w', n') && size > 0 && DiskKept([step]) && Next(w, w', step, size)
    ensures Settled(w, n) <= Settled(w', n')
    ensures forall i: nat :: i < Settled(w, n) ==> SizeAt(w'.disk, i) == SizeAt(w.disk, i)
  {
    assert step in [step];
    hide StoreOk, Mirrored, Ready;
    if step.Resume? { ResumeKeeps(w, w', step, size, n); }
    if step.Crash? { assert n' !in w'.disk && n !in w.disk; }
  }

  lemma {:induction false} SettledStays(run: seq<World>, steps: seq<Step>, size: nat, j: nat, k: nat, m: nat, n: nat)
    requires IsRun(run, steps, size) && DiskKept(steps) && j <= k < |run| && SoundAt(run[j], m) && SoundAt(run[k], n)
    ensures Settled(run[j], m) <= Settled(run[k], n)
    ensures forall i: nat :: i < Settled(run[j], m) ==> SizeAt(run[k].disk, i) == SizeAt(run[j].disk, i)
    decreases k
  {
    hide SizeAt, Next;
    if j == k {
      assert m !in run[k].disk && n !in run[k].disk;
    } else {
      hide SoundAt, Settled;
      var p := RunsAreSound(run, steps, size, k - 1);
      SettledStays(run, steps, size, j, k - 1, m, p);
      KeptStep(run, steps, size, k - 1);
      SettledStep(run[k - 1], run[k], steps[k - 1], size, p, n);
    }
  }

  lemma {:induction false} SameTotal(a: Segments, b: Segments, n: nat)
    requires forall i: nat :: i < n ==> SizeAt(a, i) == SizeAt(b, i)
    ensures Total(a, n) == Total(b, n)
  {
    if n > 0 { SameTotal(a, b, n - 1); }
  }

  /** The disk goes back from state `k` to what it was at `j`: the signal fires exactly when the
      record at `k` is more than what was settled at `j` together with the file then unsettled. */
  lemma RollbackSeenExactly(run: seq<World>, steps: seq<Step>, size: nat, j: nat, k: nat, n: nat)
    requires IsRun(run, steps, size) && DiskKept(steps) && j <= k < |run| && IsNext(run[j].disk, n)
    ensures JournalSignal(run[j].disk, n, run[k].record) <==>
      run[k].record.journalLen > Total(run[k].disk, Settled(run[j], n)) + SizeAt(run[j].disk, Settled(run[j], n))
  {
    var m := RunsAreSound(run, steps, size, j);
    var m' := RunsAreSound(run, steps, size, k);
    OnlyNext(run[j], m, n);
    SettledStays(run, steps, size, j, k, n, m');
    SameTotal(run[k].disk, run[j].disk, Settled(run[j], n));
    hide StoreOk, Mirrored;
  }

  /** Some segment is gone of which the record counts bytes as durable. */
  ghost predicate LosesRecorded(before: World, disk: Segments) {
    exists i :: i in before.disk && i !in disk && Total(before.disk, i) < before.record.journalLen
  }

  /** A rollback to a state with no file in the making is seen exactly when it loses a segment
      that the record counts: one that loses only unrecorded segments goes unnoticed. */
  lemma RollbackSeenIff(run: seq<World>, steps: seq<Step>, size: nat, j: nat, k: nat, n: nat)
    requires IsRun(run, steps, size) && DiskKept(steps) && DiskBased(run, steps) && j <= k < |run|
    requires IsNext(run[j].disk, n) && Settled(run[j], n) == n
    ensures JournalSignal(run[j].disk, n, run[k].record) <==> LosesRecorded(run[k], run[j].disk)
  {
    RollbackSeenExactly(run, steps, size, j, k, n);
    var w := run[k];
    if w.record.journalLen > Total(w.disk, n) {
      var m := RunsAreSound(run, steps, size, k);
      RunsAreDurable(run, steps, size, k, m);
      if m <= n { TotalGrows(w.disk, m, n); }
      hide StoreOk, Mirrored;
      assert n in w.disk && n !in run[j].disk;
    } else {
      forall i: nat | i in w.disk && i !in run[j].disk ensures Total(w.disk, i) >= w.record.journalLen {
        TotalGrows(w.disk, n, i);
      }
    }
  }

  // ---- when a resume can raise a false alarm ------------------------------------------------------------

  /** Nothing this life goes on to do makes a restart on the same disk look like a rollback. */
  ghost predicate NeverAlarms(w: World, size: nat) {
    forall steps, w', n: nat :: InLife(steps) && Leads(Taking(size), w, steps, w') && IsNext(w'.disk, n) ==>
      !JournalSignal(w'.disk, n, w'.record)
  }

  lemma {:induction false} LifeIsDurable(w: World, steps: seq<Step>, w': World, size: nat, m: nat, n: nat)
    requires size > 0 && SoundAt(w, m) && InStep(w) && Durable(w, m) && InLife(steps) && Leads(Taking(size), w, steps, w') && IsNext(w'.disk, n)
    ensures Durable(w', n)
    decreases |steps|
  {
    hide SoundAt, InStep, Durable, Next, IsNext;
    if steps == [] {
      OnlyNext(w, m, n);
    } else {
      var x :| Next(w, x, steps[0], size) && Leads(Taking(size), x, steps[1..], w');
      assert DiskKept([steps[0]]) && !steps[0].Resume?;
      var p := StepSound(w, x, steps[0], size, m);
      StepInStep(w, x, steps[0], size, m);
      StepDurable(w, x, steps[0], size, m, p);
      LifeIsDurable(x, steps[1..], w', size, p, n);
    }
  }

  lemma ResumedIsDurable(w: World, w': World, step: Step, size: nat, n: nat)
    requires SoundAt(w, n) && step.Resume? && Next(w, w', step, size) && step.control <= Total(w.disk, step.next)
    ensures Durable(w', n)
  {
    ResumeKeeps(w, w', step, size, n);
  }

  /** Recording the base is all it takes. */
  lemma BaseAboveDiskAlarms(w: World, size: nat, n: nat)
    requires w.life.Some? && w.life.value.base <= w.life.value.uploaded && w.life.value.base > Total(w.disk, n) && IsNext(w.disk, n)
    ensures !NeverAlarms(w, size)
  {
    var l := w.life.value;
    var step := Step.Record(l.base, l.nextSeq);
    var w' := w.(record := SetProgress(w.record, l.base, l.nextSeq));
    OneStep(Taking(size), w, w', step);
    assert InLife([step]);
    assert JournalSignal(w'.disk, n, w'.record);
  }

  /** A resumed life can never raise a false alarm exactly when the control plane held no more
      of the journal than the disk did. */
  lemma ResumeNeverAlarmsIff(run: seq<World>, steps: seq<Step>, size: nat, k: nat)
    requires IsRun(run, steps, size) && DiskKept(steps) && k < |steps| && steps[k].Resume?
    ensures NeverAlarms(run[k + 1], size) <==> steps[k].control <= Total(run[k].disk, steps[k].next)
  {
    KeptStep(run, steps, size, k);
    var n := RunsAreSound(run, steps, size, k);
    ResumeKeeps(run[k], run[k + 1], steps[k], size, n);
    var w := run[k + 1];
    if steps[k].control <= Total(run[k].disk, steps[k].next) {
      var m := StepSound(run[k], w, steps[k], size, n);
      hide SoundAt;
      RunsAreInStep(run, steps, size, k + 1);
      assert IsNext(w.disk, n);
      OnlyNext(w, m, n);
      ResumedIsDurable(run[k], w, steps[k], size, n);
      forall steps', w', n': nat | InLife(steps') && Leads(Taking(size), w, steps', w') && IsNext(w'.disk, n')
        ensures !JournalSignal(w'.disk, n', w'.record)
      {
        LifeIsDurable(w, steps', w', size, n, n');
      }
    } else {
      hide SoundAt;
      BaseAboveDiskAlarms(w, size, n);
    }
  }

  /** In any run: once a life has recorded everything it uploaded and is not in the middle of a
      write, a restart looks like a rollback exactly when the life's base was above what the
      disk held when it began. */
  lemma SignalIffBaseAboveDisk(run: seq<World>, steps: seq<Step>, size: nat, k: nat, n: nat)
    requires IsRun(run, steps, size) && DiskKept(steps) && k < |run| && IsNext(run[k].disk, n) && run[k].life.Some?
    requires run[k].record.journalLen == run[k].life.value.uploaded && n == run[k].life.value.nextSeq
    ensures JournalSignal(run[k].disk, n, run[k].record) <==> run[k].life.value.base > Total(run[k].disk, run[k].life.value.first)
  {
    RunsAreInStep(run, steps, size, k);
  }

  /** On a disk that is kept, replay is allowed only to a run none of whose lives ever committed
      a segment. */
  lemma ReplayRepeatsNothing(run: seq<World>, steps: seq<Step>, size: nat, k: nat, n: nat, control: nat)
    requires IsRun(run, steps, size) && DiskKept(steps) && k < |run| && run[k].life.None? && IsNext(run[k].disk, n)
    requires ReplayIsSafe(run[k].record, control, Total(run[k].disk, n))
    ensures forall p :: p in run[k].past ==> p.nextSeq == p.first && p.uploaded == p.base
  {
    var w := run[k];
    var m := RunsAreSound(run, steps, size, k);
    forall p | p in w.past ensures p.nextSeq == p.first && p.uploaded == p.base {
      var j :| 0 <= j < |w.past| && w.past[j] == p;
      assert Chained(w.stored, p) && Mirrored(w.disk, w.stored, p);
      if p.first < p.nextSeq {
        assert w.disk[p.first] != [];
        TotalGrows(w.disk, p.first + 1, n);
      }
    }
  }

  // ---- what the signal gets wrong ------------------------------------------------------------------------

  const NONE: Segments := map[]

  function Ahead(): Life {
    Life(1, 0, [8], 1, 0, true, Idle, NONE)
  }

  const ALARMING: seq<Step> := [
    Step.Resume(0, 0), Step.Append([7]), Step.Crash, Step.Resume(1, 0), Step.Append([8]), Step.Finish,
    Step.Reserve, Step.WriteLocal, Step.Upload, Step.Commit, Step.Record(2, 1), Step.Crash]

  /** One byte reaches the control plane but no segment, so the next life starts above its disk;
      once it has recorded a byte of its own the disk counts one byte less than the record. */
  function Alarming(): seq<World> {
    var first, rec := Life(0, 0, [7], 0, 0, false, Idle, NONE), Progress(0, 0);
    var kept: Segments := map[0 := [8]];
    var up := Ahead().(uploaded := 2, nextSeq := 1);
    [ START,
      START.(life := Some(first.(buf := []))),
      START.(life := Some(first)),
      START.(past := [first]),
      World(NONE, NONE, rec, Some(Ahead().(buf := [], finished := false)), [first]),
      World(NONE, NONE, rec, Some(Ahead().(finished := false)), [first]),
      World(NONE, NONE, rec, Some(Ahead()), [first]),
      World(NONE, NONE, rec, Some(Ahead().(flight := Reserved([8]))), [first]),
      World(kept, NONE, rec, Some(Ahead().(flight := OnDisk([8]))), [first]),
      World(kept, kept, rec, Some(Ahead().(flight := InStore([8]))), [first]),
      World(kept, kept, rec, Some(up), [first]),
      World(kept, kept, Progress(2, 1), Some(up), [first]),
      World(kept, kept, Progress(2, 1), None, [first, up]) ]
  }

  lemma AlarmingFacts()
    ensures IsNext(NONE, 0) && Total(NONE, 0) == 0 && NONE[0 := [8]] == map[0 := [8]]
    ensures [] + [7] == [7] && [] + [8] == [8] && Ready(Ahead(), 4) == Some([8])
  {
    assert [8][0..] == [8];
  }

  lemma AlarmingEarly(i: nat)
    requires i < 6
    ensures Happens(Alarming(), i, ALARMING[i], 4)
  {
    AlarmingFacts();
    hide Ready, IsNext, Total;
  }

  lemma AlarmingLate(i: nat)
    requires 6 <= i < |ALARMING|
    ensures Happens(Alarming(), i, ALARMING[i], 4)
  {
    AlarmingFacts();
    hide Ready, IsNext, Total;
  }

  /** A restart on a disk that lost nothing can look like a rollback. */
  lemma HealthyRestartCanLookLikeRollback()
    ensures IsRun(Alarming(), ALARMING, 4) && DiskKept(ALARMING)
    ensures var w := Alarming()[12]; w.life.None? && IsNext(w.disk, 1) && JournalSignal(w.disk, 1, w.record)
  {
    forall i | 0 <= i < |ALARMING| ensures Happens(Alarming(), i, ALARMING[i], 4) {
      if i < 6 { AlarmingEarly(i); } else { AlarmingLate(i); }
    }
  }

  const WHOLE: Segments := map[0 := [1, 2, 3]]
  const TORN: Segments := map[0 := []]
  const RETRIED: Segments := map[0 := [], 1 := [9]]
  const LATER: Segments := map[1 := [9]]

  function Writing(): Life {
    Life(0, 0, [1, 2, 3], 0, 0, true, Idle, NONE)
  }

  function Following(): Life {
    Life(0, 1, [9], 0, 1, true, Idle, NONE)
  }

  const RETRYING: seq<Step> := [
    Step.Resume(0, 0), Step.Append([1, 2, 3]), Step.Finish, Step.Reserve, Step.WriteLocal, Step.UploadFails(false),
    Step.Reserve, Step.WriteFails(0), Step.Crash, Step.Resume(0, 1), Step.Append([9]), Step.Finish,
    Step.Reserve, Step.WriteLocal, Step.Upload, Step.Commit, Step.Record(1, 2), Step.Crash]

  /** A whole segment is on the disk at state 5, its upload fails, and the retry tears the file;
      the next life goes on behind it and records its own first byte. */
  function Retrying(): seq<World> {
    var rec := Progress(0, 0);
    var up := Following().(uploaded := 1, nextSeq := 2);
    [ START,
      START.(life := Some(Writing().(buf := [], finished := false))),
      START.(life := Some(Writing().(finished := false))),
      START.(life := Some(Writing())),
      START.(life := Some(Writing().(flight := Reserved([1, 2, 3])))),
      World(WHOLE, NONE, rec, Some(Writing().(flight := OnDisk([1, 2, 3]))), []),
      World(WHOLE, NONE, rec, Some(Writing()), []),
      World(WHOLE, NONE, rec, Some(Writing().(flight := Reserved([1, 2, 3]))), []),
      World(TORN, NONE, rec, Some(Writing()), []),
      World(TORN, NONE, rec, None, [Writing()]),
      World(TORN, NONE, rec, Some(Following().(buf := [], finished := false)), [Writing()]),
      World(TORN, NONE, rec, Some(Following().(finished := false)), [Writing()]),
      World(TORN, NONE, rec, Some(Following()), [Writing()]),
      World(TORN, NONE, rec, Some(Following().(flight := Reserved([9]))), [Writing()]),
      World(RETRIED, NONE, rec, Some(Following().(flight := OnDisk([9]))), [Writing()]),
      World(RETRIED, LATER, rec, Some(Following().(flight := InStore([9]))), [Writing()]),
      World(RETRIED, LATER, rec, Some(up), [Writing()]),
      World(RETRIED, LATER, Progress(1, 2), Some(up), [Writing()]),
      World(RETRIED, LATER, Progress(1, 2), None, [Writing(), up]) ]
  }

  lemma RetryingFacts()
    ensures IsNext(NONE, 0) && Total(NONE, 0) == 0 && IsNext(TORN, 1) && Total(TORN, 1) == 0
    ensures NONE[0 := [1, 2, 3]] == WHOLE && WHOLE[0 := []] == TORN && TORN[1 := [9]] == RETRIED && NONE[1 := [9]] == LATER
    ensures [] + [1, 2, 3] == [1, 2, 3] && [] + [9] == [9] && Take([1, 2, 3], 0) == []
    ensures Ready(Writing(), 4) == Some([1, 2, 3]) && Ready(Following(), 4) == Some([9])
  {
    assert [1, 2, 3][0..] == [1, 2, 3] && [9][0..] == [9];
  }

  lemma RetryingEarly(i: nat)
    requires i < 5
    ensures Happens(Retrying(), i, RETRYING[i], 4)
  {
    RetryingFacts();
    hide Ready, IsNext, Total, Take;
  }

  lemma RetryingMid(i: nat)
    requires 5 <= i < 11
    ensures Happens(Retrying(), i, RETRYING[i], 4)
  {
    RetryingFacts();
    hide Ready, IsNext, Total, Take;
  }

  lemma RetryingLate(i: nat)
    requires 11 <= i < |RETRYING|
    ensures Happens(Retrying(), i, RETRYING[i], 4)
  {
    RetryingFacts();
    hide Ready, IsNext, Total, Take;
  }

  lemma RetryingIsRun()
    ensures IsRun(Retrying(), RETRYING, 4)
  {
    forall i | 0 <= i < |RETRYING| ensures Happens(Retrying(), i, RETRYING[i], 4) {
      if i < 5 { RetryingEarly(i); } else if i < 11 { RetryingMid(i); } else { RetryingLate(i); }
    }
  }

  lemma RetryingIsKept()
    ensures DiskKept(RETRYING) && forall k :: 0 <= k < |RETRYING| && RETRYING[k].Resume? ==> RETRYING[k].control == 0
  {
  }

  lemma RetryingTotals()
    ensures Total(RETRIED, 1) == 0 && Total(WHOLE, 1) == 3 && IsNext(WHOLE, 1)
  {
  }

  lemma RetryingEnds()
    ensures Retrying()[5].disk == WHOLE && Settled(Retrying()[5], 1) == 0
    ensures Retrying()[18].disk == RETRIED && Retrying()[18].record == Progress(1, 2)
  {
  }

  /** With a file in the making, a rollback can lose a recorded segment and go unnoticed. */
  lemma TornRetryHidesRollback()
    ensures IsRun(Retrying(), RETRYING, 4) && DiskKept(RETRYING) && DiskBased(Retrying(), RETRYING)
    ensures IsNext(WHOLE, 1) && Retrying()[5].disk == WHOLE && Settled(Retrying()[5], 1) != 1
    ensures LosesRecorded(Retrying()[18], WHOLE) && !JournalSignal(WHOLE, 1, Retrying()[18].record)
  {
    RetryingIsRun();
    RetryingIsKept();
    RetryingTotals();
    RetryingEnds();
    hide Total, IsRun, Retrying, RETRYING, Settled, DiskKept;
    assert 1 in RETRIED && 1 !in WHOLE;
  }
}
