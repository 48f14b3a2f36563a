/** Streaming a journal to the control plane and resuming after a drop
    (crates/marid/src/supervisor.rs, testkit.rs). The sender pulls frames off the journal from
    a per-connection mark; the receiver reassembles by offset. */
module Streams {
  import opened Basics
  import opened Journals

  // ---- the receiver ------------------------------------------------------------------

  datatype IngestError = Gap | Mismatch

  /** The frame says nothing else about a byte that is already there. */
  ghost predicate Agrees(buf: seq<byte>, offset: nat, bytes: seq<byte>) {
    forall i :: offset <= i < |buf| && i < offset + |bytes| ==> buf[i] == bytes[i - offset]
  }

  /** `buf` with the frame laid over it. */
  function Merge(buf: seq<byte>, offset: nat, bytes: seq<byte>): (r: seq<byte>)
    requires offset <= |buf|
    ensures buf <= r && |r| == if offset + |bytes| <= |buf| then |buf| else offset + |bytes|
  {
    if offset + |bytes| <= |buf| then buf else buf + bytes[|buf| - offset..]
  }

  /** An agreeing frame reads back at its own offset. */
  lemma MergeShows(buf: seq<byte>, offset: nat, bytes: seq<byte>)
    requires offset <= |buf| && Agrees(buf, offset, bytes)
    ensures Merge(buf, offset, bytes)[offset..offset + |bytes|] == bytes
  {
    var merged := Merge(buf, offset, bytes);
    forall i | 0 <= i < |bytes| ensures merged[offset + i] == bytes[i] {
      if offset + i < |buf| { assert buf[offset + i] == bytes[offset + i - offset]; }
    }
  }

  /** Reassembly of one run's journal by offset. */
  class RunReassembly {
    var buf: seq<byte>
    var acked: nat

    constructor ()
      ensures buf == [] && acked == 0
    {
      buf, acked := [], 0;
    }

    /** Take one frame; refuse a gap and a conflicting duplicate. */
    method Ingest(offset: nat, bytes: seq<byte>) returns (r: Result<(), IngestError>)
      modifies this`buf
      ensures r.Ok? <==> offset <= |old(buf)| && Agrees(old(buf), offset, bytes)
      ensures r.Err? ==> buf == old(buf) && r.error == if offset > |old(buf)| then Gap else Mismatch
      ensures r.Ok? ==> buf == Merge(old(buf), offset, bytes) && buf[offset..offset + |bytes|] == bytes
    {
      var have := |buf|;
      if offset > have { return Err(Gap); }
      var end := offset + |bytes|;
      var overlapEnd := if end < have then end else have;
      if offset < overlapEnd {
        var existing, incoming := buf[offset..overlapEnd], bytes[..overlapEnd - offset];
        if existing != incoming {
          var k :| 0 <= k < |existing| && existing[k] != incoming[k];
          assert buf[offset + k] != bytes[offset + k - offset];
          return Err(Mismatch);
        }
        forall i | offset <= i < overlapEnd ensures buf[i] == bytes[i - offset] {
          assert existing[i - offset] == incoming[i - offset];
        }
      }
      ghost var before := buf;
      if end > have { buf := buf + bytes[have - offset..]; }
      assert Agrees(before, offset, bytes);
      MergeShows(before, offset, bytes);
      return Ok(());
    }

    /** Handle a frame: ingest it, then acknowledge what is held, up to a cap. */
    method Receive(offset: nat, bytes: seq<byte>, cap: Option<nat>) returns (r: Result<Option<nat>, IngestError>)
      requires acked <= |buf|
      modifies this
      ensures old(acked) <= acked <= |buf|
      ensures r.Err? <==> !(offset <= |old(buf)| && Agrees(old(buf), offset, bytes))
      ensures r.Err? ==> buf == old(buf) && acked == old(acked)
      ensures r.Ok? ==> buf == Merge(old(buf), offset, bytes) && acked == AckedAfter(old(acked), |buf|, cap)
      ensures r.Ok? ==> r.value == if acked > old(acked) then Some(acked) else None
    {
      var taken := Ingest(offset, bytes);
      if taken.Err? { return Err(taken.error); }
      var received := |buf|;
      var target := if cap.Some? && cap.value < received then cap.value else received;
      if target > acked {
        acked := target;
        return Ok(Some(target));
      }
      return Ok(None);
    }
  }

  function AckedAfter(acked: nat, received: nat, cap: Option<nat>): nat {
    var target := if cap.Some? && cap.value < received then cap.value else received;
    if target > acked then target else acked
  }

  // ---- the sender ---------------------------------------------------------------------------

  type RunId = string

  /** A journal as the streamer sees it. */
  datatype OpenJournal = OpenJournal(run: RunId, base: nat, buf: seq<byte>)

  datatype WireFrame = WireFrame(run: RunId, offset: nat, bytes: seq<byte>)

  /** What one frame from `off` carries; nothing when `off` is at the end. */
  function Chunk(j: OpenJournal, off: nat): (chunk: seq<byte>)
    requires j.base <= off
    ensures chunk == [] <==> off >= j.base + |j.buf|
    ensures chunk != [] ==> off + |chunk| <= j.base + |j.buf| && chunk == j.buf[off - j.base..off - j.base + |chunk|]
    ensures |chunk| <= FRAME_CHUNK
  {
    if off >= j.base + |j.buf| then [] else Take(j.buf[off - j.base..], FRAME_CHUNK)
  }

  /** The journal bytes from `off`, cut into frames. */
  function Frames(j: OpenJournal, off: nat): (frames: seq<WireFrame>)
    requires j.base <= off
    decreases j.base + |j.buf| - off
  {
    if off >= j.base + |j.buf| then []
    else [WireFrame(j.run, off, Chunk(j, off))] + Frames(j, off + |Chunk(j, off)|)
  }

  lemma NextFrame(j: OpenJournal, off: nat)
    requires j.base <= off
    ensures Frames(j, off) == if off >= j.base + |j.buf| then [] else [WireFrame(j.run, off, Chunk(j, off))] + Frames(j, off + |Chunk(j, off)|)
  {
  }

  function Payload(frames: seq<WireFrame>): seq<byte> {
    if frames == [] then [] else frames[0].bytes + Payload(frames[1..])
  }

  /** The frames follow each other from `off`, none is empty or too long, and together they
      carry exactly the bytes from `off` to the end. */
  lemma {:induction false} FramesCarryTheRest(j: OpenJournal, off: nat)
    requires j.base <= off <= j.base + |j.buf|
    ensures var frames := Frames(j, off);
      && Payload(frames) == j.buf[off - j.base..]
      && (forall i :: 0 <= i < |frames| ==> 0 < |frames[i].bytes| <= FRAME_CHUNK && frames[i].run == j.run)
      && (forall i :: 0 <= i < |frames| ==> frames[i].offset == off + |Payload(frames[..i])|)
    decreases j.base + |j.buf| - off
  {
    hide Chunk, Frames, Payload;
    NextFrame(j, off);
    if off < j.base + |j.buf| {
      var chunk, frames := Chunk(j, off), Frames(j, off);
      var rest := Frames(j, off + |chunk|);
      FramesCarryTheRest(j, off + |chunk|);
      PayloadFirst(frames[0], rest);
      assert j.buf[off - j.base..] == chunk + j.buf[off + |chunk| - j.base..];
      forall i | 0 <= i < |frames| ensures frames[i].offset == off + |Payload(frames[..i])| { OffsetsShift(frames[0], rest, i); }
    } else {
      assert j.buf[off - j.base..] == [] == Payload([]) by { PayloadOfNone(); }
    }
  }

  lemma PayloadFirst(first: WireFrame, rest: seq<WireFrame>)
    ensures Payload([first] + rest) == first.bytes + Payload(rest)
  {
    assert ([first] + rest)[1..] == rest;
  }

  lemma PayloadOfNone()
    ensures Payload([]) == []
  {
  }

  /** The payload before a frame, once another is put in front. */
  lemma OffsetsShift(first: WireFrame, rest: seq<WireFrame>, i: nat)
    requires i <= |rest|
    ensures |Payload(([first] + rest)[..i])| == if i == 0 then 0 else |first.bytes| + |Payload(rest[..i - 1])|
    ensures i > 0 ==> ([first] + rest)[i] == rest[i - 1] || i == |rest|
  {
    if i > 0 { assert ([first] + rest)[..i][1..] == rest[..i - 1]; }
  }

  /** Where streaming of this journal starts on this connection. */
  function StartOff(sent: map<RunId, nat>, acked: map<RunId, nat>, j: OpenJournal): (off: nat)
    ensures off >= j.base
  {
    var mark := MarkIn(sent, acked, j.run);
    if mark < j.base then j.base else mark
  }

  /** Everything one flush sends, journal by journal. */
  function AllFrames(journals: seq<OpenJournal>, sent: map<RunId, nat>, acked: map<RunId, nat>): seq<WireFrame> {
    if journals == [] then []
    else
      var last := journals[|journals| - 1];
      AllFrames(journals[..|journals| - 1], sent, acked) + Frames(last, StartOff(sent, acked, last))
  }

  /** Where this run stands on this connection: its mark, or else what was last acknowledged. */
  function MarkIn(sent: map<RunId, nat>, acked: map<RunId, nat>, run: RunId): nat {
    if run in sent then sent[run] else if run in acked then acked[run] else 0
  }

  /** The frames of one run among these. */
  function OwnFrames(frames: seq<WireFrame>, run: RunId): seq<WireFrame> {
    if frames == [] then []
    else OwnFrames(frames[..|frames| - 1], run) + if frames[|frames| - 1].run == run then [frames[|frames| - 1]] else []
  }

  lemma {:induction false} OwnOfBoth(a: seq<WireFrame>, b: seq<WireFrame>, run: RunId)
    ensures OwnFrames(a + b, run) == OwnFrames(a, run) + OwnFrames(b, run)
    decreases |b|
  {
    if b == [] {
      assert a + b == a;
    } else {
      OwnOfBoth(a, b[..|b| - 1], run);
      assert (a + b)[..|a + b| - 1] == a + b[..|b| - 1];
    }
  }

  lemma OwnOfOne(f: WireFrame, run: RunId)
    ensures OwnFrames([f], run) == if f.run == run then [f] else []
  {
    assert [f][..0] == [];
  }

  lemma OwnOfNone(run: RunId)
    ensures OwnFrames([], run) == []
  {
  }

  lemma {:induction false} OwnOfJournal(j: OpenJournal, off: nat, run: RunId)
    requires j.base <= off
    ensures OwnFrames(Frames(j, off), run) == if j.run == run then Frames(j, off) else []
    decreases j.base + |j.buf| - off
  {
    hide Chunk, Frames, OwnFrames;
    NextFrame(j, off);
    if off < j.base + |j.buf| {
      var f := WireFrame(j.run, off, Chunk(j, off));
      OwnOfJournal(j, off + |f.bytes|, run);
      OwnOfOne(f, run);
      OwnOfBoth([f], Frames(j, off + |f.bytes|), run);
    } else {
      OwnOfNone(run);
    }
  }

  /** Of all that a flush sends, a run's own frames are its journal's from where it stands. */
  lemma {:induction false} OwnOfAll(journals: seq<OpenJournal>, sent: map<RunId, nat>, acked: map<RunId, nat>, run: RunId)
    requires forall a, b :: 0 <= a < b < |journals| ==> journals[a].run != journals[b].run
    ensures forall a :: 0 <= a < |journals| && journals[a].run == run ==>
      OwnFrames(AllFrames(journals, sent, acked), run) == Frames(journals[a], StartOff(sent, acked, journals[a]))
    ensures (forall a :: 0 <= a < |journals| ==> journals[a].run != run) ==> OwnFrames(AllFrames(journals, sent, acked), run) == []
    decreases |journals|
  {
    hide Frames, StartOff;
    if journals != [] {
      var less, last := journals[..|journals| - 1], journals[|journals| - 1];
      OwnOfAll(less, sent, acked, run);
      OwnOfBoth(AllFrames(less, sent, acked), Frames(last, StartOff(sent, acked, last)), run);
      OwnOfJournal(last, StartOff(sent, acked, last), run);
      assert forall a :: 0 <= a < |less| ==> less[a] == journals[a];
    }
  }

  /** The frames carry all of the journal from `start` on, each following the one before. */
  ghost predicate Carries(frames: seq<WireFrame>, j: OpenJournal, start: nat) {
    && Payload(frames) == (if j.base <= start <= j.base + |j.buf| then j.buf[start - j.base..] else [])
    && forall i :: 0 <= i < |frames| ==>
         && frames[i].run == j.run && frames[i].offset == start + |Payload(frames[..i])| && 0 < |frames[i].bytes| <= FRAME_CHUNK
  }

  /** What a run's frames carry, by the two maps alone: from its mark, without one from what was last
      acknowledged, without either everything; never from below the base. */
  ghost predicate CarriesFromMark(frames: seq<WireFrame>, j: OpenJournal, sent: map<RunId, nat>, acked: map<RunId, nat>) {
    && (j.run in sent ==> Carries(frames, j, if sent[j.run] > j.base then sent[j.run] else j.base))
    && (j.run !in sent && j.run in acked ==> Carries(frames, j, if acked[j.run] > j.base then acked[j.run] else j.base))
    && (j.run !in sent && j.run !in acked ==> Carries(frames, j, j.base) && Payload(frames) == j.buf)
  }

  lemma FramesCarry(j: OpenJournal, off: nat)
    requires j.base <= off
    ensures Carries(Frames(j, off), j, off)
  {
    if off <= j.base + |j.buf| { FramesCarryTheRest(j, off); }
  }

  lemma FlushCarries(journals: seq<OpenJournal>, sent: map<RunId, nat>, acked: map<RunId, nat>, a: nat)
    requires forall a, b :: 0 <= a < b < |journals| ==> journals[a].run != journals[b].run
    requires a < |journals|
    ensures CarriesFromMark(OwnFrames(AllFrames(journals, sent, acked), journals[a].run), journals[a], sent, acked)
  {
    hide Frames, AllFrames, OwnFrames, Payload;
    var j := journals[a];
    OwnOfAll(journals, sent, acked, j.run);
    FramesCarry(j, StartOff(sent, acked, j));
    assert j.buf[0..] == j.buf;
  }

  lemma Regroup(front: seq<WireFrame>, f: WireFrame, rest: seq<WireFrame>)
    ensures front + ([f] + rest) == front + [f] + rest
    ensures (front + ([f] + rest))[..|front|] == front
  {
  }

  function EndOff(j: OpenJournal, off: nat): nat {
    if off < j.base + |j.buf| then j.base + |j.buf| else off
  }

  function EndMark(j: OpenJournal, mark: nat): nat {
    if mark > j.base + |j.buf| then mark else j.base + |j.buf|
  }

  /** None of the first `n` journals is this run's. */
  ghost predicate OtherRun(journals: seq<OpenJournal>, run: RunId, n: nat) {
    forall a :: 0 <= a < n && a < |journals| ==> journals[a].run != run
  }

  /** The marks of the first `done` journals are at their ends, or where they were if that is further;
      that of the next is on record if it was `entered`; every other is as it was. */
  ghost predicate Marks(journals: seq<OpenJournal>, before: map<RunId, nat>, acked: map<RunId, nat>, done: nat, entered: bool, sent: map<RunId, nat>)
  {
    && (forall a :: 0 <= a < done && a < |journals| ==>
          journals[a].run in sent && sent[journals[a].run] == EndMark(journals[a], MarkIn(before, acked, journals[a].run)))
    && (entered && done < |journals| ==>
          journals[done].run in sent && sent[journals[done].run] == MarkIn(before, acked, journals[done].run))
    && (forall run :: OtherRun(journals, run, if entered then done + 1 else done) ==>
          (run in sent <==> run in before) && (run in sent ==> sent[run] == before[run]))
  }

  lemma NothingMarked(journals: seq<OpenJournal>, sent: map<RunId, nat>, acked: map<RunId, nat>)
    ensures Marks(journals, sent, acked, 0, false, sent)
  {
  }

  lemma RunEntered(journals: seq<OpenJournal>, before: map<RunId, nat>, acked: map<RunId, nat>, k: nat, sent: map<RunId, nat>)
    requires forall a, b :: 0 <= a < b < |journals| ==> journals[a].run != journals[b].run
    requires k < |journals| && Marks(journals, before, acked, k, false, sent)
    ensures MarkIn(sent, acked, journals[k].run) == MarkIn(before, acked, journals[k].run)
    ensures Marks(journals, before, acked, k, true, sent[journals[k].run := MarkIn(sent, acked, journals[k].run)])
    ensures StartOff(sent[journals[k].run := MarkIn(sent, acked, journals[k].run)], acked, journals[k]) == StartOff(before, acked, journals[k])
  {
    assert OtherRun(journals, journals[k].run, k);
    forall run | OtherRun(journals, run, k + 1) ensures OtherRun(journals, run, k) && run != journals[k].run {}
  }

  lemma RunMarked(journals: seq<OpenJournal>, before: map<RunId, nat>, acked: map<RunId, nat>, k: nat, sent: map<RunId, nat>)
    requires forall a, b :: 0 <= a < b < |journals| ==> journals[a].run != journals[b].run
    requires k < |journals| && Marks(journals, before, acked, k, false, sent)
    ensures var j := journals[k];
      var m := sent[j.run := MarkIn(sent, acked, j.run)];
      Marks(journals, before, acked, k + 1, false, m[j.run := EndOff(j, StartOff(m, acked, j))])
  {
    assert OtherRun(journals, journals[k].run, k);
    forall run | OtherRun(journals, run, k + 1) ensures OtherRun(journals, run, k) && run != journals[k].run {}
  }

  function Overlay(offsets: seq<(RunId, nat)>, n: nat, m: map<RunId, nat>): map<RunId, nat>
    requires n <= |offsets|
  {
    if n == 0 then m else Overlay(offsets, n - 1, m)[offsets[n - 1].0 := offsets[n - 1].1]
  }

  /** A run that the offsets do not name is as before. */
  lemma {:induction false} OverlayUnnamed(offsets: seq<(RunId, nat)>, n: nat, m: map<RunId, nat>, run: RunId)
    requires n <= |offsets| && forall a :: 0 <= a < n ==> offsets[a].0 != run
    ensures run in Overlay(offsets, n, m) <==> run in m
    ensures run in m ==> Overlay(offsets, n, m)[run] == m[run]
  {
    if n > 0 {
      OverlayUnnamed(offsets, n - 1, m, run);
      assert offsets[n - 1].0 != run;
    }
  }

  /** A run that they name has the last of its offsets. */
  lemma {:induction false} OverlayNamed(offsets: seq<(RunId, nat)>, n: nat, m: map<RunId, nat>, a: nat)
    requires a < n <= |offsets| && forall b :: a < b < n ==> offsets[b].0 != offsets[a].0
    ensures offsets[a].0 in Overlay(offsets, n, m) && Overlay(offsets, n, m)[offsets[a].0] == offsets[a].1
  {
    if a < n - 1 {
      OverlayNamed(offsets, n - 1, m, a);
      assert offsets[n - 1].0 != offsets[a].0;
    }
  }

  /** One supervisor's side of one connection. */
  class Streamer {
    /** per connection, reset by HelloAck */
    var sent: map<RunId, nat>
    /** across connections */
    var acked: map<RunId, nat>

    constructor (acked: map<RunId, nat>)
      ensures sent == map[] && this.acked == acked
    {
      sent, this.acked := map[], acked;
    }

    /** Resume: re-send from what is durably acknowledged. */
    method HelloAck(offsets: seq<(RunId, nat)>)
      modifies this
      ensures sent == Overlay(offsets, |offsets|, old(sent)) && acked == Overlay(offsets, |offsets|, old(acked))
    {
      for k := 0 to |offsets|
        invariant sent == Overlay(offsets, k, old(sent)) && acked == Overlay(offsets, k, old(acked))
      {
        var (run, off) := offsets[k];
        sent, acked := sent[run := off], acked[run := off];
      }
    }

    method JournalAck(run: RunId, offset: nat)
      modifies this`acked
      ensures acked == old(acked)[run := offset]
    {
      acked := acked[run := offset];
    }

    /** Stream one journal from `start` to its end; the socket takes `budget` more frames. */
    method StreamOne(j: OpenJournal, start: nat, budget: nat) returns (frames: seq<WireFrame>, off: nat, left: nat, ok: bool)
      requires j.base <= start
      ensures ok <==> |Frames(j, start)| <= budget
      ensures ok ==> frames == Frames(j, start) && off == EndOff(j, start) && left == budget - |frames|
      ensures !ok ==> frames == Frames(j, start)[..budget]
    {
      hide Frames, Chunk;
      frames, off, left, ok := [], start, budget, true;
      ghost var all := Frames(j, start);
      while off < j.base + |j.buf|
        invariant j.base <= off
        invariant all == frames + Frames(j, off)
        invariant EndOff(j, off) == EndOff(j, start) && left == budget - |frames|
        decreases j.base + |j.buf| - off
      {
        var chunk := Chunk(j, off);
        NextFrame(j, off);
        Regroup(frames, WireFrame(j.run, off, chunk), Frames(j, off + |chunk|));
        if left == 0 {
          assert frames == all[..budget] && |all| > budget;
          return frames, off, 0, false;
        }
        frames := frames + [WireFrame(j.run, off, chunk)];
        off, left := off + |chunk|, left - 1;
      }
      NextFrame(j, off);
    }

    /** Stream every journal from its mark to its end; `done` of them before the socket failed. */
    method FlushJournals(journals: seq<OpenJournal>, budget: nat) returns (frames: seq<WireFrame>, ok: bool, ghost done: nat)
      requires forall a, b :: 0 <= a < b < |journals| ==> journals[a].run != journals[b].run
      modifies this`sent
      ensures ok <==> |AllFrames(journals, old(sent), acked)| <= budget
      ensures frames <= AllFrames(journals, old(sent), acked) && (ok ==> frames == AllFrames(journals, old(sent), acked))
      ensures !ok ==> |frames| == budget
      ensures ok ==> forall a :: 0 <= a < |journals| ==> CarriesFromMark(OwnFrames(frames, journals[a].run), journals[a], old(sent), acked)
      ensures done <= |journals| && (ok <==> done == |journals|)
      ensures Marks(journals, old(sent), acked, done, !ok, sent)
    {
      hide Frames, Marks, CarriesFromMark, OwnFrames, MarkIn;
      NothingMarked(journals, sent, acked);
      frames, ok, done := [], true, 0;
      var left := budget;
      assert journals[..|journals|] == journals;
      for k := 0 to |journals|
        invariant frames == AllFrames(journals[..k], old(sent), acked) && left == budget - |frames| && |frames| <= budget
        invariant done == k && Marks(journals, old(sent), acked, k, false, sent)
      {
        var j := journals[k];
        assert journals[..k + 1][..k] == journals[..k];
        AllFramesGrow(journals, old(sent), acked, k + 1);
        RunEntered(journals, old(sent), acked, k, sent);
        ghost var before := sent;
        sent := sent[j.run := MarkIn(sent, acked, j.run)];
        var start := StartOff(sent, acked, j);
        var more, off, rest, sentAll := StreamOne(j, start, left);
        frames := frames + more;
        if !sentAll {
          assert frames <= AllFrames(journals[..k + 1], old(sent), acked);
          return frames, false, done;
        }
        left := rest;
        sent := sent[j.run := off];
        done := k + 1;
        RunMarked(journals, old(sent), acked, k, before);
      }
      forall a | 0 <= a < |journals| ensures CarriesFromMark(OwnFrames(frames, journals[a].run), journals[a], old(sent), acked) {
        FlushCarries(journals, old(sent), acked, a);
      }
    }
  }

  lemma {:induction false} AllFramesGrow(journals: seq<OpenJournal>, sent: map<RunId, nat>, acked: map<RunId, nat>, k: nat)
    requires k <= |journals|
    ensures AllFrames(journals[..k], sent, acked) <= AllFrames(journals, sent, acked)
    decreases |journals|
  {
    if k < |journals| {
      var less := journals[..|journals| - 1];
      AllFramesGrow(less, sent, acked, k);
      assert less[..k] == journals[..k];
    } else {
      assert journals[..k] == journals;
    }
  }

  // ---- one run's stream as a state machine ----------------------------------------------------

  datatype Up = Hello | JournalFrame(offset: nat, bytes: seq<byte>)
  datatype Down = HelloAck(known: Option<nat>) | JournalAck(offset: nat)

  /** A live connection: messages on their way each way, and the sender's mark. */
  datatype Link = Link(up: seq<Up>, down: seq<Down>, sent: Option<nat>)

  datatype Receiver = Receiver(buf: seq<byte>, acked: nat)

  /** `journal` is the supervisor's; `receiver` exists once the control plane knows the run. */
  datatype State = State(journal: OpenJournal, acked: Option<nat>, link: Option<Link>, receiver: Option<Receiver>, failed: bool)

  datatype Move =
    | Append(data: seq<byte>)
    | Connect
    | Send
    | DeliverUp(cap: Option<nat>)
    | DeliverDown
    | Drop

  function Held(s: State): seq<byte> {
    if s.receiver.Some? then s.receiver.value.buf else []
  }

  /** Where the next frame starts. */
  function Mark(s: State): nat
    requires s.link.Some?
  {
    var mark := if s.link.value.sent.Some? then s.link.value.sent.value else if s.acked.Some? then s.acked.value else 0;
    if mark < s.journal.base then s.journal.base else mark
  }

  function Sent(s: State): State
    requires s.link.Some?
  {
    var l, off := s.link.value, Mark(s);
    var chunk := Chunk(s.journal, off);
    s.(link := Some(l.(up := if chunk == [] then l.up else l.up + [JournalFrame(off, chunk)], sent := Some(off + |chunk|))))
  }

  /** What the control plane does with the next message; a bad frame ends the connection. */
  ghost function Delivered(s: State, cap: Option<nat>): State
    requires s.link.Some? && s.link.value.up != []
  {
    var l := s.link.value;
    match l.up[0]
    case Hello =>
      s.(link := Some(l.(up := l.up[1..], down := l.down + [HelloAck(if s.receiver.Some? then Some(s.receiver.value.acked) else None)])))
    case JournalFrame(offset, bytes) =>
      if offset <= |Held(s)| && Agrees(Held(s), offset, bytes) then
        var merged := Merge(Held(s), offset, bytes);
        var before := if s.receiver.Some? then s.receiver.value.acked else 0;
        var acked := AckedAfter(before, |merged|, cap);
        s.(receiver := Some(Receiver(merged, acked)),
           link := Some(l.(up := l.up[1..], down := if acked > before then l.down + [JournalAck(acked)] else l.down)))
      else s.(failed := true, link := None)
  }

  function Heard(s: State): State
    requires s.link.Some? && s.link.value.down != []
  {
    var l := s.link.value;
    var l' := l.(down := l.down[1..]);
    match l.down[0]
    case HelloAck(Some(a)) => s.(acked := Some(a), link := Some(l'.(sent := Some(a))))
    case HelloAck(None) => s.(link := Some(l'))
    case JournalAck(a) => s.(acked := Some(a), link := Some(l'))
  }

  ghost predicate Moves(s: State, s': State, m: Move) {
    match m
    case Append(data) => s' == s.(journal := s.journal.(buf := s.journal.buf + data))
    case Connect => s.link.None? && s' == s.(link := Some(Link([Hello], [], None)))
    case Send => s.link.Some? && s' == Sent(s)
    case DeliverUp(cap) => s.link.Some? && s.link.value.up != [] && s' == Delivered(s, cap)
    case DeliverDown => s.link.Some? && s.link.value.down != [] && s' == Heard(s)
    case Drop => s.link.Some? && s' == s.(link := None)
  }

  /** The journal of a life beginning at `base`, while the control plane holds `prior`. */
  ghost predicate Starts(s: State, prior: seq<byte>, base: nat) {
    && s.journal.base == base && s.journal.buf == [] && !s.failed && Held(s) == prior
    && (s.receiver.Some? ==> s.receiver.value.acked <= |prior|)
    && (s.acked.Some? ==> s.acked.value <= |prior|)
    && (s.link.Some? ==> s.link.value.up == [] && s.link.value.down == [] && (s.link.value.sent.Some? ==> s.link.value.sent.value <= |prior|))
  }

  ghost predicate IsStream(run: seq<State>, moves: seq<Move>, prior: seq<byte>, base: nat) {
    && |run| == |moves| + 1 && Starts(run[0], prior, base)
    && forall i :: 0 <= i < |moves| ==> Moves(run[i], run[i + 1], moves[i])
  }

  // ---- what every move keeps ----------------------------------------------------------------------

  /** The run's whole journal: what the control plane held when this life began, then this life's. */
  function Whole(s: State, prior: seq<byte>): seq<byte> {
    prior + s.journal.buf
  }

  /** How far the receiver gets with what is on its way, unless a gap stops it. */
  function Reach(have: nat, up: seq<Up>): Option<nat>
    decreases |up|
  {
    if up == [] then Some(have)
    else match up[0]
      case Hello => Reach(have, up[1..])
      case JournalFrame(offset, bytes) =>
        if offset > have then None
        else Reach(if offset + |bytes| <= have then have else offset + |bytes|, up[1..])
  }

  /** The frame carries the journal's own bytes. */
  ghost predicate Genuine(whole: seq<byte>, u: Up) {
    u.JournalFrame? ==> u.offset + |u.bytes| <= |whole| && u.bytes == whole[u.offset..u.offset + |u.bytes|]
  }

  ghost predicate LinkOk(whole: seq<byte>, have: nat, l: Link) {
    && (forall i :: 0 <= i < |l.up| ==> Genuine(whole, l.up[i]))
    && Reach(have, l.up).Some?
    && (l.sent.Some? ==> l.sent.value <= Reach(have, l.up).value)
    && (forall i :: 0 <= i < |l.down| ==>
          match l.down[i]
          case HelloAck(known) => known.Some? ==> known.value <= have
          case JournalAck(a) => a <= have)
  }

  ghost predicate Safe(s: State, prior: seq<byte>) {
    && !s.failed && s.journal.base == |prior|
    && prior <= Held(s) <= Whole(s, prior)
    && (s.receiver.Some? ==> s.receiver.value.acked <= |Held(s)|)
    && (s.acked.Some? ==> s.acked.value <= |Held(s)|)
    && (s.link.Some? ==> LinkOk(Whole(s, prior), |Held(s)|, s.link.value))
  }

  lemma {:induction false} ReachMore(have: nat, up: seq<Up>, u: Up)
    requires Reach(have, up).Some?
    ensures Reach(have, up + [u]) == Reach(Reach(have, up).value, [u])
    decreases |up|
  {
    if up == [] {
      assert up + [u] == [u];
    } else {
      assert (up + [u])[1..] == up[1..] + [u];
      match up[0] {
        case Hello => ReachMore(have, up[1..], u);
        case JournalFrame(offset, bytes) => ReachMore(if offset + |bytes| <= have then have else offset + |bytes|, up[1..], u);
      }
    }
  }

  lemma {:induction false} ReachWithin(whole: seq<byte>, have: nat, up: seq<Up>)
    requires Reach(have, up).Some? && have <= |whole| && forall i :: 0 <= i < |up| ==> Genuine(whole, up[i])
    ensures have <= Reach(have, up).value <= |whole|
    decreases |up|
  {
    if up != [] {
      assert Genuine(whole, up[0]);
      assert forall i :: 0 <= i < |up[1..]| ==> up[1..][i] == up[i + 1];
      match up[0] {
        case Hello => ReachWithin(whole, have, up[1..]);
        case JournalFrame(offset, bytes) => ReachWithin(whole, if offset + |bytes| <= have then have else offset + |bytes|, up[1..]);
      }
    }
  }

  lemma StartsSafe(s: State, prior: seq<byte>)
    requires Starts(s, prior, |prior|)
    ensures Safe(s, prior)
  {
  }

  lemma AppendSafe(s: State, s': State, data: seq<byte>, prior: seq<byte>)
    requires Safe(s, prior) && Moves(s, s', Append(data))
    ensures Safe(s', prior)
  {
    var whole, whole' := Whole(s, prior), Whole(s', prior);
    assert whole' == whole + data;
    if s.link.Some? {
      forall i | 0 <= i < |s.link.value.up| ensures Genuine(whole', s.link.value.up[i]) {
        var u := s.link.value.up[i];
        assert Genuine(whole, u);
        if u.JournalFrame? { assert whole'[u.offset..u.offset + |u.bytes|] == whole[u.offset..u.offset + |u.bytes|]; }
      }
    }
  }

  lemma LinkSends(whole: seq<byte>, have: nat, l: Link, off: nat, chunk: seq<byte>)
    requires LinkOk(whole, have, l) && have <= |whole| && off <= Reach(have, l.up).value
    requires chunk != [] && off + |chunk| <= |whole| && chunk == whole[off..off + |chunk|]
    ensures LinkOk(whole, have, l.(up := l.up + [JournalFrame(off, chunk)], sent := Some(off + |chunk|)))
  {
    var u := JournalFrame(off, chunk);
    ReachMore(have, l.up, u);
    assert [u][1..] == [];
    assert Genuine(whole, u);
  }

  lemma SendSafe(s: State, s': State, prior: seq<byte>)
    requires Safe(s, prior) && Moves(s, s', Send)
    ensures Safe(s', prior)
  {
    var l, off, whole := s.link.value, Mark(s), Whole(s, prior);
    var chunk := Chunk(s.journal, off);
    ReachWithin(whole, |Held(s)|, l.up);
    hide Genuine, Reach;
    if chunk != [] {
      assert chunk == whole[off..off + |chunk|] by { ChunkIsWhole(s, prior, off); }
      LinkSends(whole, |Held(s)|, l, off, chunk);
    }
    hide LinkOk;
  }

  lemma ChunkIsWhole(s: State, prior: seq<byte>, off: nat)
    requires s.journal.base == |prior| <= off && Chunk(s.journal, off) != []
    ensures var chunk := Chunk(s.journal, off);
      off + |chunk| <= |Whole(s, prior)| && chunk == Whole(s, prior)[off..off + |chunk|]
  {
  }

  /** Laying a genuine frame over a prefix of the journal gives a longer prefix. */
  lemma MergeGenuine(whole: seq<byte>, held: seq<byte>, offset: nat, bytes: seq<byte>)
    requires held <= whole && offset <= |held| && Genuine(whole, JournalFrame(offset, bytes))
    ensures Agrees(held, offset, bytes) && Merge(held, offset, bytes) <= whole
  {
    forall i | offset <= i < |held| && i < offset + |bytes| ensures held[i] == bytes[i - offset] {
      assert held[i] == whole[i];
    }
    var merged := Merge(held, offset, bytes);
    if offset + |bytes| > |held| {
      forall i | |held| <= i < |merged| ensures merged[i] == whole[i] { assert merged[i] == bytes[i - offset]; }
    }
  }

  /** The rest of the way after one message has arrived. */
  lemma LinkRest(whole: seq<byte>, have: nat, have': nat, l: Link, down: seq<Down>)
    requires LinkOk(whole, have, l) && l.up != [] && have <= have'
    requires have' == match l.up[0]
      case Hello => have
      case JournalFrame(offset, bytes) => if offset + |bytes| <= have then have else offset + |bytes|
    requires down == l.down || (exists d :: down == l.down + [d] && match d
      case HelloAck(known) => known.Some? ==> known.value <= have'
      case JournalAck(a) => a <= have')
    ensures LinkOk(whole, have', l.(up := l.up[1..], down := down))
  {
    assert forall i :: 0 <= i < |l.up[1..]| ==> l.up[1..][i] == l.up[i + 1];
  }

  lemma FirstReaches(whole: seq<byte>, have: nat, l: Link)
    requires LinkOk(whole, have, l) && l.up != [] && l.up[0].JournalFrame?
    ensures l.up[0].offset <= have
  {
  }

  lemma AckedWithin(acked: nat, received: nat, cap: Option<nat>)
    requires acked <= received
    ensures acked <= AckedAfter(acked, received, cap) <= received
  {
  }

  lemma DeliverSafe(s: State, s': State, cap: Option<nat>, prior: seq<byte>)
    requires Safe(s, prior) && Moves(s, s', DeliverUp(cap))
    ensures Safe(s', prior)
  {
    hide Reach, Merge, AckedAfter;
    var l, whole, held := s.link.value, Whole(s, prior), Held(s);
    var u := l.up[0];
    assert Genuine(whole, u);
    match u {
      case Hello =>
        LinkRest(whole, |held|, |held|, l, s'.link.value.down);
      case JournalFrame(offset, bytes) =>
        FirstReaches(whole, |held|, l);
        MergeGenuine(whole, held, offset, bytes);
        hide Agrees, Genuine;
        AckedWithin(if s.receiver.Some? then s.receiver.value.acked else 0, |Merge(held, offset, bytes)|, cap);
        var merged := Merge(held, offset, bytes);
        LinkRest(whole, |held|, |merged|, l, s'.link.value.down);
    }
    hide LinkOk;
  }

  lemma HearSafe(s: State, s': State, prior: seq<byte>)
    requires Safe(s, prior) && Moves(s, s', DeliverDown)
    ensures Safe(s', prior)
  {
    var l := s.link.value;
    var d := l.down[0];
    ReachWithin(Whole(s, prior), |Held(s)|, l.up);
    assert forall i :: 0 <= i < |l.down[1..]| ==> l.down[1..][i] == l.down[i + 1];
  }

  lemma MoveSafe(s: State, s': State, m: Move, prior: seq<byte>)
    requires Safe(s, prior) && Moves(s, s', m)
    ensures Safe(s', prior)
  {
    match m {
      case Append(data) => AppendSafe(s, s', data, prior);
      case Send => SendSafe(s, s', prior);
      case DeliverUp(cap) => DeliverSafe(s, s', cap, prior);
      case DeliverDown => HearSafe(s, s', prior);
      case _ =>
    }
  }

  /** In every state of every interleaving of appends, flushes, deliveries, acks, drops and
      reconnects, with the life's base equal to what the receiver held: no gap and no
      conflict ever happens, the receiver's bytes are a prefix of the whole journal, and
      nothing beyond them is acknowledged. */
  lemma {:induction false} StreamSafe(run: seq<State>, moves: seq<Move>, prior: seq<byte>, k: nat)
    requires IsStream(run, moves, prior, |prior|) && k < |run|
    ensures Safe(run[k], prior)
  {
    if k == 0 {
      StartsSafe(run[0], prior);
    } else {
      StreamSafe(run, moves, prior, k - 1);
      MoveSafe(run[k - 1], run[k], moves[k - 1], prior);
    }
  }

  /** Once a completed flush is delivered, the receiver holds the whole journal. */
  lemma DeliveredFlushIsWhole(run: seq<State>, moves: seq<Move>, prior: seq<byte>, k: nat)
    requires IsStream(run, moves, prior, |prior|) && k < |run|
    requires var s := run[k]; s.link.Some? && s.link.value.up == [] && s.link.value.sent == Some(s.journal.base + |s.journal.buf|)
    ensures Held(run[k]) == Whole(run[k], prior)
  {
    StreamSafe(run, moves, prior, k);
  }

  // ---- and only then ---------------------------------------------------------------------------------

  ghost predicate NeverFails(prior: seq<byte>, base: nat) {
    forall run: seq<State>, moves: seq<Move>, k: nat :: IsStream(run, moves, prior, base) && k < |run| ==> !run[k].failed
  }

  /** One byte appended and sent on a life based at `base`. */
  function Sending(prior: seq<byte>, base: nat, b: byte): seq<State> {
    var s0 := State(OpenJournal("", base, []), None, None, Some(Receiver(prior, 0)), false);
    var s1 := s0.(journal := OpenJournal("", base, [b]));
    var frame := JournalFrame(base, [b]);
    [ s0, s1,
      s1.(link := Some(Link([Hello], [], None))),
      s1.(link := Some(Link([Hello, frame], [], Some(base + 1)))),
      s1.(link := Some(Link([frame], [HelloAck(Some(0))], Some(base + 1)))),
      s1.(failed := true) ]
  }

  function SendingMoves(b: byte): seq<Move> {
    [Append([b]), Connect, Send, DeliverUp(None), DeliverUp(None)]
  }

  lemma SendingStep(prior: seq<byte>, base: nat, b: byte, i: nat)
    requires i < 5 && (base > |prior| || (base < |prior| && prior[base] != b))
    ensures Moves(Sending(prior, base, b)[i], Sending(prior, base, b)[i + 1], SendingMoves(b)[i])
  {
    hide Merge;
    var frame := JournalFrame(base, [b]);
    if i == 0 { assert [] + [b] == [b]; }
    if i == 2 { assert [b][0..1] == [b] && [Hello] + [frame] == [Hello, frame]; }
    if i == 3 { assert [Hello, frame][1..] == [frame] && [] + [HelloAck(Some(0))] == [HelloAck(Some(0))]; }
    if i == 4 { assert base < |prior| ==> prior[base] != [b][base - base]; }
  }

  /** A life based anywhere else can be streamed into a gap or a conflict. */
  lemma WrongBaseFails(prior: seq<byte>, base: nat) returns (run: seq<State>, moves: seq<Move>)
    requires base != |prior|
    ensures IsStream(run, moves, prior, base) && run[|run| - 1].failed
  {
    var taken: int := if base < |prior| then prior[base] else 0;
    var b: byte := (taken + 1) % 256;
    run, moves := Sending(prior, base, b), SendingMoves(b);
    hide Moves;
    forall i | 0 <= i < |moves| ensures Moves(run[i], run[i + 1], moves[i]) { SendingStep(prior, base, b, i); }
  }

  /** The stream never fails, whatever happens, exactly when the life's base is what the
      receiver holds. */
  lemma SafeIffBaseIsHeld(prior: seq<byte>, base: nat)
    ensures NeverFails(prior, base) <==> base == |prior|
  {
    if base == |prior| {
      forall run: seq<State>, moves: seq<Move>, k: nat | IsStream(run, moves, prior, base) && k < |run| ensures !run[k].failed {
        StreamSafe(run, moves, prior, k);
      }
    } else {
      var run, moves := WrongBaseFails(prior, base);
    }
  }

  // ---- a flush is such moves ---------------------------------------------------------------------------

  /** `n` frames sent one after the other. */
  function SentTimes(s: State, n: nat): State
    requires s.link.Some?
    ensures SentTimes(s, n).link.Some?
    decreases n
  {
    if n == 0 then s else SentTimes(Sent(s), n - 1)
  }

  function Ups(frames: seq<WireFrame>): seq<Up> {
    if frames == [] then [] else [JournalFrame(frames[0].offset, frames[0].bytes)] + Ups(frames[1..])
  }

  lemma {:induction false} MarkedFlushIsSends(s: State)
    requires s.link.Some? && s.link.value.sent == Some(Mark(s))
    ensures SentTimes(s, |Frames(s.journal, Mark(s))|) == FlushSent(s)
    decreases s.journal.base + |s.journal.buf| - Mark(s)
  {
    hide Chunk, Frames;
    NextFrame(s.journal, Mark(s));
    if Mark(s) < s.journal.base + |s.journal.buf| {
      MarkedFlushIsSends(Sent(s));
      SendThenFlush(s);
    } else {
      var up := s.link.value.up;
      assert up + Ups([]) == up;
    }
  }

  lemma EmptyFlushIsOneSend(s: State)
    requires s.link.Some? && Mark(s) >= s.journal.base + |s.journal.buf|
    ensures Frames(s.journal, Mark(s)) == [] && SentTimes(s, 1) == FlushSent(s)
  {
    var up := s.link.value.up;
    assert Chunk(s.journal, Mark(s)) == [] && up + Ups([]) == up;
    hide Chunk;
    assert SentTimes(s, 1) == SentTimes(Sent(s), 0);
  }

  lemma FirstSend(s: State)
    requires s.link.Some? && Mark(s) < s.journal.base + |s.journal.buf|
    ensures Sent(s).link.value.sent == Some(Mark(Sent(s)))
    ensures |Frames(s.journal, Mark(s))| == 1 + |Frames(s.journal, Mark(Sent(s)))|
  {
    hide Frames;
    NextFrame(s.journal, Mark(s));
  }

  /** The frames of a flush are what as many single sends put on the wire, and they leave the
      mark at the end of the journal; with nothing to send, one send just sets the mark. */
  lemma FlushIsSends(s: State)
    requires s.link.Some?
    ensures var n := |Frames(s.journal, Mark(s))|; SentTimes(s, if n == 0 then 1 else n) == FlushSent(s)
  {
    hide Frames, Chunk, Sent, FlushSent, Mark;
    if Mark(s) < s.journal.base + |s.journal.buf| {
      FirstSend(s);
      SameJournal(s);
      MarkedFlushIsSends(Sent(s));
      SendThenFlush(s);
      assert SentTimes(s, 1 + |Frames(s.journal, Mark(Sent(s)))|) == SentTimes(Sent(s), |Frames(s.journal, Mark(Sent(s)))|);
    } else {
      EmptyFlushIsOneSend(s);
    }
  }

  lemma SameJournal(s: State)
    requires s.link.Some?
    ensures Sent(s).link.Some? && Sent(s).journal == s.journal && Mark(Sent(s)) >= s.journal.base
  {
  }

  /** The state after a flush of everything. */
  function FlushSent(s: State): State
    requires s.link.Some?
  {
    var l, off := s.link.value, Mark(s);
    s.(link := Some(l.(up := l.up + Ups(Frames(s.journal, off)), sent := Some(EndOff(s.journal, off)))))
  }

  lemma SendThenFlush(s: State)
    requires s.link.Some? && Mark(s) < s.journal.base + |s.journal.buf|
    ensures FlushSent(Sent(s)) == FlushSent(s)
  {
    hide Chunk, Frames;
    var l, off := s.link.value, Mark(s);
    var chunk := Chunk(s.journal, off);
    NextFrame(s.journal, off);
    var rest := Frames(s.journal, off + |chunk|);
    assert ([WireFrame(s.journal.run, off, chunk)] + rest)[1..] == rest;
    assert (l.up + [JournalFrame(off, chunk)]) + Ups(rest) == l.up + ([JournalFrame(off, chunk)] + Ups(rest));
  }

  // ---- the operations are such moves ------------------------------------------------------------------

  /** The streamer's two maps say of this run what the state says. */
  ghost predicate Mirrors(sent: map<RunId, nat>, acked: map<RunId, nat>, s: State) {
    var run := s.journal.run;
    && (s.acked.Some? <==> run in acked) && (s.acked.Some? ==> acked[run] == s.acked.value)
    && (s.link.Some? ==>
          && (s.link.value.sent.Some? <==> run in sent)
          && (s.link.value.sent.Some? ==> sent[run] == s.link.value.sent.value))
  }

  /** The streamer starts where the state machine does, and sends the same frames. */
  lemma StartIsMark(s: State, sent: map<RunId, nat>, acked: map<RunId, nat>)
    requires s.link.Some? && Mirrors(sent, acked, s)
    ensures StartOff(sent, acked, s.journal) == Mark(s)
    ensures AllFrames([s.journal], sent, acked) == Frames(s.journal, Mark(s))
  {
    hide Frames;
    assert [s.journal][..0] == [];
  }

  /** A flush of one run's journal puts on the wire what the state machine's flush does. */
  method FlushInStream(st: Streamer, budget: nat, j: OpenJournal, ghost s: State) returns (frames: seq<WireFrame>, ok: bool)
    requires s.link.Some? && j == s.journal && Mirrors(st.sent, st.acked, s)
    modifies st`sent
    ensures ok <==> |Frames(s.journal, Mark(s))| <= budget
    ensures ok ==> FlushSent(s).link.value.up == s.link.value.up + Ups(frames) && Mirrors(st.sent, st.acked, FlushSent(s))
  {
    hide Frames, CarriesFromMark;
    StartIsMark(s, st.sent, st.acked);
    ghost var done;
    frames, ok, done := st.FlushJournals([j], budget);
    assert ok ==> [j][0].run in st.sent;
  }

  /** HelloAck, with this run among its offsets or not. */
  method HelloInStream(st: Streamer, known: Option<nat>, j: OpenJournal, ghost s: State)
    requires s.link.Some? && s.link.value.down != [] && s.link.value.down[0] == HelloAck(known)
    requires j == s.journal && Mirrors(st.sent, st.acked, s)
    modifies st
    ensures Mirrors(st.sent, st.acked, Heard(s))
  {
    if known.Some? {
      var offsets := [(j.run, known.value)];
      st.HelloAck(offsets);
    }
  }

  method AckInStream(st: Streamer, offset: nat, j: OpenJournal, ghost s: State)
    requires s.link.Some? && s.link.value.down != [] && s.link.value.down[0] == JournalAck(offset)
    requires j == s.journal && Mirrors(st.sent, st.acked, s)
    modifies st`acked
    ensures Mirrors(st.sent, st.acked, Heard(s))
  {
    st.JournalAck(j.run, offset);
  }

  /** A frame that arrives, at a receiver that holds what the state says. */
  method ReceiveInStream(held: RunReassembly, offset: nat, bytes: seq<byte>, cap: Option<nat>, ghost s: State) returns (r: Result<Option<nat>, IngestError>)
    requires s.link.Some? && s.link.value.up != [] && s.link.value.up[0] == JournalFrame(offset, bytes) && !s.failed
    requires held.buf == Held(s) && held.acked <= |held.buf|
    requires held.acked == if s.receiver.Some? then s.receiver.value.acked else 0
    modifies held
    ensures r.Err? <==> Delivered(s, cap).failed
    ensures r.Ok? ==> Delivered(s, cap).receiver == Some(Receiver(held.buf, held.acked))
    ensures r.Ok? ==> Delivered(s, cap).link.value.down == s.link.value.down + if r.value.Some? then [JournalAck(r.value.value)] else []
  {
    r := held.Receive(offset, bytes, cap);
  }
}
