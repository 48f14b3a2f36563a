/** A run's journal (crates/marid/src/journal.rs): append-only bytes addressed by offset,
    rolled into numbered segments that go to the local disk and then to the store. */
module Journals {
  import opened Basics

  /** FRAME_CHUNK: 64 KiB. */
  const FRAME_CHUNK: nat := 65536

  type Segments = map<nat, seq<byte>>

  // ---- what a flush should do ------------------------------------------------------

  /** The segments that are ready in `tail`: full ones, and what is left once finished. */
  function Cut(tail: seq<byte>, size: nat, finished: bool): (segs: seq<seq<byte>>)
    requires size > 0
  {
    if tail == [] then []
    else if |tail| >= size then [tail[..size]] + Cut(tail[size..], size, finished)
    else if finished then [tail]
    else []
  }

  function Flat(segs: seq<seq<byte>>): seq<byte> {
    if segs == [] then [] else segs[0] + Flat(segs[1..])
  }

  /** `segs` stored under consecutive ordinals. */
  function PutAll(m: Segments, first: nat, segs: seq<seq<byte>>): Segments
    decreases |segs|
  {
    if segs == [] then m else PutAll(m[first := segs[0]], first + 1, segs[1..])
  }

  /** What is cut is the front of the tail; every segment has the full size, save a last one
      of a finished journal, and nothing that is ready stays behind. */
  lemma {:induction false} CutIsExact(tail: seq<byte>, size: nat, finished: bool)
    requires size > 0
    ensures var segs := Cut(tail, size, finished);
      && Flat(segs) <= tail
      && |tail| - |Flat(segs)| < size
      && (finished ==> Flat(segs) == tail)
      && (forall i :: 0 <= i < |segs| ==> 0 < |segs[i]| <= size && (!finished || i < |segs| - 1 ==> |segs[i]| == size))
    decreases |tail|
  {
    if |tail| >= size {
      var rest := tail[size..];
      CutIsExact(rest, size, finished);
      assert tail == tail[..size] + rest;
      assert Cut(tail, size, finished)[1..] == Cut(rest, size, finished);
      if finished && Cut(rest, size, finished) == [] { assert Flat(Cut(rest, size, finished)) == []; }
    } else if tail != [] && finished {
      assert [tail][1..] == [];
      assert Flat([tail]) == tail + [];
    }
  }

  /** One turn of the flush: `take` is what the branch on the available bytes picks. */
  lemma CutStep(tail: seq<byte>, size: nat, finished: bool, take: nat)
    requires size > 0 && take == if |tail| >= size then size else if finished then |tail| else 0
    ensures Cut(tail, size, finished) == if take == 0 then [] else [tail[..take]] + Cut(tail[take..], size, finished)
  {
    if take == |tail| {
      assert tail[take..] == [];
      assert tail[..take] == tail;
    }
  }

  lemma NextReady(ready: seq<seq<byte>>, k: nat, s: seq<byte>, rest: seq<seq<byte>>)
    requires k <= |ready| && ready[k..] == [s] + rest
    ensures k < |ready| && ready[k] == s && ready[k + 1..] == rest && ready[..k + 1] == ready[..k] + [s]
  {
    assert ready[k..][0] == s;
    assert ready[k + 1..] == ready[k..][1..];
  }

  lemma {:induction false} FlatSnoc(segs: seq<seq<byte>>, s: seq<byte>)
    ensures Flat(segs + [s]) == Flat(segs) + s
  {
    if segs == [] {
      assert [s][1..] == [] && s + [] == s;
    } else {
      FlatSnoc(segs[1..], s);
      assert (segs + [s])[1..] == segs[1..] + [s];
      assert segs[0] + (Flat(segs[1..]) + s) == segs[0] + Flat(segs[1..]) + s;
    }
  }

  lemma {:induction false} PutAllSnoc(m: Segments, first: nat, segs: seq<seq<byte>>, s: seq<byte>)
    ensures PutAll(m, first, segs + [s]) == PutAll(m, first, segs)[first + |segs| := s]
    decreases |segs|
  {
    if segs == [] {
      assert (segs + [s])[1..] == [];
    } else {
      PutAllSnoc(m[first := segs[0]], first + 1, segs[1..], s);
      assert (segs + [s])[1..] == segs[1..] + [s];
    }
  }

  lemma {:induction false} PutAllHolds(m: Segments, first: nat, segs: seq<seq<byte>>)
    ensures forall i :: i in PutAll(m, first, segs) <==> i in m || first <= i < first + |segs|
    ensures forall i :: first <= i < first + |segs| ==> PutAll(m, first, segs)[i] == segs[i - first]
    ensures forall i :: i in m && !(first <= i < first + |segs|) ==> PutAll(m, first, segs)[i] == m[i]
    decreases |segs|
  {
    if segs != [] { PutAllHolds(m[first := segs[0]], first + 1, segs[1..]); }
  }

  /** What goes wrong in a flush, if anything: after so many segments, the local write stops
      short, or the upload fails, whether or not the object arrived. */
  datatype Fault = NoFault | WriteFails(after: nat, kept: nat) | UploadFails(after: nat, arrived: bool)

  predicate FailsAt(fault: Fault, k: nat) {
    !fault.NoFault? && fault.after == k
  }

  /** How many of `n` ready segments are committed. */
  function Committed(fault: Fault, n: nat): (k: nat)
    ensures k <= n
  {
    if fault.NoFault? || fault.after >= n then n else fault.after
  }

  function Take(s: seq<byte>, n: nat): seq<byte> {
    if n <= |s| then s[..n] else s
  }

  /** The local files after a flush of `ready` from ordinal `first`. */
  function LocalAfter(m: Segments, first: nat, ready: seq<seq<byte>>, fault: Fault): Segments {
    var k := Committed(fault, |ready|);
    var done := PutAll(m, first, ready[..k]);
    if k == |ready| then done
    else done[first + k := if fault.WriteFails? then Take(ready[k], fault.kept) else ready[k]]
  }

  /** The stored objects after a flush of `ready` from ordinal `first`. */
  function StoredAfter(m: Segments, first: nat, ready: seq<seq<byte>>, fault: Fault): Segments {
    var k := Committed(fault, |ready|);
    var done := PutAll(m, first, ready[..k]);
    if k < |ready| && fault.UploadFails? && fault.arrived then done[first + k := ready[k]] else done
  }

  lemma NothingYet(local: Segments, stored: Segments, first: nat)
    ensures Flat([]) == [] && PutAll(local, first, []) == local && PutAll(stored, first, []) == stored
  {
  }

  /** The run's segment files on the local disk and its objects in the store. */
  class SegmentFiles {
    var local: Segments
    var stored: Segments

    method WriteLocal(seq_: nat, bytes: seq<byte>, fails: bool, kept: nat) returns (ok: bool)
      modifies this`local
      ensures ok == !fails
      ensures local == old(local)[seq_ := if fails then Take(bytes, kept) else bytes]
    {
      local := local[seq_ := if fails then Take(bytes, kept) else bytes];
      return !fails;
    }

    method Upload(seq_: nat, bytes: seq<byte>, fails: bool, arrived: bool) returns (ok: bool)
      modifies this`stored
      ensures ok == !fails
      ensures stored == if fails && !arrived then old(stored) else old(stored)[seq_ := bytes]
    {
      if !fails || arrived { stored := stored[seq_ := bytes]; }
      return !fails;
    }
  }

  class Journal {
    const files: SegmentFiles
    const segmentSize: nat
    /** offset of the first byte this instance holds */
    const base: nat
    var buf: seq<byte>
    var uploadedUpTo: nat
    var nextSeq: nat
    var finished: bool

    ghost predicate Valid()
      reads this
    {
      segmentSize > 0 && base <= uploadedUpTo <= base + |buf|
    }

    /** Continue an earlier life of the run: offsets from `baseOffset`, ordinals from `firstSeq`. */
    constructor Resumed(files: SegmentFiles, segmentSize: nat, baseOffset: nat, firstSeq: nat)
      ensures Valid() && this.files == files && base == baseOffset && buf == [] && !finished
      ensures this.segmentSize == (if segmentSize == 0 then 1 else segmentSize)
      ensures uploadedUpTo == baseOffset && nextSeq == firstSeq
    {
      this.files := files;
      this.segmentSize := if segmentSize == 0 then 1 else segmentSize;
      base := baseOffset;
      buf, uploadedUpTo, nextSeq, finished := [], baseOffset, firstSeq, false;
    }

    function Len(): nat
      reads this
    {
      base + |buf|
    }

    /** The bytes not yet in a segment. */
    function Tail(): seq<byte>
      requires Valid()
      reads this
    {
      buf[uploadedUpTo - base..]
    }

    method Append(data: seq<byte>)
      requires Valid()
      modifies this`buf
      ensures Valid() && buf == old(buf) + data
    {
      if data == [] { return; }
      buf := buf + data;
    }

    method Finish()
      modifies this`finished
      ensures finished
    {
      finished := true;
    }

    /** Up to `max` bytes from offset `from`; nothing below the base, nothing past the end. */
    function ReadFrom(from: nat, max: nat): (r: seq<byte>)
      reads this
      ensures r == [] <==> from < base || from >= Len() || max == 0
      ensures |r| <= max && (r != [] ==> from + |r| <= Len() && r == buf[from - base..][..|r|])
      ensures r != [] && |r| < max ==> from + |r| == Len()
    {
      if from < base || from >= Len() then []
      else
        var start := from - base;
        var end := if start + max <= |buf| then start + max else |buf|;
        buf[start..end]
    }

    /** Write every ready segment to the local disk, upload it, and only then commit it. */
    method FlushReadySegments(fault: Fault) returns (ok: bool)
      requires Valid()
      modifies this`uploadedUpTo, this`nextSeq, files
      ensures Valid()
      ensures var ready := old(Cut(Tail(), segmentSize, finished));
        var k := Committed(fault, |ready|);
        && ok == (k == |ready|)
        && uploadedUpTo == old(uploadedUpTo) + |Flat(ready[..k])| && nextSeq == old(nextSeq) + k
        && files.local == LocalAfter(old(files.local), old(nextSeq), ready, fault)
        && files.stored == StoredAfter(old(files.stored), old(nextSeq), ready, fault)
    {
      hide Flat, PutAll, Cut, Take;
      ghost var ready := Cut(Tail(), segmentSize, finished);
      ghost var first, local, stored := nextSeq, files.local, files.stored;
      var k := 0;
      var more := true;
      assert ready[..0] == [] && Flat([]) == [] && PutAll(local, first, []) == local && PutAll(stored, first, []) == stored by { NothingYet(local, stored, first); }
      while more
        invariant Valid() && k <= Committed(fault, |ready|)
        invariant more || k == |ready|
        invariant uploadedUpTo == old(uploadedUpTo) + |Flat(ready[..k])| && nextSeq == first + k
        invariant ready[k..] == Cut(Tail(), segmentSize, finished)
        invariant files.local == PutAll(local, first, ready[..k])
        invariant files.stored == PutAll(stored, first, ready[..k])
        decreases |ready| - k, more
      {
        // reserve
        var avail := Len() - uploadedUpTo;
        var take := if avail >= segmentSize then segmentSize else if finished then avail else 0;
        CutStep(Tail(), segmentSize, finished, take);
        if take == 0 {
          more := false;
        } else {
          var start, at := uploadedUpTo, uploadedUpTo - base;
          var bytes := buf[at..at + take];
          assert Tail()[..take] == bytes && Tail()[take..] == buf[at + take..];
          NextReady(ready, k, bytes, Cut(buf[at + take..], segmentSize, finished));
          FlatSnoc(ready[..k], bytes);
          PutAllSnoc(local, first, ready[..k], bytes);
          PutAllSnoc(stored, first, ready[..k], bytes);
          var wrote := files.WriteLocal(nextSeq, bytes, fault.WriteFails? && fault.after == k, if fault.WriteFails? then fault.kept else 0);
          if !wrote { return false; }
          var sent := files.Upload(nextSeq, bytes, fault.UploadFails? && fault.after == k, fault.UploadFails? && fault.arrived);
          if !sent { return false; }
          // commit
          if uploadedUpTo == start {
            uploadedUpTo, nextSeq := start + |bytes|, nextSeq + 1;
          }
          k := k + 1;
        }
      }
      return true;
    }
  }
}
