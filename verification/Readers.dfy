/** The control plane's inline file reader (packages/control-plane/src/manifest-store.ts),
    which has to hand out the bytes a restore would write. */
module Readers {
  import opened Basics
  import opened Errors
  import opened Manifests
  import opened ChunkStores
  import opened Restores

  /** MAX_INLINE_FILE_BYTES: 1 MiB */
  const MAX_INLINE_FILE_BYTES: nat := 0x10_0000

  datatype ReadError =
    | PathNotFound
    | NotAFile
    | FileTooLarge
    | ChunkUnreadable(error: Error)
    | ChunkLengthMismatch
    | ManifestSizeMismatch

  /** The first entry whose path normalises to the same text. */
  function FindEntry(es: seq<ManifestEntry>, path: string, normalize: string -> string): Option<ManifestEntry> {
    if es == [] then None
    else if normalize(es[0].path) == normalize(path) then Some(es[0])
    else FindEntry(es[1..], path, normalize)
  }

  /** An entry no other entry shares its normalised path with is the one that is found. */
  lemma {:induction false} FindsUnique(es: seq<ManifestEntry>, e: ManifestEntry, path: string, normalize: string -> string)
    requires e in es && normalize(e.path) == normalize(path)
    requires forall x :: x in es && normalize(x.path) == normalize(path) ==> x == e
    ensures FindEntry(es, path, normalize) == Some(e)
  {
    if es[0] != e {
      assert es[0] in es;
      FindsUnique(es[1..], e, path, normalize);
    }
  }

  /** The store has under `id` the very bytes that `id` is the address of, and they are this long. */
  predicate Holds(chunks: Chunks, id: ChunkId, len: nat) {
    id.Blake3? && id in chunks && chunks[id].body == Zstd(id.plain) && |id.plain| == len
  }

  /** Fetch one chunk: only bytes whose address and length are those asked for get out, and a
      length is complained of only in bytes that were verified. */
  method GetChunk(store: ChunkStore, id: ChunkId, expectedLen: nat) returns (r: Result<seq<byte>, ReadError>)
    ensures r.Ok? <==> Holds(store.chunks, id, expectedLen)
    ensures r.Ok? ==> Address(r.value) == id && |r.value| == expectedLen
    ensures r == Err(ChunkLengthMismatch) <==> id.Blake3? && Holds(store.chunks, id, |id.plain|) && |id.plain| != expectedLen
    ensures r == Err(ChunkUnreadable(InvalidManifest)) <==> id.Malformed?
    ensures r == Err(ChunkUnreadable(ChunkMissing)) <==> id.Blake3? && id !in store.chunks
    ensures r == Err(ChunkUnreadable(ChunkUndecodable)) <==> id.Blake3? && id in store.chunks && store.chunks[id].body.Garbage?
    ensures r == Err(ChunkUnreadable(ChunkCorrupted)) <==>
      id.Blake3? && id in store.chunks && store.chunks[id].body.Zstd? && store.chunks[id].body.plain != id.plain
  {
    var got := store.GetChunk(id);
    if got.Err? { return Err(ChunkUnreadable(got.error)); }
    if |got.value| != expectedLen { return Err(ChunkLengthMismatch); }
    return Ok(got.value);
  }

  lemma HoldsMeansFetched(chunks: Chunks, id: ChunkId, len: nat)
    ensures Holds(chunks, id, len) <==> Fetch(chunks, id).Ok? && |Fetch(chunks, id).value| == len
    ensures Holds(chunks, id, len) ==> Fetch(chunks, id) == Ok(id.plain)
  {
  }

  // ---- a file, read reference by reference -------------------------------------------------------

  /** The bytes the references stand for if they fill exactly `room`, or the first thing wrong. */
  function InlineContent(chunks: Chunks, refs: seq<ChunkRef>, room: nat): Result<seq<byte>, ReadError> {
    if refs == [] then if room == 0 then Ok([]) else Err(ManifestSizeMismatch)
    else
      var first := Fetch(chunks, refs[0].chunk);
      if first.Err? then Err(ChunkUnreadable(first.error))
      else if |first.value| != refs[0].len then Err(ChunkLengthMismatch)
      else if |first.value| > room then Err(ManifestSizeMismatch)
      else
        var rest := InlineContent(chunks, refs[1..], room - |first.value|);
        if rest.Err? then rest else Ok(first.value + rest.value)
  }

  /** The reader gets the bytes of a file exactly when a restore does, and the same bytes. */
  lemma {:induction false} InlineIsRestored(chunks: Chunks, refs: seq<ChunkRef>, room: nat)
    ensures InlineContent(chunks, refs, room).Ok? <==> Content(chunks, refs).Ok? && TotalLen(refs) == room
    ensures InlineContent(chunks, refs, room).Ok? ==> InlineContent(chunks, refs, room).value == Content(chunks, refs).value
  {
    hide Fetch;
    if refs != [] {
      var first := Fetch(chunks, refs[0].chunk);
      if first.Ok? && |first.value| == refs[0].len && |first.value| <= room {
        InlineIsRestored(chunks, refs[1..], room - |first.value|);
      }
    }
  }

  /** Entry `k` is the first whose normalised path is that of `path`. */
  ghost predicate IsFirst(es: seq<ManifestEntry>, k: nat, path: string, normalize: string -> string) {
    && k < |es| && normalize(es[k].path) == normalize(path)
    && forall i :: 0 <= i < k ==> normalize(es[i].path) != normalize(path)
  }

  lemma {:induction false} FindsFirst(es: seq<ManifestEntry>, path: string, normalize: string -> string)
    ensures forall k: nat :: IsFirst(es, k, path, normalize) ==> FindEntry(es, path, normalize) == Some(es[k])
    ensures FindEntry(es, path, normalize).None? <==> forall e :: e in es ==> normalize(e.path) != normalize(path)
  {
    if es != [] {
      FindsFirst(es[1..], path, normalize);
      assert es[0] in es && forall e :: e in es <==> e == es[0] || e in es[1..];
      forall k: nat | IsFirst(es, k, path, normalize) ensures FindEntry(es, path, normalize) == Some(es[k]) {
        if k > 0 {
          assert normalize(es[0].path) != normalize(path);
          assert forall i :: 0 <= i < |es[1..]| ==> es[1..][i] == es[i + 1];
          assert IsFirst(es[1..], k - 1, path, normalize);
        }
      }
    }
  }

  /** What reading an entry comes to. */
  function Inline(chunks: Chunks, e: ManifestEntry): Result<seq<byte>, ReadError> {
    if e.kind != FileKind then Err(NotAFile)
    else if e.size > MAX_INLINE_FILE_BYTES then Err(FileTooLarge)
    else InlineContent(chunks, e.chunks, e.size)
  }

  /** What is read and what is still to come are what the whole comes to. */
  ghost predicate Reading(chunks: Chunks, e: ManifestEntry, k: nat, done: seq<byte>)
    requires k <= |e.chunks|
  {
    && |done| <= e.size
    && var rest := InlineContent(chunks, e.chunks[k..], e.size - |done|);
      InlineContent(chunks, e.chunks, e.size) == if rest.Ok? then Ok(done + rest.value) else rest
  }

  lemma ReadBegins(chunks: Chunks, e: ManifestEntry)
    ensures Reading(chunks, e, 0, [])
  {
    assert e.chunks[0..] == e.chunks;
    var rest := InlineContent(chunks, e.chunks, e.size);
    if rest.Ok? { assert [] + rest.value == rest.value; }
  }

  lemma ReadOne(chunks: Chunks, e: ManifestEntry, k: nat, done: seq<byte>, plain: seq<byte>)
    requires k < |e.chunks| && Reading(chunks, e, k, done)
    requires Fetch(chunks, e.chunks[k].chunk) == Ok(plain) && |plain| == e.chunks[k].len
    ensures if |done| + |plain| <= e.size then Reading(chunks, e, k + 1, done + plain)
      else InlineContent(chunks, e.chunks, e.size) == Err(ManifestSizeMismatch)
  {
    hide Fetch;
    assert e.chunks[k..][1..] == e.chunks[k + 1..];
    if |done| + |plain| <= e.size {
      var rest := InlineContent(chunks, e.chunks[k + 1..], e.size - |done + plain|);
      if rest.Ok? { assert done + (plain + rest.value) == done + plain + rest.value; }
    }
  }

  /** A chunk that cannot be used decides the whole. */
  lemma ReadFails(chunks: Chunks, e: ManifestEntry, k: nat, done: seq<byte>)
    requires k < |e.chunks| && Reading(chunks, e, k, done)
    ensures var got := Fetch(chunks, e.chunks[k].chunk);
      && (got.Err? ==> InlineContent(chunks, e.chunks, e.size) == Err(ChunkUnreadable(got.error)))
      && (got.Ok? && |got.value| != e.chunks[k].len ==> InlineContent(chunks, e.chunks, e.size) == Err(ChunkLengthMismatch))
  {
    hide Fetch;
  }

  lemma ReadEnds(chunks: Chunks, e: ManifestEntry, done: seq<byte>)
    requires Reading(chunks, e, |e.chunks|, done)
    ensures InlineContent(chunks, e.chunks, e.size) == if |done| == e.size then Ok(done) else Err(ManifestSizeMismatch)
  {
    assert e.chunks[|e.chunks|..] == [] && done + [] == done;
  }

  lemma GotMeansFetched(chunks: Chunks, id: ChunkId, len: nat, r: Result<seq<byte>, ReadError>)
    requires r.Ok? <==> Holds(chunks, id, len)
    requires r.Ok? ==> Address(r.value) == id && |r.value| == len
    requires r == Err(ChunkLengthMismatch) <==> id.Blake3? && Holds(chunks, id, |id.plain|) && |id.plain| != len
    requires r == Err(ChunkUnreadable(InvalidManifest)) <==> id.Malformed?
    requires r == Err(ChunkUnreadable(ChunkMissing)) <==> id.Blake3? && id !in chunks
    requires r == Err(ChunkUnreadable(ChunkUndecodable)) <==> id.Blake3? && id in chunks && chunks[id].body.Garbage?
    requires r == Err(ChunkUnreadable(ChunkCorrupted)) <==>
      id.Blake3? && id in chunks && chunks[id].body.Zstd? && chunks[id].body.plain != id.plain
    ensures var got := Fetch(chunks, id);
      r == if got.Err? then Err(ChunkUnreadable(got.error)) else if |got.value| != len then Err(ChunkLengthMismatch) else Ok(got.value)
  {
  }

  /** Read a small file: each distinct chunk fetched and verified once, the bytes assembled in
      reference order into a buffer of the recorded size. It is the first entry with the path's
      normalised text that is read, and the cache does not show. */
  method ReadFile(store: ChunkStore, es: seq<ManifestEntry>, path: string, normalize: string -> string)
      returns (r: Result<seq<byte>, ReadError>)
    ensures r == Err(PathNotFound) <==> forall e :: e in es ==> normalize(e.path) != normalize(path)
    ensures forall k: nat :: IsFirst(es, k, path, normalize) ==> r == Inline(store.chunks, es[k])
    ensures forall k: nat :: IsFirst(es, k, path, normalize) && es[k].kind == FileKind && es[k].size <= MAX_INLINE_FILE_BYTES ==>
      (r.Ok? <==> FileContent(store.chunks, es[k]).Ok?) && (r.Ok? ==> r.value == FileContent(store.chunks, es[k]).value)
  {
    hide Fetch, Content, TotalLen, InlineContent, Reading, Holds, FindEntry, IsFirst;
    FindsFirst(es, path, normalize);
    var found := FindEntry(es, path, normalize);
    if found.None? {
      assert forall k: nat :: !IsFirst(es, k, path, normalize);
      return Err(PathNotFound);
    }
    var entry := found.value;
    NeverNotFound(store.chunks, entry.chunks, entry.size);
    InlineIsRestored(store.chunks, entry.chunks, entry.size);
    if entry.kind != FileKind { return Err(NotAFile); }
    if entry.size > MAX_INLINE_FILE_BYTES { return Err(FileTooLarge); }
    var out := new byte[entry.size];
    var cursor: nat := 0;
    var fetched: map<ChunkId, seq<byte>> := map[];
    ghost var chunks := store.chunks;
    assert out[..0] == [];
    ReadBegins(chunks, entry);
    for k := 0 to |entry.chunks|
      invariant cursor <= out.Length && Reading(chunks, entry, k, out[..cursor])
      invariant forall id :: id in fetched ==> Fetch(chunks, id) == Ok(fetched[id])
    {
      var ref := entry.chunks[k];
      var plain: seq<byte>;
      ReadFails(chunks, entry, k, out[..cursor]);
      if ref.chunk !in fetched {
        var got := GetChunk(store, ref.chunk, ref.len);
        GotMeansFetched(chunks, ref.chunk, ref.len, got);
        if got.Err? { return got; }
        plain := got.value;
        fetched := fetched[ref.chunk := plain];
      } else {
        plain := fetched[ref.chunk];
        if |plain| != ref.len { return Err(ChunkLengthMismatch); }
      }
      ReadOne(chunks, entry, k, out[..cursor], plain);
      if cursor + |plain| > out.Length { return Err(ManifestSizeMismatch); }
      PutAt(out, cursor, plain);
      cursor := cursor + |plain|;
    }
    ReadEnds(chunks, entry, out[..cursor]);
    if cursor != entry.size { return Err(ManifestSizeMismatch); }
    return Ok(out[..cursor]);
  }

  lemma {:induction false} NeverNotFound(chunks: Chunks, refs: seq<ChunkRef>, room: nat)
    ensures InlineContent(chunks, refs, room) != Err(PathNotFound)
  {
    if refs != [] {
      var first := Fetch(chunks, refs[0].chunk);
      if first.Ok? && |first.value| <= room { NeverNotFound(chunks, refs[1..], room - |first.value|); }
    }
  }
}
