/** Storage formats (crates/mari-proto/src/manifest.rs). */
module Manifests {
  import opened Basics
  import opened Ordering

  type u64 = x: nat | x < 0x1_0000_0000_0000_0000

  datatype EntryKind = FileKind | DirKind | SymlinkKind

  /** A content address. blake3 is taken to be injective, so the address of some bytes is
      those bytes under a constructor; `Malformed` is text that is not 64 lower-case hex
      digits, which only an untrusted manifest can carry. */
  datatype ChunkId = Blake3(plain: seq<byte>) | Malformed(text: string)

  datatype ChunkRef = ChunkRef(chunk: ChunkId, len: u64)

  datatype ManifestEntry = ManifestEntry(
    path: string,
    kind: EntryKind,
    mode: nat,
    size: u64,
    symlinkTarget: Option<string>,
    chunks: seq<ChunkRef>)

  type ManifestId = string

  datatype Manifest = Manifest(parent: Option<ManifestId>, createdAt: nat, entries: seq<ManifestEntry>)

  /** The distinct chunks that entries refer to. */
  function ChunksOf(es: seq<ManifestEntry>): set<ChunkId> {
    set e, c | e in es && c in e.chunks :: c.chunk
  }

  /** The distinct chunks a manifest refers to itself. */
  function ManifestChunks(m: Manifest): set<ChunkId> {
    ChunksOf(m.entries)
  }

  /** All references, repeated ones included. */
  function RefCount(es: seq<ManifestEntry>): nat {
    if es == [] then 0 else |es[0].chunks| + RefCount(es[1..])
  }

  /** Entries in path order, one per path. */
  ghost predicate SortedByPath(es: seq<ManifestEntry>) {
    forall i, j :: 0 <= i < j < |es| ==> Less(es[i].path, es[j].path)
  }

  function PathOf(e: ManifestEntry): string {
    e.path
  }

  lemma PathSorted(es: seq<ManifestEntry>)
    ensures SortedByPath(es) <==> SortedBy(es, PathOf, Less)
  {
    if SortedBy(es, PathOf, Less) {
      forall i, j | 0 <= i < j < |es| ensures Less(es[i].path, es[j].path) { assert Less(PathOf(es[i]), PathOf(es[j])); }
    }
  }

  lemma NoneSorted()
    ensures SortedByPath([])
  {
  }

  /** A sorted list is determined by its entries. */
  lemma SortedEntriesUnique(a: seq<ManifestEntry>, b: seq<ManifestEntry>)
    requires SortedByPath(a) && SortedByPath(b)
    requires forall e :: e in a <==> e in b
    ensures a == b
  {
    LessIsStrict();
    PathSorted(a);
    PathSorted(b);
    SortedUnique(a, b, PathOf, Less);
  }
}
