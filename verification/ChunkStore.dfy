/** The content-addressed store (crates/mari-core/src/store.rs). */
module ChunkStores {
  import opened Basics
  import opened Errors
  import opened Manifests

  /** A stored chunk body: a zstd frame, or bytes that are not one. */
  datatype Body = Zstd(plain: seq<byte>) | Garbage

  datatype Stored = Stored(body: Body, mtime: Option<nat>)

  type Chunks = map<ChunkId, Stored>

  /** The content address of some bytes. */
  function Address(plain: seq<byte>): ChunkId {
    Blake3(plain)
  }

  /** Read a chunk: decompress, re-hash, and only then hand the bytes back. */
  function Fetch(chunks: Chunks, id: ChunkId): (r: Result<seq<byte>, Error>)
    ensures r.Ok? ==> Address(r.value) == id && id in chunks
  {
    if id.Malformed? then Err(InvalidManifest)
    else if id !in chunks then Err(ChunkMissing)
    else match chunks[id].body
      case Garbage => Err(ChunkUndecodable)
      case Zstd(plain) => if Address(plain) != id then Err(ChunkCorrupted) else Ok(plain)
  }

  /** Every body is what its key says; true of a store only `PutChunk` writes to. */
  ghost predicate Sound(chunks: Chunks) {
    forall id :: id in chunks ==> id.Blake3? && chunks[id].body == Zstd(id.plain)
  }

  predicate IsAddress(id: string) {
    |id| == 64 && forall i :: 0 <= i < |id| ==> '0' <= id[i] <= '9' || 'a' <= id[i] <= 'f'
  }

  type ManifestMap = map<ManifestId, Manifest>

  /** Load a manifest by id; text that is not a content address is refused first. */
  function Load(manifests: ManifestMap, id: ManifestId): Result<Manifest, Error> {
    if !IsAddress(id) then Err(InvalidManifest)
    else if id in manifests then Ok(manifests[id]) else Err(ManifestNotFound)
  }

  // ---- what an address is ------------------------------------------------------------------

  function HexDigit(n: nat): char
    requires n < 16
  {
    "0123456789abcdef"[n]
  }

  /** Two lower-case digits a byte. */
  function Hex(raw: seq<byte>): (r: string)
    ensures |r| == 2 * |raw|
  {
    if raw == [] then "" else [HexDigit(raw[0] as int / 16), HexDigit(raw[0] as int % 16)] + Hex(raw[1..])
  }

  predicate IsDigit(c: char) {
    exists n: nat :: n < 16 && c == HexDigit(n)
  }

  lemma DigitIff(c: char)
    ensures IsDigit(c) <==> '0' <= c <= '9' || 'a' <= c <= 'f'
  {
    if '0' <= c <= '9' { assert c == HexDigit(c as int - '0' as int); }
    if 'a' <= c <= 'f' { assert c == HexDigit(c as int - 'a' as int + 10); }
  }

  lemma {:induction false} HexIsDigits(raw: seq<byte>)
    ensures forall c :: c in Hex(raw) ==> IsDigit(c)
  {
    if raw != [] { HexIsDigits(raw[1..]); }
  }

  lemma HexOne(high: nat, low: nat, rest: seq<byte>)
    requires high < 16 && low < 16
    ensures Hex([16 * high + low] + rest) == [HexDigit(high), HexDigit(low)] + Hex(rest)
  {
    hide HexDigit;
    var raw: seq<byte> := [16 * high + low] + rest;
    assert raw[0] as int / 16 == high && raw[0] as int % 16 == low && raw[1..] == rest;
  }

  lemma {:induction false} DigitsAreHex(text: string) returns (raw: seq<byte>)
    requires |text| % 2 == 0 && forall c :: c in text ==> IsDigit(c)
    ensures Hex(raw) == text
    decreases |text|
  {
    hide HexDigit, Hex;
    if text == "" {
      raw := [];
      assert Hex([]) == "" by { assert |Hex([])| == 0; }
    } else {
      assert IsDigit(text[0]) && IsDigit(text[1]);
      var high: nat :| high < 16 && text[0] == HexDigit(high);
      var low: nat :| low < 16 && text[1] == HexDigit(low);
      var rest := DigitsAreHex(text[2..]);
      HexOne(high, low, rest);
      raw := [16 * high + low] + rest;
      assert text == [text[0], text[1]] + text[2..];
    }
  }

  /** The addresses are exactly what 32 bytes spell in lower-case hex. */
  lemma AddressesAreHex(id: string)
    ensures IsAddress(id) <==> exists raw: seq<byte> :: |raw| == 32 && Hex(raw) == id
  {
    forall c ensures IsDigit(c) <==> '0' <= c <= '9' || 'a' <= c <= 'f' { DigitIff(c); }
    if IsAddress(id) {
      var raw := DigitsAreHex(id);
    }
    if raw: seq<byte> :| |raw| == 32 && Hex(raw) == id {
      HexIsDigits(raw);
      assert forall i :: 0 <= i < |id| ==> IsDigit(id[i]);
    }
  }

  /** A manifest is found exactly under the hex text of 32 bytes that the store has it under; any
      other text is refused as malformed, and hex text the store does not have as not found. */
  lemma LoadsExactly(ms: ManifestMap, id: ManifestId)
    ensures (exists raw: seq<byte> :: |raw| == 32 && Hex(raw) == id) ==>
      Load(ms, id) == if id in ms then Ok(ms[id]) else Err(ManifestNotFound)
    ensures !(exists raw: seq<byte> :: |raw| == 32 && Hex(raw) == id) ==> Load(ms, id) == Err(InvalidManifest)
  {
    AddressesAreHex(id);
  }

  class ChunkStore {
    var chunks: Chunks
    var manifests: ManifestMap

    function GetChunk(id: ChunkId): Result<seq<byte>, Error>
      reads this
    {
      Fetch(chunks, id)
    }

    function GetManifest(id: ManifestId): Result<Manifest, Error>
      reads this
    {
      Load(manifests, id)
    }

    /** Which of `ids` the store does not hold. */
    function MissingChunks(ids: set<ChunkId>): set<ChunkId>
      reads this
    {
      ids - chunks.Keys
    }

    /** Store a body under the address of its plaintext; `now` is the store's clock. */
    method PutChunk(bytes: seq<byte>, now: nat) returns (id: ChunkId)
      modifies this`chunks
      ensures id == Address(bytes)
      ensures chunks == old(chunks)[id := Stored(Zstd(bytes), Some(now))]
      ensures old(Sound(chunks)) ==> Sound(chunks)
    {
      id := Address(bytes);
      chunks := chunks[id := Stored(Zstd(bytes), Some(now))];
    }

    method PutManifest(id: ManifestId, m: Manifest)
      modifies this`manifests
      ensures manifests == old(manifests)[id := m]
    {
      manifests := manifests[id := m];
    }

    method DeleteChunk(id: ChunkId) returns (r: Result<(), Error>)
      modifies this`chunks
      ensures r == if id.Malformed? then Err(InvalidManifest) else Ok(())
      ensures chunks == if r.Ok? then old(chunks) - {id} else old(chunks)
    {
      if id.Malformed? { return Err(InvalidManifest); }
      chunks := chunks - {id};
      return Ok(());
    }
  }
}
