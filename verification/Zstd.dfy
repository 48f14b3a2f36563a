/** The chunk bodies the control plane writes itself: zstd frames of raw blocks
    (packages/control-plane/src/manifest-store.ts), against a decoder written from section
    3.1.1 of RFC 8878 for single-segment frames of raw blocks. */
module ZstdFrames {
  import opened Basics

  type Bytes = seq<byte>

  /** 128 KiB */
  const RAW_BLOCK_MAX: nat := 131072

  // ---- what a frame of raw blocks is -----------------------------------------------------

  /** 24 bits, little-endian: last-block flag, block type 0 (raw), block size. */
  function BlockHeader(last: bool, size: nat): (r: Bytes)
    requires size <= RAW_BLOCK_MAX
    ensures |r| == 3
  {
    var header := (if last then 1 else 0) + size * 8;
    [header % 256, header / 256 % 256, header / 65536 % 256]
  }

  /** Little-endian, truncated to 32 bits. */
  function U32Le(n: nat): (r: Bytes)
    ensures |r| == 4
  {
    [n % 256, n / 256 % 256, n / 0x1_0000 % 256, n / 0x100_0000 % 256]
  }

  const MAGIC: Bytes := [0x28, 0xb5, 0x2f, 0xfd]

  /** Magic number, frame header descriptor, content size. */
  function FrameHeader(n: nat): (r: Bytes)
    ensures |r| == 9
  {
    MAGIC + [0xa0] + U32Le(n)
  }

  function Blocks(plain: Bytes): Bytes
    decreases |plain|
  {
    if |plain| <= RAW_BLOCK_MAX then BlockHeader(true, |plain|) + plain
    else BlockHeader(false, RAW_BLOCK_MAX) + plain[..RAW_BLOCK_MAX] + Blocks(plain[RAW_BLOCK_MAX..])
  }

  function Encoded(plain: Bytes): Bytes {
    FrameHeader(|plain|) + Blocks(plain)
  }

  /** The number of blocks: at least one, also for nothing. */
  function BlockCount(n: nat): (k: nat)
    ensures k >= 1
  {
    if n == 0 then 1 else (n + RAW_BLOCK_MAX - 1) / RAW_BLOCK_MAX
  }

  lemma CountStep(n: nat)
    requires n > RAW_BLOCK_MAX
    ensures BlockCount(n) == BlockCount(n - RAW_BLOCK_MAX) + 1
  {
  }

  lemma CountOne(n: nat)
    ensures n <= RAW_BLOCK_MAX <==> BlockCount(n) == 1
  {
  }

  lemma {:induction false} BlocksLength(plain: Bytes)
    ensures |Blocks(plain)| == 3 * BlockCount(|plain|) + |plain|
    decreases |plain|
  {
    CountOne(|plain|);
    if |plain| > RAW_BLOCK_MAX {
      CountStep(|plain|);
      BlocksLength(plain[RAW_BLOCK_MAX..]);
    }
  }

  // ---- the encoder ---------------------------------------------------------------------------

  /** `out[..o]` is written and `plain[off..]` is still to come. */
  ghost predicate Written(out: Bytes, plain: Bytes, off: nat, more: bool)
    requires off <= |plain|
  {
    Encoded(plain) == out + if more then Blocks(plain[off..]) else []
  }

  lemma WriteBlock(out: Bytes, plain: Bytes, off: nat, size: nat)
    requires off <= |plain| && Written(out, plain, off, true)
    requires size == if |plain| - off < RAW_BLOCK_MAX then |plain| - off else RAW_BLOCK_MAX
    ensures var last := |plain| - off <= RAW_BLOCK_MAX;
      Written(out + BlockHeader(last, size) + plain[off..off + size], plain, off + size, !last)
  {
    var rest := plain[off..];
    var last := |rest| <= RAW_BLOCK_MAX;
    assert plain[off..off + size] == rest[..size] && plain[off + size..] == rest[size..];
    var out' := out + BlockHeader(last, size) + plain[off..off + size];
    if last {
      assert rest[..size] == rest;
      assert out + (BlockHeader(true, size) + rest) == out' + [];
    } else {
      assert out + (BlockHeader(false, size) + rest[..size] + Blocks(rest[size..])) == out' + Blocks(rest[size..]);
    }
  }

  method PutHeader(out: array<byte>, n: nat) returns (o: nat)
    requires out.Length >= 9
    modifies out
    ensures o == 9 && out[..9] == FrameHeader(n)
  {
    out[0], out[1], out[2], out[3] := 0x28, 0xb5, 0x2f, 0xfd;
    out[4] := 0xa0;
    out[5], out[6], out[7], out[8] := n % 256, n / 256 % 256, n / 0x1_0000 % 256, n / 0x100_0000 % 256;
    return 9;
  }

  method PutBlockHeader(out: array<byte>, o: nat, last: bool, size: nat)
    requires size <= RAW_BLOCK_MAX && o + 3 <= out.Length
    modifies out
    ensures out[..o + 3] == old(out[..o]) + BlockHeader(last, size)
  {
    var header := (if last then 1 else 0) + size * 8;
    out[o] := header % 256;
    out[o + 1] := header / 256 % 256;
    out[o + 2] := header / 65536 % 256;
    assert out[..o + 3] == out[..o] + [out[o], out[o + 1], out[o + 2]];
  }

  /** One block at `o`: its header, then `size` bytes of input from `off`. */
  method PutBlock(out: array<byte>, o: nat, last: bool, plain: Bytes, off: nat, size: nat) returns (o': nat)
    requires size <= RAW_BLOCK_MAX && off + size <= |plain| && o + 3 + size <= out.Length
    modifies out
    ensures o' == o + 3 + size && out[..o'] == old(out[..o]) + BlockHeader(last, size) + plain[off..off + size]
  {
    hide BlockHeader;
    PutBlockHeader(out, o, last, size);
    PutAt(out, o + 3, plain[off..off + size]);
    return o + 3 + size;
  }

  /** Fill a buffer of exactly the right size, front to back. */
  method EncodeChunkBody(plain: Bytes) returns (frame: Bytes)
    ensures frame == Encoded(plain)
    ensures |frame| == 9 + 3 * BlockCount(|plain|) + |plain|
  {
    hide Blocks, BlockCount, FrameHeader, BlockHeader, Written;
    var blocks := BlockCount(|plain|);
    var out := new byte[4 + 1 + 4 + blocks * 3 + |plain|];
    var o := PutHeader(out, |plain|);
    var off: nat := 0;
    CountOne(|plain|);
    NothingWritten(plain);
    for i := 0 to blocks
      invariant off <= |plain| && o == 9 + 3 * i + off <= out.Length
      invariant i < blocks ==> BlockCount(|plain| - off) == blocks - i
      invariant i == blocks ==> off == |plain|
      invariant Written(out[..o], plain, off, i < blocks)
    {
      var size := if |plain| - off < RAW_BLOCK_MAX then |plain| - off else RAW_BLOCK_MAX;
      var last := i == blocks - 1;
      CountOne(|plain| - off);
      if !last { CountStep(|plain| - off); }
      WriteBlock(out[..o], plain, off, size);
      o := PutBlock(out, o, last, plain, off, size);
      off := off + size;
    }
    frame := out[..o];
    assert frame == Encoded(plain) by { AllWritten(frame, plain); }
    BlocksLength(plain);
  }

  lemma NothingWritten(plain: Bytes)
    ensures Written(FrameHeader(|plain|), plain, 0, true)
  {
    assert plain[0..] == plain;
  }

  lemma AllWritten(out: Bytes, plain: Bytes)
    requires Written(out, plain, |plain|, false)
    ensures out == Encoded(plain)
  {
    assert out + [] == out;
  }

  // ---- the decoder ------------------------------------------------------------------------------

  datatype FrameHead = FrameHead(contentSize: nat, length: nat)

  /** Section 3.1.1.1: the frame header of a single-segment frame with neither checksum nor
      dictionary. The content-size field has 1, 2, 4 or 8 bytes. */
  function DecodeHead(s: Bytes): Option<FrameHead> {
    if |s| < 5 || s[..4] != MAGIC then None
    else
      var descriptor: int := s[4];
      var sizeFlag, singleSegment, rest := descriptor / 64, descriptor / 32 % 2, descriptor % 16;
      if singleSegment != 1 || rest != 0 then None
      else
        var width := if sizeFlag == 0 then 1 else if sizeFlag == 1 then 2 else if sizeFlag == 2 then 4 else 8;
        if |s| < 5 + width then None
        else Some(FrameHead(LittleEndian(s[5..5 + width]) + if sizeFlag == 1 then 256 else 0, 5 + width))
  }

  function LittleEndian(b: Bytes): nat {
    if b == [] then 0 else b[0] as int + 256 * LittleEndian(b[1..])
  }

  /** Section 3.1.1.2: blocks up to the last one; `max` is Block_Maximum_Size. */
  function DecodeBlocks(s: Bytes, max: nat): Option<(Bytes, Bytes)>
    decreases |s|
  {
    if |s| < 3 then None
    else
      var header := LittleEndian(s[..3]);
      var last, kind, size := header % 2 == 1, header / 2 % 4, header / 8;
      if kind != 0 || size > max || |s| < 3 + size then None
      else
        var content, after := s[3..3 + size], s[3 + size..];
        if last then Some((content, after))
        else match DecodeBlocks(after, max)
          case None => None
          case Some((more, end)) => Some((content + more, end))
  }

  /** One frame and nothing after it; the content has the declared size. */
  function DecodeFrame(s: Bytes): (r: Option<Bytes>)
    ensures r.Some? ==> DecodeHead(s).Some? && |r.value| == DecodeHead(s).value.contentSize
  {
    match DecodeHead(s)
    case None => None
    case Some(head) =>
      // Window_Size is the content size of a single-segment frame
      var max := if head.contentSize < RAW_BLOCK_MAX then head.contentSize else RAW_BLOCK_MAX;
      match DecodeBlocks(s[head.length..], max)
      case None => None
      case Some((content, after)) => if after == [] && |content| == head.contentSize then Some(content) else None
  }

  // ---- the round trip ------------------------------------------------------------------------------

  lemma LittleEndian3(b: Bytes)
    requires |b| == 3
    ensures LittleEndian(b) == b[0] as int + 256 * b[1] as int + 65536 * b[2] as int
  {
    assert b[1..][1..] == [b[2]];
    assert LittleEndian([b[2]]) == b[2] as int + 256 * LittleEndian([]) by { assert [b[2]][1..] == []; }
  }

  lemma HeaderComesBack(last: bool, size: nat, rest: Bytes)
    requires size <= RAW_BLOCK_MAX
    ensures var s := BlockHeader(last, size) + rest;
      |s| >= 3 && s[3..] == rest && LittleEndian(s[..3]) == (if last then 1 else 0) + size * 8
  {
    var h := BlockHeader(last, size);
    var header := (if last then 1 else 0) + size * 8;
    assert (h + rest)[..3] == h;
    LittleEndian3(h);
    assert header < 0x100_0000;
  }

  lemma Eighth(size: nat, b: nat)
    requires b < 2
    ensures (b + size * 8) / 8 == size
  {
  }

  lemma Half(size: nat, b: nat)
    requires b < 2
    ensures (b + size * 8) / 2 == 4 * size && (b + size * 8) % 2 == b
  {
  }

  lemma HeaderFields(last: bool, size: nat)
    ensures var header := (if last then 1 else 0) + size * 8;
      (header % 2 == 1 <==> last) && header / 2 % 4 == 0 && header / 8 == size
  {
    var b := if last then 1 else 0;
    Eighth(size, b);
    Half(size, b);
    assert 4 * size % 4 == 0;
  }

  lemma DecodeOne(s: Bytes, max: nat, last: bool, size: nat)
    requires |s| >= 3 + size && size <= max && LittleEndian(s[..3]) == (if last then 1 else 0) + size * 8
    ensures var content, rest := s[3..3 + size], s[3 + size..];
      var more := DecodeBlocks(rest, max);
      DecodeBlocks(s, max) == if last then Some((content, rest)) else if more.None? then None else Some((content + more.value.0, more.value.1))
  {
    hide LittleEndian;
    HeaderFields(last, size);
  }

  /** One raw block at the front: its content, and what the rest gives. */
  lemma BlockComesBack(last: bool, content: Bytes, rest: Bytes, max: nat)
    requires |content| <= max <= RAW_BLOCK_MAX
    ensures var more := DecodeBlocks(rest, max);
      DecodeBlocks(BlockHeader(last, |content|) + (content + rest), max) ==
      if last then Some((content, rest)) else if more.None? then None else Some((content + more.value.0, more.value.1))
  {
    hide LittleEndian, BlockHeader, DecodeBlocks;
    var s := BlockHeader(last, |content|) + (content + rest);
    HeaderComesBack(last, |content|, content + rest);
    assert s[3..3 + |content|] == content && s[3 + |content|..] == rest;
    DecodeOne(s, max, last, |content|);
  }

  lemma {:induction false} BlocksComeBack(plain: Bytes, max: nat)
    requires max == RAW_BLOCK_MAX || |plain| <= max < RAW_BLOCK_MAX
    ensures DecodeBlocks(Blocks(plain), max) == Some((plain, []))
    decreases |plain|
  {
    hide BlockHeader, DecodeBlocks;
    if |plain| <= RAW_BLOCK_MAX {
      BlockComesBack(true, plain, [], max);
      assert Blocks(plain) == BlockHeader(true, |plain|) + (plain + []);
    } else {
      var low, high := plain[..RAW_BLOCK_MAX], plain[RAW_BLOCK_MAX..];
      BlocksComeBack(high, max);
      BlockComesBack(false, low, Blocks(high), max);
      assert Blocks(plain) == BlockHeader(false, RAW_BLOCK_MAX) + (low + Blocks(high));
      assert low + high == plain;
    }
  }

  lemma LittleEndian4(b: Bytes)
    requires |b| == 4
    ensures LittleEndian(b) == b[0] as int + 256 * b[1] as int + 0x1_0000 * b[2] as int + 0x100_0000 * b[3] as int
  {
    LittleEndian3(b[1..]);
  }

  /** The four base-256 digits of a number below 2^32. */
  lemma FourDigits(n: nat)
    requires n < 0x1_0000_0000
    ensures n == n % 256 + 256 * (n / 256 % 256) + 0x1_0000 * (n / 0x1_0000 % 256) + 0x100_0000 * (n / 0x100_0000 % 256)
  {
    var a, b := n / 256, n / 0x1_0000;
    assert a == b * 256 + a % 256;
    assert b == (n / 0x100_0000) * 256 + b % 256;
  }

  lemma Shift8(q: nat, m: nat)
    ensures (q * 0x1_0000_0000 + m) / 256 == q * 0x100_0000 + m / 256
  {
  }

  lemma Shift16(q: nat, m: nat)
    ensures (q * 0x1_0000_0000 + m) / 0x1_0000 == q * 0x1_0000 + m / 0x1_0000
  {
  }

  lemma Shift24(q: nat, m: nat)
    ensures (q * 0x1_0000_0000 + m) / 0x100_0000 == q * 0x100 + m / 0x100_0000
  {
  }

  lemma Mod256(a: nat, b: nat)
    ensures (a * 256 + b) % 256 == b % 256
  {
  }

  /** Digits below the cut do not see what is above it. */
  lemma LowDigits(q: nat, m: nat)
    ensures U32Le(q * 0x1_0000_0000 + m) == U32Le(m)
  {
    Shift8(q, m);
    Shift16(q, m);
    Shift24(q, m);
    Mod256(q * 0x100_0000, m);
    Mod256(q * 0x1_0000, m / 256);
    Mod256(q * 0x100, m / 0x1_0000);
    Mod256(q, m / 0x100_0000);
  }

  lemma SizeComesBack(n: nat)
    ensures LittleEndian(U32Le(n)) == n % 0x1_0000_0000
  {
    var q, m := n / 0x1_0000_0000, n % 0x1_0000_0000;
    assert n == q * 0x1_0000_0000 + m;
    hide LittleEndian;
    LowDigits(q, m);
    FourDigits(m);
    LittleEndian4(U32Le(m));
  }

  lemma HeadComesBack(n: nat, rest: Bytes)
    ensures DecodeHead(FrameHeader(n) + rest) == Some(FrameHead(n % 0x1_0000_0000, 9))
    ensures (FrameHeader(n) + rest)[9..] == rest
  {
    var s := FrameHeader(n) + rest;
    assert s[..4] == MAGIC && s[4] == 0xa0 && s[5..9] == U32Le(n);
    SizeComesBack(n);
  }

  /** The reader gets the input back exactly when its length fits the 32-bit size field. */
  lemma RoundTripIffSizeFits(plain: Bytes)
    ensures DecodeFrame(Encoded(plain)) == Some(plain) <==> |plain| < 0x1_0000_0000
  {
    hide Blocks, FrameHeader, DecodeHead, DecodeBlocks;
    var n := |plain|;
    HeadComesBack(n, Blocks(plain));
    if n < 0x1_0000_0000 {
      BlocksComeBack(plain, if n < RAW_BLOCK_MAX then n else RAW_BLOCK_MAX);
    }
  }
}
