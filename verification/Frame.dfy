/** Length-prefixed framing and its incremental reader (crates/mari-proto/src/frame.rs). */
module Frames {
  import opened Basics

  /** 64 MiB */
  const MAX_FRAME_LEN: nat := 0x400_0000

  type Bytes = seq<byte>

  datatype FrameError = FrameTooLarge | Truncated

  // ---- the length prefix ------------------------------------------------------------

  /** Big-endian. */
  function U32ToBe(n: nat): (r: Bytes)
    requires n < 0x1_0000_0000
    ensures |r| == 4
  {
    [n / 0x100_0000, n / 0x1_0000 % 256, n / 256 % 256, n % 256]
  }

  function U32FromBe(b: Bytes): (n: nat)
    requires |b| >= 4
    ensures n < 0x1_0000_0000
  {
    ((b[0] as int * 256 + b[1]) * 256 + b[2]) * 256 + b[3]
  }

  lemma PrefixRoundTrip(n: nat)
    requires n < 0x1_0000_0000
    ensures U32FromBe(U32ToBe(n)) == n
  {
    var b := U32ToBe(n);
    assert n / 256 == (n / 0x1_0000) * 256 + b[2];
    assert n / 0x1_0000 == (n / 0x100_0000) * 256 + b[1];
  }

  function EncodeFrame(body: Bytes): Result<Bytes, FrameError> {
    if |body| > MAX_FRAME_LEN then Err(FrameTooLarge) else Ok(U32ToBe(|body|) + body)
  }

  /** The body of a frame at the front of `frame`. */
  function DecodeFrame(frame: Bytes): Result<Bytes, FrameError> {
    if |frame| < 4 then Err(Truncated)
    else
      var len := U32FromBe(frame);
      if len > MAX_FRAME_LEN then Err(FrameTooLarge)
      else if |frame| < 4 + len then Err(Truncated)
      else Ok(frame[4..4 + len])
  }

  lemma EncodedPrefix(body: Bytes, rest: Bytes)
    requires |body| <= MAX_FRAME_LEN
    ensures var f := EncodeFrame(body).value + rest;
      |f| >= 4 + |body| && U32FromBe(f) == |body| && f[4..4 + |body|] == body && f[4 + |body|..] == rest
  {
    PrefixRoundTrip(|body|);
    var f := EncodeFrame(body).value + rest;
    assert f[..4] == U32ToBe(|body|);
    assert f[0] == f[..4][0] && f[1] == f[..4][1] && f[2] == f[..4][2] && f[3] == f[..4][3];
  }

  /** Decoding gives the body back, whatever follows; a body over the limit is never framed. */
  lemma DecodeEncoded(body: Bytes, rest: Bytes)
    ensures EncodeFrame(body).Ok? <==> |body| <= MAX_FRAME_LEN
    ensures EncodeFrame(body).Err? ==> EncodeFrame(body) == Err(FrameTooLarge)
    ensures EncodeFrame(body).Ok? ==> DecodeFrame(EncodeFrame(body).value + rest) == Ok(body)
  {
    if |body| <= MAX_FRAME_LEN { EncodedPrefix(body, rest); }
  }

  /** Four bytes are the prefix of exactly one length. */
  lemma PrefixOfSome(b: Bytes)
    requires |b| == 4
    ensures b == U32ToBe(U32FromBe(b)) && forall n :: 0 <= n < 0x1_0000_0000 && U32ToBe(n) == b ==> n == U32FromBe(b)
  {
    var n := U32FromBe(b);
    assert n / 256 == (b[0] as int * 256 + b[1]) * 256 + b[2];
    assert n / 0x1_0000 == b[0] as int * 256 + b[1];
    assert n / 0x100_0000 == b[0];
    forall m: nat | m < 0x1_0000_0000 && U32ToBe(m) == b ensures m == n { PrefixRoundTrip(m); }
  }

  /** What any bytes at all decode to: too few for a prefix, a length over the limit, a body cut short,
      or the body the prefix gives the length of. */
  lemma DecodeVerdicts(frame: Bytes)
    ensures |frame| < 4 ==> DecodeFrame(frame) == Err(Truncated)
    ensures |frame| >= 4 ==> exists len: nat :: len < 0x1_0000_0000 && U32ToBe(len) == frame[..4] && Decodes(frame, len)
  {
    if |frame| >= 4 {
      PrefixOfSome(frame[..4]);
      var len := U32FromBe(frame[..4]);
      assert Decodes(frame, len);
    }
  }

  /** `len` being the length its first four bytes give. */
  predicate Decodes(frame: Bytes, len: nat)
    requires |frame| >= 4
  {
    if len > MAX_FRAME_LEN then DecodeFrame(frame) == Err(FrameTooLarge)
    else if |frame| < 4 + len then DecodeFrame(frame) == Err(Truncated)
    else DecodeFrame(frame) == Ok(frame[4..4 + len])
  }

  // ---- the reader --------------------------------------------------------------------------

  /** What a stream holds: whole frames, then what does not make one yet, or a bad prefix. */
  datatype Parsed = Parsed(bodies: seq<Bytes>, rest: Bytes, bad: bool)

  function Parse(s: Bytes): (p: Parsed)
    decreases |s|
  {
    if |s| < 4 then Parsed([], s, false)
    else
      var len := U32FromBe(s);
      if len > MAX_FRAME_LEN then Parsed([], s, true)
      else if |s| < 4 + len then Parsed([], s, false)
      else
        var p := Parse(s[4 + len..]);
        p.(bodies := [s[4..4 + len]] + p.bodies)
  }

  class FrameReader {
    var buf: Bytes

    constructor ()
      ensures buf == []
    {
      buf := [];
    }

    method Push(data: Bytes)
      modifies this
      ensures buf == old(buf) + data
    {
      buf := buf + data;
    }

    /** The next whole body, taken out of the buffer, if there is one. */
    method NextBody() returns (r: Result<Option<Bytes>, FrameError>)
      modifies this
      ensures r.Err? ==> r.error == FrameTooLarge && Parse(old(buf)) == Parsed([], old(buf), true) && buf == old(buf)
      ensures r == Ok(None) ==> Parse(old(buf)) == Parsed([], old(buf), false) && buf == old(buf)
      ensures r.Ok? && r.value.Some? ==>
        |buf| < |old(buf)| && Parse(old(buf)) == Parse(buf).(bodies := [r.value.value] + Parse(buf).bodies)
    {
      if |buf| < 4 { return Ok(None); }
      var len := U32FromBe(buf);
      if len > MAX_FRAME_LEN { return Err(FrameTooLarge); }
      var total := 4 + len;
      if |buf| < total { return Ok(None); }
      var body := buf[4..total];
      buf := buf[total..];
      return Ok(Some(body));
    }

    /** Take every whole body; stop at a bad prefix. */
    method Drain() returns (bodies: seq<Bytes>, bad: bool)
      modifies this
      ensures Parse(old(buf)) == Parsed(bodies, buf, bad)
    {
      hide Parse;
      bodies, bad := [], false;
      var more := true;
      while more
        invariant Parse(old(buf)) == if more then Parse(buf).(bodies := bodies + Parse(buf).bodies) else Parsed(bodies, buf, bad)
        invariant more ==> !bad
        decreases |buf|, more
      {
        ghost var whole := Parse(buf);
        var got := NextBody();
        match got {
          case Err(_) =>
            assert bodies + whole.bodies == bodies;
            bad, more := true, false;
          case Ok(None) =>
            assert bodies + whole.bodies == bodies;
            more := false;
          case Ok(Some(body)) =>
            assert whole.bodies == [body] + Parse(buf).bodies;
            assert bodies + ([body] + Parse(buf).bodies) == bodies + [body] + Parse(buf).bodies;
            bodies := bodies + [body];
        }
      }
    }
  }

  // ---- the transport may cut anywhere ------------------------------------------------------------

  lemma PrefixKept(s: Bytes, t: Bytes)
    requires |s| >= 4
    ensures U32FromBe(s + t) == U32FromBe(s)
  {
  }

  /** One whole frame at the front. */
  lemma ParseOne(s: Bytes, len: nat)
    requires |s| >= 4 && len == U32FromBe(s) <= MAX_FRAME_LEN && |s| >= 4 + len
    ensures Parse(s) == Parse(s[4 + len..]).(bodies := [s[4..4 + len]] + Parse(s[4 + len..]).bodies)
  {
  }

  /** No whole frame at the front. */
  lemma ParseNone(s: Bytes)
    requires |s| < 4 || U32FromBe(s) > MAX_FRAME_LEN || |s| < 4 + U32FromBe(s)
    ensures Parse(s) == Parsed([], s, |s| >= 4 && U32FromBe(s) > MAX_FRAME_LEN)
  {
  }

  /** What comes later never changes what was already parsed. */
  lemma {:induction false} ParseMore(s: Bytes, t: Bytes)
    ensures !Parse(s).bad ==>
      var q := Parse(Parse(s).rest + t);
      Parse(s + t) == q.(bodies := Parse(s).bodies + q.bodies)
    ensures Parse(s).bad ==> Parse(s + t) == Parse(s).(rest := Parse(s).rest + t)
    decreases |s|
  {
    hide Parse, U32FromBe;
    if |s| >= 4 { PrefixKept(s, t); }
    if |s| >= 4 && U32FromBe(s) <= MAX_FRAME_LEN && |s| >= 4 + U32FromBe(s) {
      var len := U32FromBe(s);
      var low, body := s[4 + len..], s[4..4 + len];
      ParseMore(low, t);
      ParseOne(s, len);
      assert (s + t)[4..4 + len] == body && (s + t)[4 + len..] == low + t;
      ParseOne(s + t, len);
      if !Parse(low).bad {
        var q := Parse(Parse(low).rest + t);
        assert [body] + (Parse(low).bodies + q.bodies) == [body] + Parse(low).bodies + q.bodies;
      }
    } else {
      ParseNone(s);
      assert [] + Parse(s + t).bodies == Parse(s + t).bodies;
      if Parse(s).bad { ParseNone(s + t); }
    }
  }

  function Joined(pushes: seq<Bytes>): Bytes {
    if pushes == [] then [] else Joined(pushes[..|pushes| - 1]) + pushes[|pushes| - 1]
  }

  lemma JoinedStep(pushes: seq<Bytes>, k: nat)
    requires k < |pushes|
    ensures Joined(pushes[..k + 1]) == Joined(pushes[..k]) + pushes[k]
  {
    assert pushes[..k + 1][..k] == pushes[..k];
  }

  lemma {:induction false} JoinedPrefix(pushes: seq<Bytes>, k: nat)
    requires k <= |pushes|
    ensures Joined(pushes[..k]) <= Joined(pushes)
    decreases |pushes|
  {
    if k < |pushes| {
      JoinedPrefix(pushes[..|pushes| - 1], k);
      assert pushes[..|pushes| - 1][..k] == pushes[..k];
    } else {
      assert pushes[..k] == pushes;
    }
  }

  /** Push the pieces one by one and drain after each: the outcome is that of parsing the
      whole stream at once, so it does not depend on where the pieces were cut, and the
      buffer holds exactly what is not consumed yet. */
  method ReadAll(pushes: seq<Bytes>) returns (bodies: seq<Bytes>, reader: FrameReader, bad: bool)
    ensures fresh(reader)
    ensures bodies == Parse(Joined(pushes)).bodies && bad == Parse(Joined(pushes)).bad
    ensures !bad ==> reader.buf == Parse(Joined(pushes)).rest
  {
    hide Parse;
    reader := new FrameReader();
    bodies, bad := [], false;
    assert Parse([]) == Parsed([], [], false) by { ParseNothing(); }
    for k := 0 to |pushes|
      invariant fresh(reader) && !bad && Parse(Joined(pushes[..k])) == Parsed(bodies, reader.buf, false)
    {
      JoinedStep(pushes, k);
      ParseMore(Joined(pushes[..k]), pushes[k]);
      reader.Push(pushes[k]);
      var more, broken := reader.Drain();
      bodies := bodies + more;
      if broken {
        JoinedPrefix(pushes, k + 1);
        ParseMore(Joined(pushes[..k + 1]), Joined(pushes)[|Joined(pushes[..k + 1])|..]);
        assert Joined(pushes) == Joined(pushes[..k + 1]) + Joined(pushes)[|Joined(pushes[..k + 1])|..];
        return bodies, reader, true;
      }
    }
    assert pushes[..|pushes|] == pushes;
  }

  lemma ParseNothing()
    ensures Parse([]) == Parsed([], [], false)
  {
  }

  function EncodeAll(bodies: seq<Bytes>): Bytes
    requires forall b :: b in bodies ==> |b| <= MAX_FRAME_LEN
  {
    if bodies == [] then [] else EncodeFrame(bodies[0]).value + EncodeAll(bodies[1..])
  }

  /** Any list of bodies within the limit comes back as it was sent. */
  lemma {:induction false} ParseEncoded(bodies: seq<Bytes>)
    requires forall b :: b in bodies ==> |b| <= MAX_FRAME_LEN
    ensures Parse(EncodeAll(bodies)) == Parsed(bodies, [], false)
    decreases |bodies|
  {
    if bodies != [] {
      EncodedPrefix(bodies[0], EncodeAll(bodies[1..]));
      ParseEncoded(bodies[1..]);
      assert bodies == [bodies[0]] + bodies[1..];
    }
  }

  /** Two ways of cutting the same stream are read alike. */
  lemma CutsDoNotMatter(bodies: seq<Bytes>, pushes: seq<Bytes>, k: nat)
    requires forall b :: b in bodies ==> |b| <= MAX_FRAME_LEN
    requires Joined(pushes) == EncodeAll(bodies) && k <= |pushes|
    ensures Parse(Joined(pushes)) == Parsed(bodies, [], false)
    ensures var p := Parse(Joined(pushes[..k])); !p.bad && p.bodies <= bodies
  {
    ParseEncoded(bodies);
    JoinedPrefix(pushes, k);
    var later := Joined(pushes)[|Joined(pushes[..k])|..];
    assert Joined(pushes) == Joined(pushes[..k]) + later;
    ParseMore(Joined(pushes[..k]), later);
  }
}
