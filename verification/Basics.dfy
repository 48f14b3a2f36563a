/** Small shared types. */
module Basics {
  datatype Option<+T> = None | Some(value: T)

  datatype Result<+T, +E> = Ok(value: T) | Err(error: E)

  /** One octet. Arithmetic on it is ordinary integer arithmetic; every place the
      source narrows a wider number is written out where it happens. */
  type byte = x: int | 0 <= x < 256

  /** Copy `bytes` into a buffer at `at`; what stands before it stays. */
  method PutAt(out: array<byte>, at: nat, bytes: seq<byte>)
    requires at + |bytes| <= out.Length
    modifies out
    ensures out[..at + |bytes|] == old(out[..at]) + bytes
  {
    forall k | 0 <= k < |bytes| { out[at + k] := bytes[k]; }
    assert out[..at] == old(out[..at]);
    assert out[at..at + |bytes|] == bytes;
    assert out[..at + |bytes|] == out[..at] + out[at..at + |bytes|];
  }
}
