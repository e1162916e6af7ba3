/** Byte strings, content addresses and the result types shared by the models. */
module Basics {

  type byte = x: int | 0 <= x < 256

  type Bytes = seq<byte>

  /** A bare 32-byte tree node or hash output. */
  type Digest = d: Bytes | |d| == 32 witness seq(32, _ => 0)

  /** A 33-byte content address: prefix, then digest. */
  type Address = a: Bytes | |a| == 33 witness seq(33, _ => 0)

  /** The hash suite, kept arbitrary: every result holds for every such function. */
  type Hash = Bytes -> Digest

  datatype Option<+T> = None | Some(value: T)

  datatype Error =
    | MalformedObject
    | BadAddr
    | AddrMismatch
    | ManifestKeyPresent
    | ProofRange
    | ProofInvalid

  datatype Result<+T> = Ok(value: T) | Err(error: Error)
  {
    predicate IsFailure() {
      Err?
    }

    function PropagateFailure<U>(): Result<U>
      requires Err?
    {
      Err(error)
    }

    function Extract(): T
      requires Ok?
    {
      value
    }
  }

  /** The only multihash-style prefix the suite accepts. */
  const HASH_PREFIX: byte := 0x1e

  /** The longest audit path a verifier or decoder takes. */
  const MAX_PROOF_PATH: nat := 40

  /** Durations are in nanoseconds. */
  const SECOND: int := 1_000_000_000

  const MINUTE: int := 60 * SECOND

  /** Signed 64-bit integers lie from minus this to below it. */
  const INT64_HALF: int := 0x8000_0000_0000_0000

  const UINT64_RANGE: nat := 0x1_0000_0000_0000_0000

  /** Cutting twice is cutting once. */
  lemma SliceSlice<T>(s: seq<T>, off: nat, lo: nat, hi: nat)
    requires off <= off + lo <= off + hi <= |s|
    ensures s[off..][lo..] == s[off + lo..]
    ensures s[off..][lo..hi] == s[off + lo..off + hi]
    ensures s[off..][hi..] == s[off + hi..]
  {
  }
}
