/** Bytes, little-endian words and splicing. */
module Bytes {
  type byte = b: nat | b < 256

  function Pow256(k: nat): (p: nat)
    ensures p > 0
  {
    if k == 0 then 1 else 256 * Pow256(k - 1)
  }

  /** `to_le_bytes` of an unsigned word of `k` bytes. */
  function LittleEndian(n: nat, k: nat): (bs: seq<byte>)
    ensures |bs| == k
  {
    if k == 0 then [] else [n % 256] + LittleEndian(n / 256, k - 1)
  }

  /** `from_le_bytes` as an unsigned word. */
  function Unsigned(bs: seq<byte>): nat {
    if bs == [] then 0 else bs[0] + 256 * Unsigned(bs[1..])
  }

  /** Two's complement: the unsigned word that stores `n`. */
  function Encode(n: int, k: nat): nat
    requires 0 <= n + Pow256(k)
  {
    if n < 0 then n + Pow256(k) else n
  }

  /** Two's complement: the signed integer a word of `k` bytes denotes. */
  function AsSigned(w: nat, k: nat): int {
    if 2 * w >= Pow256(k) then w - Pow256(k) else w
  }

  lemma {:induction false} LittleEndianRoundTrip(n: nat, k: nat)
    requires n < Pow256(k)
    ensures Unsigned(LittleEndian(n, k)) == n
  {
    if k > 0 {
      var bs := LittleEndian(n, k);
      assert bs[1..] == LittleEndian(n / 256, k - 1);
      LittleEndianRoundTrip(n / 256, k - 1);
    }
  }

  lemma {:induction false} Pow256Values()
    ensures Pow256(1) == 0x100 && Pow256(2) == 0x1_0000 && Pow256(4) == 0x1_0000_0000
    ensures Pow256(8) == 0x1_0000_0000_0000_0000
  {
    assert Pow256(3) == 0x100_0000;
    assert Pow256(5) == 0x100_0000_0000;
    assert Pow256(6) == 0x1_0000_0000_0000;
    assert Pow256(7) == 0x100_0000_0000_0000;
  }

  /** The bytes of `buf` from `loc`, as many as `size`; a verified buffer always has them. */
  function Window(buf: seq<byte>, loc: nat, size: nat): (w: seq<byte>)
    ensures loc + size <= |buf| ==> |w| == size
  {
    if loc + size <= |buf| then buf[loc..loc + size] else []
  }

  /**
   `buf[loc..loc + |part|].copy_from_slice(part)`. The source panics when the range is out of bounds,
   which a validated layout rules out; then nothing is written here.
   */
  function Splice(buf: seq<byte>, loc: nat, part: seq<byte>): (r: seq<byte>)
    ensures |r| == |buf|
    ensures loc + |part| <= |buf| ==> Window(r, loc, |part|) == part
    ensures forall i :: 0 <= i < |buf| && !(loc <= i < loc + |part|) ==> r[i] == buf[i]
  {
    if loc + |part| <= |buf| then buf[..loc] + part + buf[loc + |part|..] else buf
  }

  /** `i * stride`, as repeated addition so that proofs stay linear (see `OffsetIsProduct`). */
  function Offset(i: nat, stride: nat): nat {
    if i == 0 then 0 else Offset(i - 1, stride) + stride
  }

  lemma {:induction false} OffsetIsProduct(i: nat, stride: nat)
    ensures Offset(i, stride) == i * stride
  {
    if i > 0 { OffsetIsProduct(i - 1, stride); }
  }

  lemma {:induction false} OffsetFits(i: nat, n: nat, stride: nat)
    requires i < n
    ensures Offset(i, stride) + stride <= Offset(n, stride)
  {
    if i + 1 < n { OffsetFits(i, n - 1, stride); }
  }

  function Zeros(n: nat): (bs: seq<byte>)
    ensures |bs| == n
  {
    seq(n, _ => 0)
  }
}
