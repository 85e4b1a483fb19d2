/** Byte strings and big-endian integers (Python's `struct` in network order). */
module ByteCodec {
  type byte = b: int | 0 <= b < 256
  type Bytes = seq<byte>

  function Pow256(k: nat): (p: nat)
    ensures p > 0
  {
    if k == 0 then 1 else 256 * Pow256(k - 1)
  }

  /** The low `k` bytes of `n`, most significant first. */
  function BE(n: nat, k: nat): (b: Bytes)
    ensures |b| == k
  {
    if k == 0 then [] else BE(n / 256, k - 1) + [n % 256]
  }

  function FromBE(b: Bytes): nat {
    if b == [] then 0 else 256 * FromBE(b[..|b| - 1]) + b[|b| - 1]
  }

  lemma {:induction false} FromBEOfBE(n: nat, k: nat)
    requires n < Pow256(k)
    ensures FromBE(BE(n, k)) == n
  {
    if k > 0 {
      FromBEOfBE(n / 256, k - 1);
      assert BE(n, k)[..k - 1] == BE(n / 256, k - 1);
    }
  }

  lemma {:induction false} BEOfFromBE(b: Bytes)
    ensures BE(FromBE(b), |b|) == b
  {
    if b != [] {
      var front, x := b[..|b| - 1], b[|b| - 1];
      BEOfFromBE(front);
      assert FromBE(b) / 256 == FromBE(front) && FromBE(b) % 256 == x;
      assert b == front + [x];
    }
  }

  lemma {:induction false} FromBEBound(b: Bytes)
    ensures FromBE(b) < Pow256(|b|)
  {
    if b != [] { FromBEBound(b[..|b| - 1]); }
  }

  lemma {:induction false} Pow256Values()
    ensures Pow256(1) == 0x100 && Pow256(2) == 0x1_0000 && Pow256(3) == 0x100_0000
    ensures Pow256(4) == 0x1_0000_0000 && Pow256(8) == 0x1_0000_0000_0000_0000
  {
    assert Pow256(2) == 256 * Pow256(1);
    assert Pow256(4) == 256 * Pow256(3) == 256 * 256 * Pow256(2);
    assert Pow256(6) == 256 * Pow256(5) == 256 * 256 * Pow256(4);
    assert Pow256(8) == 256 * Pow256(7) == 256 * 256 * Pow256(6);
  }

  /** Reading back a field of `k` bytes written at the front of what follows `head`. */
  lemma {:induction false} ReadField(head: Bytes, n: nat, k: nat, tail: Bytes)
    requires n < Pow256(k)
    ensures var b := head + BE(n, k) + tail;
      |head| + k <= |b| && FromBE(b[|head|..|head| + k]) == n
  {
    var b := head + BE(n, k) + tail;
    assert b[|head|..|head| + k] == BE(n, k);
    FromBEOfBE(n, k);
  }
}
