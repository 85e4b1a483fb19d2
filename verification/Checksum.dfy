/**
  The UDP checksum over IPv6 (`srv6_mrc/encap.py`, `udp6_checksum_inplace`): the per-word folding
  loop against the one's-complement sum of RFC 1071, and what the patched buffer is worth to a
  receiver that checks it as section 8.1 of RFC 8200 asks.
 */
module Checksum {
  import opened ByteCodec
  import opened Arith

  const M: nat := 0xFFFF

  /** The sum of the big-endian 16-bit words, an odd last byte padded with zero. */
  function WordSum(b: Bytes): nat {
    if b == [] then 0
    else if |b| == 1 then b[0] * 256
    else b[0] * 256 + b[1] + WordSum(b[2..])
  }

  /**
    The 16-bit one's-complement value of a sum of words: congruent to it modulo 2^16 - 1, and zero for
    the empty sum only.
   */
  function Ones(n: nat): (r: nat)
    ensures r <= M
  {
    if n == 0 then 0 else 1 + (n - 1) % M
  }

  /** End-around-carry addition of two 16-bit values. */
  function AddCarry(x: nat, y: nat): nat { (x + y) % 0x1_0000 + (x + y) / 0x1_0000 }

  lemma {:induction false} OnesUnique(n: nat, v: nat, k: nat)
    requires 1 <= v <= M && n == v + M * k
    ensures Ones(n) == v
  {
    ModUnique(n - 1, v - 1, k, M);
  }

  /** Folding word by word keeps the one's-complement value of the whole sum. */
  lemma {:induction false} FoldWord(n: nat, w: nat)
    requires w <= M
    ensures AddCarry(Ones(n), w) == Ones(n + w) <= M
  {
    if n == 0 {
      if w > 0 { OnesUnique(w, w, 0); }
    } else {
      var v, k := Ones(n), (n - 1) / M;
      assert n == v + M * k;
      if v + w <= M {
        OnesUnique(n + w, v + w, k);
      } else {
        assert M * (k + 1) == M * k + M;
        OnesUnique(n + w, v + w - M, k + 1);
      }
    }
  }

  /** Adding all words first and folding the carries until none is left. */
  function FoldAll(n: nat): (r: nat)
    ensures r <= M
  {
    if n <= M then n else FoldAll(n % 0x1_0000 + n / 0x1_0000)
  }

  /** Carries can be deferred: folding at the end gives the same value as folding every word. */
  lemma {:induction false} DeferredCarries(n: nat)
    ensures FoldAll(n) == Ones(n)
  {
    if n <= M {
      if n > 0 { OnesUnique(n, n, 0); }
    } else {
      var q, r := n / 0x1_0000, n % 0x1_0000;
      DeferredCarries(r + q);
      assert n == (r + q) + M * q;
      var v, k := Ones(r + q), (r + q - 1) / M;
      assert r + q == v + M * k;
      assert M * (k + q) == M * k + M * q;
      OnesUnique(n, v, k + q);
    }
  }

  lemma {:induction false} WordSumAppend(a: Bytes, b: Bytes)
    requires |a| % 2 == 0
    ensures WordSum(a + b) == WordSum(a) + WordSum(b)
  {
    if a == [] {
      assert a + b == b;
    } else {
      assert (a + b)[2..] == a[2..] + b;
      WordSumAppend(a[2..], b);
    }
  }

  /** Padding an odd string with a zero byte does not change its sum. */
  lemma {:induction false} WordSumPadded(b: Bytes)
    requires |b| % 2 == 1
    ensures WordSum(b + [0]) == WordSum(b)
  {
    if |b| == 1 {
      assert (b + [0])[2..] == [];
    } else {
      assert (b + [0])[2..] == b[2..] + [0];
      WordSumPadded(b[2..]);
    }
  }

  // ---------------------------------------------------------------- the packet buffer

  const SRC_AT: nat := 48
  const UDP_AT: nat := 80
  const CSUM_AT: nat := 86
  const PAYLOAD_AT: nat := 88

  predicate Fits(buf: Bytes, payloadLen: nat) {
    |buf| >= PAYLOAD_AT + payloadLen && payloadLen + 8 < 0x1_0000_0000
  }

  /** The pseudo-header of the inner packet, then its UDP header and payload. */
  function Blob(buf: Bytes, payloadLen: nat): Bytes
    requires Fits(buf, payloadLen)
  {
    buf[SRC_AT..UDP_AT] + BE(8 + payloadLen, 4) + [0, 0, 0, 17] + buf[UDP_AT..PAYLOAD_AT + payloadLen]
  }

  /** The checksum stored for a sum of words; zero is sent as all ones. */
  function Stored(sum: nat): (c: nat)
    ensures 1 <= c <= M
  {
    var c := M - Ones(sum);
    if c == 0 then M else c
  }

  function Field(buf: Bytes): nat
    requires |buf| >= PAYLOAD_AT
  {
    buf[CSUM_AT] as int * 256 + buf[CSUM_AT + 1]
  }

  function WithField(buf: Bytes, c: nat): Bytes
    requires |buf| >= PAYLOAD_AT && c <= M
  {
    buf[CSUM_AT := c / 256][CSUM_AT + 1 := c % 256]
  }

  /** `udp6_checksum_inplace`. */
  function Patched(buf: Bytes, payloadLen: nat): Bytes
    requires Fits(buf, payloadLen)
  {
    WithField(buf, Stored(WordSum(Blob(buf, payloadLen))))
  }

  /** The receiver's check: pseudo-header and datagram sum to all ones. */
  predicate Verifies(buf: Bytes, payloadLen: nat)
    requires Fits(buf, payloadLen)
  {
    Ones(WordSum(Blob(buf, payloadLen))) == M
  }

  /** Another checksum field changes the sum by just the difference of the fields. */
  lemma {:induction false} FieldInSum(buf: Bytes, payloadLen: nat, c: nat)
    requires Fits(buf, payloadLen) && c <= M
    ensures WordSum(Blob(WithField(buf, c), payloadLen)) + Field(buf) == WordSum(Blob(buf, payloadLen)) + c
  {
    var buf' := WithField(buf, c);
    var head := buf[SRC_AT..UDP_AT] + BE(8 + payloadLen, 4) + [0, 0, 0, 17] + buf[UDP_AT..CSUM_AT];
    var tail := buf[PAYLOAD_AT..PAYLOAD_AT + payloadLen];
    var f, f' := buf[CSUM_AT..PAYLOAD_AT], buf'[CSUM_AT..PAYLOAD_AT];
    assert buf'[PAYLOAD_AT..PAYLOAD_AT + payloadLen] == tail && buf'[UDP_AT..CSUM_AT] == buf[UDP_AT..CSUM_AT];
    assert buf'[SRC_AT..UDP_AT] == buf[SRC_AT..UDP_AT];
    assert buf[UDP_AT..PAYLOAD_AT + payloadLen] == buf[UDP_AT..CSUM_AT] + f + tail;
    assert buf'[UDP_AT..PAYLOAD_AT + payloadLen] == buf[UDP_AT..CSUM_AT] + f' + tail;
    assert Blob(buf, payloadLen) == head + f + tail;
    assert Blob(buf', payloadLen) == head + f' + tail;
    SumOfThree(head, f, tail);
    SumOfThree(head, f', tail);
  }

  lemma {:induction false} SumOfThree(head: Bytes, f: Bytes, tail: Bytes)
    requires |head| % 2 == 0 && |f| == 2
    ensures WordSum(head + f + tail) == WordSum(head) + f[0] as int * 256 + f[1] + WordSum(tail)
  {
    WordSumAppend(head + f, tail);
    WordSumAppend(head, f);
    assert f[2..] == [];
  }

  /**
    The patched buffer passes the receiver's check if and only if the field held 0x0000 or 0xFFFF
    before: whatever else was in it is added into the new checksum and not taken out again.  The
    docstring assumes the field to be zero and does not enforce it "because we overwrite anyway".
   */
  lemma {:induction false} PatchedVerifiesIffFieldWasZero(buf: Bytes, payloadLen: nat)
    requires Fits(buf, payloadLen)
    ensures Fits(Patched(buf, payloadLen), payloadLen)
    ensures Verifies(Patched(buf, payloadLen), payloadLen) <==> Field(buf) == 0 || Field(buf) == M
  {
    var s, f := WordSum(Blob(buf, payloadLen)), Field(buf);
    FieldInSum(buf, payloadLen, Stored(s));
    FieldIsPart(buf, payloadLen);
    hide Blob, WordSum, WithField, Field;
    StoredCancels(s, f);
  }

  /** It does matter: a blank packet whose field holds 1 is patched into one that fails the check. */
  lemma {:induction false} StaleFieldFails()
    ensures var buf := seq(PAYLOAD_AT, i => if i == CSUM_AT + 1 then 1 else 0);
      Fits(Patched(buf, 0), 0) && !Verifies(Patched(buf, 0), 0)
  {
    var buf := seq(PAYLOAD_AT, i => if i == CSUM_AT + 1 then 1 else 0);
    assert Field(buf) == 1;
    PatchedVerifiesIffFieldWasZero(buf, 0);
  }

  lemma {:induction false} FieldIsPart(buf: Bytes, payloadLen: nat)
    requires Fits(buf, payloadLen)
    ensures Field(buf) <= WordSum(Blob(buf, payloadLen)) && Field(buf) <= M
  {
    FieldInSum(buf, payloadLen, 0);
  }

  lemma {:induction false} StoredCancels(s: nat, f: nat)
    requires f <= s && f <= M
    ensures Ones(s - f + Stored(s)) == M <==> f == 0 || f == M
  {
    var n, v, k := s - f + Stored(s), Ones(s), if s == 0 then 0 else (s - 1) / M;
    assert s == v + M * k;
    assert M * (k + 1) == M * k + M;
    assert M * (k + 2) == M * k + M + M;
    if 0 < f < M {
      if v == M { OnesUnique(n, M - f, k + 1); } else { OnesUnique(n, M - f, k); }
    } else if f == 0 {
      if v == M { OnesUnique(n, M, k + 1); } else { OnesUnique(n, M, k); }
    } else if v == M {
      OnesUnique(n, M, k);
    } else {
      assert k > 0;
      assert M * (k - 1) == M * k - M;
      OnesUnique(n, M, k - 1);
    }
  }

  /** Only the two checksum bytes change, and the stored value is never zero. */
  lemma {:induction false} OnlyTheFieldChanges(buf: Bytes, payloadLen: nat, i: nat)
    requires Fits(buf, payloadLen) && i < |buf|
    ensures |Patched(buf, payloadLen)| == |buf|
    ensures i != CSUM_AT && i != CSUM_AT + 1 ==> Patched(buf, payloadLen)[i] == buf[i]
    ensures Field(Patched(buf, payloadLen)) != 0
  {
    var c := Stored(WordSum(Blob(buf, payloadLen)));
    assert c / 256 * 256 + c % 256 == c;
  }

  /** `udp6_checksum_inplace`, folding every word as the loop does. */
  method Udp6ChecksumInplace(buf: array<byte>, payloadLen: nat)
    requires Fits(buf[..], payloadLen)
    modifies buf
    ensures buf[..] == Patched(old(buf[..]), payloadLen)
  {
    var blob := buf[SRC_AT..UDP_AT] + BE(8 + payloadLen, 4) + [0, 0, 0, 17] + buf[UDP_AT..PAYLOAD_AT + payloadLen];
    assert blob == Blob(buf[..], payloadLen);
    var s := SumWords(blob);
    var c := 0xFFFF - s;
    if c == 0 { c := 0xFFFF; }
    buf[CSUM_AT] := c / 256;
    buf[CSUM_AT + 1] := c % 256;
  }

  lemma {:induction false} EmptySum()
    ensures WordSum([]) == 0 && Ones(0) == 0
  {
  }

  lemma {:induction false} NextWord(b: Bytes, i: nat)
    requires i + 1 < |b| && i % 2 == 0
    ensures WordSum(b[..i + 2]) == WordSum(b[..i]) + (b[i] as int * 256 + b[i + 1])
  {
    WordSumAppend(b[..i], b[i..i + 2]);
    assert b[..i + 2] == b[..i] + b[i..i + 2];
    assert b[i..i + 2][2..] == [];
  }

  /** One word added and its carry folded in. */
  method AddWord(s: nat, word: nat, ghost sum: nat) returns (s': nat)
    requires s == Ones(sum) && word <= M
    ensures s' == Ones(sum + word)
  {
    hide Ones;
    FoldWord(sum, word);
    s' := s + word;
    s' := s' % 0x1_0000 + s' / 0x1_0000;
  }

  /** The padding and the folding loop. */
  method SumWords(blob: Bytes) returns (s: nat)
    ensures s == Ones(WordSum(blob))
  {
    var padded := blob;
    if |blob| % 2 == 1 {
      padded := blob + [0];
      WordSumPadded(blob);
    }
    hide Ones, WordSum;
    EmptySum();
    s := 0;
    var i := 0;
    assert padded[..0] == [];
    while i < |padded|
      invariant 0 <= i <= |padded| && i % 2 == 0 && s == Ones(WordSum(padded[..i]))
    {
      NextWord(padded, i);
      s := AddWord(s, padded[i] as int * 256 + padded[i + 1], WordSum(padded[..i]));
      i := i + 2;
    }
    assert padded[..i] == padded;
  }
}
