/** The checksum of gp_util.c: the exclusive or of a run of bytes. */
module Crc8 {
  import opened LibGate

  /** `^` on bytes. */
  function Xor8(a: Byte, b: Byte): Byte {
    assert Pow2(8) == 256;
    XorBits(a, b, 8)
  }

  function Pow2(k: nat): nat {
    if k == 0 then 1 else 2 * Pow2(k - 1)
  }

  /** The exclusive or of the low `k` bits. */
  function XorBits(a: nat, b: nat, k: nat): (r: nat)
    ensures r < Pow2(k)
  {
    if k == 0 then 0 else (if a % 2 == b % 2 then 0 else 1) + 2 * XorBits(a / 2, b / 2, k - 1)
  }

  lemma {:induction false} XorBitsAssoc(a: nat, b: nat, c: nat, k: nat)
    ensures XorBits(XorBits(a, b, k), c, k) == XorBits(a, XorBits(b, c, k), k)
  {
    if k > 0 {
      XorBitsAssoc(a / 2, b / 2, c / 2, k - 1);
    }
  }

  lemma {:induction false} XorBitsZero(a: nat, k: nat)
    requires a < Pow2(k)
    ensures XorBits(a, 0, k) == a == XorBits(0, a, k)
  {
    if k > 0 {
      XorBitsZero(a / 2, k - 1);
    }
  }

  lemma {:induction false} XorBitsSelf(a: nat, b: nat, k: nat)
    requires a < Pow2(k) && b < Pow2(k)
    ensures XorBits(a, b, k) == 0 <==> a == b
  {
    if k > 0 {
      XorBitsSelf(a / 2, b / 2, k - 1);
    }
  }

  lemma Xor8Assoc(a: Byte, b: Byte, c: Byte)
    ensures Xor8(Xor8(a, b), c) == Xor8(a, Xor8(b, c))
  {
    XorBitsAssoc(a, b, c, 8);
  }

  lemma Xor8Zero(a: Byte)
    ensures Xor8(a, 0) == a == Xor8(0, a)
  {
    XorBitsZero(a, 8);
  }

  lemma Xor8Self(a: Byte, b: Byte)
    ensures Xor8(a, b) == 0 <==> a == b
  {
    XorBitsSelf(a, b, 8);
  }

  /** The exclusive or of all bytes, folded from the front. */
  function Xor(s: seq<Byte>): Byte {
    if s == [] then 0 else Xor8(s[0], Xor(s[1..]))
  }

  /** `crc8_xor`. The first byte is read whatever `l` says, so lengths 0 and 1 agree. */
  method Crc8Xor(p: array<Byte>, off: nat, l: int) returns (r: Byte)
    requires off < p.Length && off + l <= p.Length
    ensures r == Xor(p[off..off + Max(l, 1)])
  {
    r := p[off];
    var left, k := l, off;
    XorSnoc([], r);
    assert p[off..off + 1] == [] + [r];
    Xor8Zero(r);
    while left > 1
      invariant off <= k < p.Length
      invariant l > 1 ==> left >= 1 && left + (k - off) == l
      invariant l <= 1 ==> left == l && k == off
      invariant r == Xor(p[off..k + 1])
    {
      k := k + 1;
      XorSnoc(p[off..k], p[k]);
      assert p[off..k + 1] == p[off..k] + [p[k]];
      r := Xor8(r, p[k]);
      left := left - 1;
    }
  }

  lemma {:induction false} XorConcat(a: seq<Byte>, b: seq<Byte>)
    ensures Xor(a + b) == Xor8(Xor(a), Xor(b))
  {
    if a == [] {
      assert a + b == b;
      Xor8Zero(Xor(b));
    } else {
      XorConcat(a[1..], b);
      assert (a + b)[1..] == a[1..] + b;
      Xor8Assoc(a[0], Xor(a[1..]), Xor(b));
    }
  }

  lemma XorSnoc(a: seq<Byte>, b: Byte)
    ensures Xor(a + [b]) == Xor8(Xor(a), b)
  {
    XorConcat(a, [b]);
    assert [b][1..] == [];
    Xor8Zero(b);
  }

  /** Appending the checksum makes the whole region sum to zero, and no other byte does. */
  lemma ChecksumCloses(a: seq<Byte>, b: Byte)
    ensures Xor(a + [b]) == 0 <==> b == Xor(a)
  {
    XorSnoc(a, b);
    Xor8Self(Xor(a), b);
  }

  /** A region that sums to zero stops doing so exactly when one byte really changes. */
  lemma SingleByteDetected(s: seq<Byte>, i: nat, b: Byte)
    requires i < |s| && Xor(s) == 0
    ensures Xor(s[i := b]) == 0 <==> b == s[i]
  {
    XorAround(s[..i], s[i], s[i + 1..]);
    XorAround(s[..i], b, s[i + 1..]);
    assert s == s[..i] + ([s[i]] + s[i + 1..]);
    assert s[i := b] == s[..i] + ([b] + s[i + 1..]);
    Xor8Cancel(Xor(s[..i]), s[i], Xor(s[i + 1..]), b);
  }

  lemma XorAround(front: seq<Byte>, b: Byte, back: seq<Byte>)
    ensures Xor(front + ([b] + back)) == Xor8(Xor(front), Xor8(b, Xor(back)))
  {
    XorConcat(front, [b] + back);
    assert ([b] + back)[1..] == back;
  }

  lemma Xor8Cancel(x: Byte, a: Byte, y: Byte, b: Byte)
    requires Xor8(x, Xor8(a, y)) == 0
    ensures Xor8(x, Xor8(b, y)) == 0 <==> b == a
  {
    Xor8Self(x, Xor8(a, y));
    Xor8Self(x, Xor8(b, y));
    if Xor8(b, y) == Xor8(a, y) {
      Xor8Assoc(b, y, y);
      Xor8Assoc(a, y, y);
      Xor8Self(y, y);
      Xor8Zero(b);
      Xor8Zero(a);
    }
  }
}
