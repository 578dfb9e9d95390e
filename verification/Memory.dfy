/** Byte buffers: what a run of stores leaves behind. */
module Memory {
  import opened LibGate

  /** Memory `m` with the bytes `w` written at `at`. */
  function Write(m: seq<Byte>, at: nat, w: seq<Byte>): (r: seq<Byte>)
    requires at + |w| <= |m|
    ensures |r| == |m|
  {
    m[..at] + w + m[at + |w|..]
  }

  lemma WriteNothing(m: seq<Byte>, at: nat)
    requires at <= |m|
    ensures Write(m, at, []) == m
  {
  }

  lemma WriteOne(m: seq<Byte>, at: nat, w: seq<Byte>, b: Byte)
    requires at + |w| < |m|
    ensures Write(m, at, w)[at + |w| := b] == Write(m, at, w + [b])
  {
  }

  /** `*d++ = b` after `wrote` has been stored from `at` on. */
  method PutByte(d: array<Byte>, b: Byte, ghost before: seq<Byte>, ghost at: nat, ghost wrote: seq<Byte>, k: nat)
    requires |before| == d.Length && k == at + |wrote| < d.Length
    requires d[..] == Write(before, at, wrote)
    modifies d
    ensures d[..] == Write(before, at, wrote + [b])
  {
    WriteOne(before, at, wrote, b);
    d[k] := b;
  }

  /** `memcpy` of bytes held in another variable. */
  method Memcpy(d: array<Byte>, at: nat, w: seq<Byte>)
    requires at + |w| <= d.Length
    modifies d
    ensures d[..] == Write(old(d[..]), at, w)
  {
    ghost var before := d[..];
    WriteNothing(before, at);
    assert w[..0] == [];
    for i := 0 to |w|
      invariant d[..] == Write(before, at, w[..i])
    {
      assert w[..i + 1] == w[..i] + [w[i]];
      PutByte(d, w[i], before, at, w[..i], at + i);
    }
    assert w[..|w|] == w;
  }
}
