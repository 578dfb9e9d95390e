/** Card ids in either byte order (`bin2int` and `int2bin` of gp_util.c), on a
    little-endian host. */
module CardBytes {
  import opened LibGate
  import Memory

  /** The value of bytes in memory order, little end first. */
  function LittleEnd(s: seq<Byte>): nat {
    if s == [] then 0 else s[0] + 256 * LittleEnd(s[1..])
  }

  /** The first `n` bytes of a value in memory. */
  function Bytes(a: nat, n: nat): (s: seq<Byte>)
    ensures |s| == n
  {
    if n == 0 then [] else [a % 256] + Bytes(a / 256, n - 1)
  }

  /** `a >> 8 * k`. */
  function ShiftBytes(a: nat, k: nat): nat {
    if k == 0 then a else ShiftBytes(a / 256, k - 1)
  }

  function Reverse(s: seq<Byte>): (r: seq<Byte>)
    ensures |r| == |s| && forall i :: 0 <= i < |s| ==> r[i] == s[|s| - 1 - i]
  {
    seq(|s|, i requires 0 <= i < |s| => s[|s| - 1 - i])
  }

  /** The `n` bytes of a value in reverse. */
  function Swap(a: nat, n: nat): nat {
    LittleEnd(Reverse(Bytes(a, n)))
  }

  /** `be64toh` on a little-endian host. */
  function Swap64(a: nat): nat {
    Swap(a, 8)
  }

  /** `bin2int`, for at most eight bytes; a longer `len` reads eight. */
  function Bin2Int(s: seq<Byte>, len: nat, revert: bool): nat
    requires |s| >= Min(len, 8)
  {
    var l := Min(len, 8);
    var a := LittleEnd(s[..l]);
    if revert then ShiftBytes(Swap64(a), 8 - l) else a
  }

  /** The bytes `int2bin` stores. */
  function Int2BinBytes(a: nat, len: nat, revert: bool): (s: seq<Byte>)
    requires 1 <= len <= 8
    ensures |s| == len
  {
    Bytes(if revert then ShiftBytes(Swap64(a), 8 - len) else a, len)
  }

  /** `int2bin`. */
  method Int2Bin(d: array<Byte>, di: nat, a: nat, len: nat, revert: bool)
    requires 1 <= len <= 8 && di + len <= d.Length
    modifies d
    ensures d[..] == Memory.Write(old(d[..]), di, Int2BinBytes(a, len, revert))
    ensures Bin2Int(d[di..di + len], len, revert) == a % Pow256(len)
  {
    var v := a;
    if revert {
      v := ShiftBytes(Swap64(v), 8 - len);
    }
    Memory.Memcpy(d, di, Bytes(v, len));
    assert d[di..di + len] == Int2BinBytes(a, len, revert);
    Bin2IntUndoesInt2Bin(a, len, revert);
  }

  // ----- properties -----

  function Pow256(n: nat): (p: nat)
    ensures p > 0
  {
    if n == 0 then 1 else 256 * Pow256(n - 1)
  }

  lemma {:induction false} BytesOfValue(s: seq<Byte>, k: nat)
    ensures Bytes(LittleEnd(s), |s| + k) == s + Zeros(k)
    decreases |s| + k
  {
    if s != [] {
      BytesOfValue(s[1..], k);
      assert LittleEnd(s) % 256 == s[0] && LittleEnd(s) / 256 == LittleEnd(s[1..]);
      assert s == [s[0]] + s[1..];
    } else if k > 0 {
      BytesOfValue([], k - 1);
      assert Zeros(k) == [0] + Zeros(k - 1);
    }
  }

  function Zeros(k: nat): (s: seq<Byte>)
    ensures |s| == k
  {
    seq(k, _ => 0)
  }

  lemma {:induction false} ValueOfBytes(a: nat, n: nat)
    ensures LittleEnd(Bytes(a, n)) == a % Pow256(n)
  {
    if n > 0 {
      ValueOfBytes(a / 256, n - 1);
      assert Bytes(a, n)[1..] == Bytes(a / 256, n - 1);
      ModStep(a, Pow256(n - 1));
    }
  }

  lemma ModStep(a: nat, p: nat)
    requires p > 0
    ensures a % (256 * p) == a % 256 + 256 * (a / 256 % p)
  {
    var q := a / 256 / p;
    var r := a % 256 + 256 * (a / 256 % p);
    assert a / 256 == p * q + a / 256 % p;
    assert a == (256 * p) * q + r;
    assert 0 <= r < 256 * p;
    DivUnique(a, 256 * p, q, r);
  }

  lemma DivUnique(a: int, m: int, q: int, r: int)
    requires m > 0 && 0 <= r < m && a == m * q + r
    ensures a % m == r
  {
    var d := a / m - q;
    assert m * d == r - a % m;
    MulBounds(m, d);
  }

  lemma MulBounds(m: int, d: int)
    requires m > 0
    ensures d >= 1 ==> m * d >= m
    ensures d <= -1 ==> m * d <= -m
  {
  }

  /** Shifting drops the leading bytes in memory order. */
  lemma {:induction false} ShiftDrops(z: seq<Byte>, t: seq<Byte>)
    ensures ShiftBytes(LittleEnd(z + t), |z|) == LittleEnd(t)
  {
    if z == [] {
      assert z + t == t;
    } else {
      assert (z + t)[1..] == z[1..] + t;
      assert LittleEnd(z + t) / 256 == LittleEnd(z[1..] + t);
      ShiftDrops(z[1..], t);
    }
  }

  lemma {:induction false} BytesSplit(a: nat, n: nat, m: nat)
    ensures exists hi :: |hi| == m && Bytes(a, n + m) == Bytes(a, n) + hi
  {
    if n == 0 {
      assert Bytes(a, m) == [] + Bytes(a, m);
    } else {
      BytesSplit(a / 256, n - 1, m);
      var hi :| |hi| == m && Bytes(a / 256, n - 1 + m) == Bytes(a / 256, n - 1) + hi;
      assert Bytes(a, n + m) == Bytes(a, n) + hi;
    }
  }

  /** Swapping a widened value and shifting the widening out reverses the bytes. */
  lemma SwapShiftOfValue(t: seq<Byte>, k: nat)
    ensures ShiftBytes(Swap(LittleEnd(t), |t| + k), k) == LittleEnd(Reverse(t))
  {
    BytesOfValue(t, k);
    assert Reverse(t + Zeros(k)) == Zeros(k) + Reverse(t);
    ShiftDrops(Zeros(k), Reverse(t));
  }

  lemma SwapShiftOfLowBytes(a: nat, n: nat, k: nat)
    ensures ShiftBytes(Swap(a, n + k), k) == LittleEnd(Reverse(Bytes(a, n)))
  {
    var lo := Bytes(a, n);
    BytesSplit(a, n, k);
    var hi :| |hi| == k && Bytes(a, n + k) == lo + hi;
    assert Reverse(lo + hi) == Reverse(hi) + Reverse(lo);
    ShiftDrops(Reverse(hi), Reverse(lo));
  }

  lemma BytesOfValueExact(s: seq<Byte>, n: nat)
    requires n == |s|
    ensures Bytes(LittleEnd(s), n) == s
  {
    BytesOfValue(s, 0);
    assert s + Zeros(0) == s;
  }

  /** The swap-and-shift form reads the bytes big end first. */
  lemma Bin2IntMeaning(s: seq<Byte>, len: nat, revert: bool)
    requires |s| >= Min(len, 8)
    ensures var t := s[..Min(len, 8)];
            Bin2Int(s, len, revert) == LittleEnd(if revert then Reverse(t) else t)
  {
    var t := s[..Min(len, 8)];
    SwapShiftOfValue(t, 8 - |t|);
  }

  /** The swap-and-shift form stores the low bytes big end first. */
  lemma Int2BinMeaning(a: nat, len: nat, revert: bool)
    requires 1 <= len <= 8
    ensures Int2BinBytes(a, len, revert) == if revert then Reverse(Bytes(a, len)) else Bytes(a, len)
  {
    if revert {
      SwapShiftOfLowBytes(a, len, 8 - len);
      BytesOfValueExact(Reverse(Bytes(a, len)), len);
    }
  }

  /** Storing and reading back keeps the value modulo the width, in either order. */
  lemma Bin2IntUndoesInt2Bin(a: nat, len: nat, revert: bool)
    requires 1 <= len <= 8
    ensures Bin2Int(Int2BinBytes(a, len, revert), len, revert) == a % Pow256(len)
  {
    var s := Int2BinBytes(a, len, revert);
    Bin2IntMeaning(s, len, revert);
    Int2BinMeaning(a, len, revert);
    ValueOfBytes(a, len);
    assert s[..len] == s && Reverse(Reverse(Bytes(a, len))) == Bytes(a, len);
  }

  /** Reading and storing back gives the same bytes. */
  lemma Int2BinUndoesBin2Int(s: seq<Byte>, revert: bool)
    requires 1 <= |s| <= 8
    ensures Int2BinBytes(Bin2Int(s, |s|, revert), |s|, revert) == s
  {
    var t := if revert then Reverse(s) else s;
    Bin2IntMeaning(s, |s|, revert);
    Int2BinMeaning(LittleEnd(t), |s|, revert);
    BytesOfValueExact(t, |s|);
    assert s[..|s|] == s && Reverse(Reverse(s)) == s;
  }
}
