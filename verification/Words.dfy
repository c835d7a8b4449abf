// Sequence facts, bytes, 256-bit words and the big-endian reading that connects them.

module Sequences {

  lemma Assoc<T>(a: seq<T>, b: seq<T>, c: seq<T>)
    ensures (a + b) + c == a + (b + c)
  {
  }

  lemma Append3<T>(s: seq<T>, a: T, b: T, c: T)
    ensures s + [a] + [b] + [c] == s + [a, b, c]
  {
  }

  lemma Append5<T>(s: seq<T>, a: T, b: T, c: T, d: T, e: T)
    ensures s + [a] + [b] + [c] + [d] + [e] == s + [a, b, c, d, e]
  {
  }

  lemma SliceLeft<T>(a: seq<T>, b: seq<T>, i: nat, j: nat)
    requires i <= j <= |a|
    ensures (a + b)[i..j] == a[i..j]
  {
  }

  lemma UpdateLeft<T>(a: seq<T>, b: seq<T>, i: nat, x: T)
    requires i < |a|
    ensures (a + b)[i := x] == a[i := x] + b
  {
  }

  // The first k pieces, one after the other.
  function Flat<T>(pieces: seq<seq<T>>, k: nat): seq<T>
    requires k <= |pieces|
  {
    if k == 0 then [] else Flat(pieces, k - 1) + pieces[k - 1]
  }

  lemma FlatStep<T>(pieces: seq<seq<T>>, k: nat, init: seq<T>, last: seq<T>)
    requires 0 < k <= |pieces|
    requires init == Flat(pieces, k - 1) && last == pieces[k - 1]
    ensures init + last == Flat(pieces, k)
  {
  }

  lemma {:induction false} FlatAt<T>(pieces: seq<seq<T>>, j: nat, k: nat)
    requires j < k <= |pieces|
    ensures |Flat(pieces, j)| + |pieces[j]| <= |Flat(pieces, k)|
    ensures Flat(pieces, k)[|Flat(pieces, j)|..|Flat(pieces, j)| + |pieces[j]|] == pieces[j]
  {
    var init, last := Flat(pieces, k - 1), pieces[k - 1];
    var lo, hi := |Flat(pieces, j)|, |Flat(pieces, j)| + |pieces[j]|;
    if j < k - 1 {
      FlatAt(pieces, j, k - 1);
      SliceLeft(init, last, lo, hi);
    } else {
      assert (init + last)[lo..hi] == last;
    }
  }

  lemma {:induction false} FlatPrefix<T>(pieces: seq<seq<T>>, other: seq<seq<T>>, k: nat)
    requires k <= |pieces| && k <= |other|
    requires forall i :: 0 <= i < k ==> pieces[i] == other[i]
    ensures Flat(pieces, k) == Flat(other, k)
  {
    if k > 0 {
      FlatPrefix(pieces, other, k - 1);
    }
  }

  // Overwriting one element inside piece d of the flattened sequence changes that piece alone.
  lemma {:induction false} FlatUpdate<T>(pieces: seq<seq<T>>, d: nat, i: nat, x: T, k: nat)
    requires d < k <= |pieces| && i < |pieces[d]|
    ensures |Flat(pieces, d)| + i < |Flat(pieces, k)|
    ensures Flat(pieces, k)[|Flat(pieces, d)| + i := x] == Flat(pieces[d := pieces[d][i := x]], k)
  {
    var pieces' := pieces[d := pieces[d][i := x]];
    var init, last := Flat(pieces, k - 1), pieces[k - 1];
    var at := |Flat(pieces, d)| + i;
    if d < k - 1 {
      FlatUpdate(pieces, d, i, x, k - 1);
      UpdateLeft(init, last, at, x);
    } else {
      FlatPrefix(pieces, pieces', d);
      assert (init + last)[at := x] == init + last[i := x];
    }
  }

  lemma FlatUpdateTwo<T>(pieces: seq<seq<T>>, d: nat, x: T, y: T, k: nat)
    requires d < k <= |pieces| && |pieces[d]| == 3
    ensures var at := |Flat(pieces, d)|;
      && at + 2 < |Flat(pieces, k)|
      && Flat(pieces, k)[at + 1 := x][at + 2 := y] == Flat(pieces[d := [pieces[d][0], x, y]], k)
  {
    var middle := pieces[d := pieces[d][1 := x]];
    FlatUpdate(pieces, d, 1, x, k);
    FlatPrefix(pieces, middle, d);
    FlatUpdate(middle, d, 2, y, k);
    assert middle[d][2 := y] == [pieces[d][0], x, y];
    assert middle[d := middle[d][2 := y]] == pieces[d := [pieces[d][0], x, y]];
  }
}

module Words {

  type byte = x: int | 0 <= x < 256
  type uint32 = x: int | 0 <= x < 0x1_0000_0000

  const WORD_LIMIT: int :=
    0x1_00000000_00000000_00000000_00000000_00000000_00000000_00000000_00000000

  type Word = x: int | 0 <= x < WORD_LIMIT

  // The low 32 bits.
  function Low32(n: int): uint32 {
    if 0 <= n < 0x1_0000_0000 then n else n % 0x1_0000_0000
  }

  function Pow256(n: nat): (r: nat)
    ensures r > 0
  {
    if n == 0 then 1 else 256 * Pow256(n - 1)
  }

  function Pow2(n: nat): (r: nat)
    ensures r > 0
  {
    if n == 0 then 1 else 2 * Pow2(n - 1)
  }

  // The number a big-endian byte string denotes.
  function FromBytes(s: seq<byte>): nat {
    if s == [] then 0 else 256 * FromBytes(s[..|s| - 1]) + s[|s| - 1]
  }

  // The low n bytes of v, most significant first.
  function ToBytes(v: nat, n: nat): (s: seq<byte>)
    ensures |s| == n
  {
    if n == 0 then [] else ToBytes(v / 256, n - 1) + [v % 256]
  }

  function Zeros(n: nat): (s: seq<byte>)
    ensures |s| == n && forall i :: 0 <= i < n ==> s[i] == 0
  {
    seq(n, _ => 0)
  }

  lemma {:induction false} PowAdd(a: nat, b: nat)
    ensures Pow256(a + b) == Pow256(a) * Pow256(b)
  {
    if a > 0 {
      PowAdd(a - 1, b);
    }
  }

  lemma PowMono(a: nat, b: nat)
    ensures a <= b ==> Pow256(a) <= Pow256(b)
    decreases b - a
  {
    if a < b {
      PowMono(a + 1, b);
    }
  }

  lemma {:induction false} Pow2Bytes(n: nat)
    ensures Pow2(8 * n) == Pow256(n)
  {
    if n > 0 {
      Pow2Bytes(n - 1);
      var k := 8 * (n - 1);
      assert Pow2(k + 2) == 4 * Pow2(k);
      assert Pow2(k + 4) == 4 * Pow2(k + 2);
      assert Pow2(k + 6) == 4 * Pow2(k + 4);
      assert Pow2(k + 8) == 4 * Pow2(k + 6);
    }
  }

  lemma PowFour()
    ensures Pow256(1) == 0x100 && Pow256(2) == 0x1_0000 && Pow256(4) == 0x1_0000_0000
  {
    assert Pow256(1) == 256 * Pow256(0);
    assert Pow256(2) == 256 * Pow256(1);
    assert Pow256(3) == 256 * Pow256(2);
    assert Pow256(4) == 256 * Pow256(3);
  }

  lemma WordLimitIsPow()
    ensures WORD_LIMIT == Pow256(32)
  {
    PowFour();
    PowAdd(4, 4);
    PowAdd(8, 8);
    PowAdd(16, 16);
  }

  lemma {:induction false} FromBytesBound(s: seq<byte>)
    ensures FromBytes(s) < Pow256(|s|)
  {
    if s != [] {
      FromBytesBound(s[..|s| - 1]);
    }
  }

  lemma {:induction false} FromBytesConcat(a: seq<byte>, b: seq<byte>)
    ensures FromBytes(a + b) == FromBytes(a) * Pow256(|b|) + FromBytes(b)
  {
    if b == [] {
      assert a + b == a;
    } else {
      var b' := b[..|b| - 1];
      FromBytesConcat(a, b');
      assert (a + b)[..|a + b| - 1] == a + b';
      assert Pow256(|b|) == 256 * Pow256(|b'|);
      Regroup(FromBytes(a), Pow256(|b'|), FromBytes(b'), b[|b| - 1]);
    }
  }

  lemma Regroup(x: nat, p: nat, y: nat, d: nat)
    ensures 256 * (x * p + y) + d == x * (256 * p) + (256 * y + d)
  {
    assert 256 * (x * p) == x * (256 * p);
  }

  lemma {:induction false} FromBytesZeros(n: nat)
    ensures FromBytes(Zeros(n)) == 0
  {
    if n > 0 {
      FromBytesZeros(n - 1);
      assert Zeros(n)[..n - 1] == Zeros(n - 1);
    }
  }

  // Reading back what ToBytes wrote: the value modulo 256^n.
  lemma {:induction false} FromToBytes(v: nat, n: nat)
    requires v < Pow256(n)
    ensures FromBytes(ToBytes(v, n)) == v
  {
    if n > 0 {
      FromToBytes(v / 256, n - 1);
      assert ToBytes(v, n)[..n - 1] == ToBytes(v / 256, n - 1);
    }
  }

  lemma {:induction false} ToFromBytes(s: seq<byte>)
    ensures ToBytes(FromBytes(s), |s|) == s
  {
    if s != [] {
      ToFromBytes(s[..|s| - 1]);
      assert s == s[..|s| - 1] + [s[|s| - 1]];
    }
  }

  // v without its n low bytes.
  function Shift(v: nat, n: nat): nat {
    if n == 0 then v else Shift(v / 256, n - 1)
  }

  lemma {:induction false} ShiftAdd(v: nat, a: nat, b: nat)
    ensures Shift(v, a + b) == Shift(Shift(v, a), b)
  {
    if a > 0 {
      ShiftAdd(v / 256, a - 1, b);
    }
  }

  // A byte string of at most 32 bytes as a machine word.
  function WordOf(s: seq<byte>): (w: Word)
    requires |s| <= 32
    ensures w == FromBytes(s)
  {
    FromBytesBound(s);
    PowMono(|s|, 32);
    WordLimitIsPow();
    FromBytes(s)
  }

  lemma WordBytes(v: Word)
    ensures FromBytes(ToBytes(v, 32)) == v
  {
    WordLimitIsPow();
    FromToBytes(v, 32);
  }
}
