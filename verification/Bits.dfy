// Bit strings and the numbers they denote.  A DEFLATE stream is read as one long
// sequence of bits: the bits of each byte from the least significant upwards.
module Bits {

  type byte = x: int | 0 <= x < 256

  function Pow2(n: nat): (r: nat)
    ensures r > 0
  {
    if n == 0 then 1 else 2 * Pow2(n - 1)
  }

  function Digit(b: bool): nat { if b then 1 else 0 }

  // The number whose binary digits are bs, least significant first.
  function Val(bs: seq<bool>): nat {
    if bs == [] then 0 else Digit(bs[0]) + 2 * Val(bs[1..])
  }

  // The low n binary digits of v, least significant first.
  function LowBits(v: nat, n: nat): (bs: seq<bool>)
    ensures |bs| == n
  {
    if n == 0 then [] else [v % 2 == 1] + LowBits(v / 2, n - 1)
  }

  // The low n binary digits of v, most significant first (Huffman codes are packed this way).
  function MsbBits(v: nat, n: nat): (bs: seq<bool>)
    ensures |bs| == n
  {
    if n == 0 then [] else MsbBits(v / 2, n - 1) + [v % 2 == 1]
  }

  // The number whose binary digits are bs, most significant first.
  function MsbVal(bs: seq<bool>): nat {
    if bs == [] then 0 else 2 * MsbVal(bs[..|bs| - 1]) + Digit(bs[|bs| - 1])
  }

  // The whole input as one bit string.
  function ToBits(s: seq<byte>): (bs: seq<bool>)
    ensures |bs| == 8 * |s|
  {
    if s == [] then [] else ToBits(s[..|s| - 1]) + LowBits(s[|s| - 1], 8)
  }

  lemma Pow2Add(m: nat, n: nat)
    ensures Pow2(m + n) == Pow2(m) * Pow2(n)
  {
    if m > 0 {
      Pow2Add(m - 1, n);
      assert Pow2(m + n) == 2 * Pow2(m - 1 + n);
    }
  }

  lemma {:induction false} ValBound(bs: seq<bool>)
    ensures Val(bs) < Pow2(|bs|)
  {
    if bs != [] { ValBound(bs[1..]); }
  }

  lemma Pow2Small()
    ensures Pow2(0) == 1 && Pow2(1) == 2 && Pow2(2) == 4 && Pow2(3) == 8 && Pow2(4) == 16 && Pow2(5) == 32
    ensures Pow2(7) == 128 && Pow2(8) == 256 && Pow2(16) == 65536
  {
    assert Pow2(4) == 16;
    Pow2Add(4, 4);
    Pow2Add(8, 8);
  }

  lemma DoubleProduct(p: nat, v: nat)
    ensures (2 * p) * v == 2 * (p * v)
  {
  }

  lemma {:induction false} ValAppend(a: seq<bool>, b: seq<bool>)
    ensures Val(a + b) == Val(a) + Pow2(|a|) * Val(b)
  {
    if a == [] {
      assert a + b == b;
    } else {
      assert (a + b)[1..] == a[1..] + b;
      ValAppend(a[1..], b);
      DoubleProduct(Pow2(|a| - 1), Val(b));
    }
  }

  lemma {:induction false} ValLowBits(v: nat, n: nat)
    requires v < Pow2(n)
    ensures Val(LowBits(v, n)) == v
  {
    if n > 0 {
      ValLowBits(v / 2, n - 1);
      assert LowBits(v, n)[1..] == LowBits(v / 2, n - 1);
    }
  }

  lemma {:induction false} LowBitsVal(bs: seq<bool>)
    ensures LowBits(Val(bs), |bs|) == bs
  {
    if bs != [] {
      LowBitsVal(bs[1..]);
      assert Val(bs) / 2 == Val(bs[1..]);
      assert bs == [bs[0]] + bs[1..];
    }
  }

  lemma {:induction false} MsbValMsbBits(v: nat, n: nat)
    requires v < Pow2(n)
    ensures MsbVal(MsbBits(v, n)) == v
  {
    if n > 0 {
      MsbValMsbBits(v / 2, n - 1);
      assert MsbBits(v, n)[..n - 1] == MsbBits(v / 2, n - 1);
    }
  }

  lemma HalfDigit(v: nat, b: bool)
    ensures (2 * v + Digit(b)) / 2 == v && ((2 * v + Digit(b)) % 2 == 1) == b
  {
  }

  lemma {:induction false} MsbBitsMsbVal(bs: seq<bool>)
    ensures MsbBits(MsbVal(bs), |bs|) == bs
  {
    if bs != [] {
      var n := |bs| - 1;
      MsbBitsMsbVal(bs[..n]);
      HalfDigit(MsbVal(bs[..n]), bs[n]);
      assert bs == bs[..n] + [bs[n]];
    }
  }

  // Cutting a number at bit n: what a shift and a mask take apart.
  lemma {:induction false} ValCut(bs: seq<bool>, n: nat)
    requires n <= |bs|
    ensures Val(bs) % Pow2(n) == Val(bs[..n])
    ensures Val(bs) / Pow2(n) == Val(bs[n..])
  {
    assert bs == bs[..n] + bs[n..];
    ValAppend(bs[..n], bs[n..]);
    ValBound(bs[..n]);
    DivModUnique(Val(bs), Pow2(n), Val(bs[n..]), Val(bs[..n]));
  }

  lemma DivModUnique(x: nat, d: nat, q: nat, r: nat)
    requires d > 0 && r < d && x == r + d * q
    ensures x / d == q && x % d == r
  {
    var q': int, r': int := x / d, x % d;
    assert x == d * q' + r';
    var k: int := q - q';
    assert d * k == r' - r;
    assert k >= 1 ==> d * k >= d;
    assert k <= -1 ==> d * k + d <= 0;
  }

  lemma {:induction false} ToBitsByte(s: seq<byte>, j: nat)
    requires j < |s|
    ensures ToBits(s)[8 * j..8 * j + 8] == LowBits(s[j], 8)
    ensures Val(ToBits(s)[8 * j..8 * j + 8]) == s[j]
  {
    var n := |s| - 1;
    if j < n {
      ToBitsByte(s[..n], j);
      assert ToBits(s)[8 * j..8 * j + 8] == ToBits(s[..n])[8 * j..8 * j + 8];
    } else {
      assert ToBits(s)[8 * j..8 * j + 8] == LowBits(s[j], 8);
    }
    assert Pow2(8) == 256;
    ValLowBits(s[j], 8);
  }

  lemma {:induction false} ToBitsAppend(a: seq<byte>, b: seq<byte>)
    ensures ToBits(a + b) == ToBits(a) + ToBits(b)
  {
    if b == [] {
      assert a + b == a;
    } else {
      var n := |b| - 1;
      assert (a + b)[..|a| + n] == a + b[..n];
      ToBitsAppend(a, b[..n]);
      assert ToBits(a + b) == ToBits(a) + ToBits(b[..n]) + LowBits(b[n], 8);
    }
  }

  // Bytes that hold a given bit string, the last byte filled up with zero bits.
  function Pack(bs: seq<bool>): (s: seq<byte>)
    ensures 8 * |s| >= |bs|
  {
    if bs == [] then []
    else if |bs| <= 8 then PackLast(bs)
    else PackLast(bs[..8]) + Pack(bs[8..])
  }

  function PackLast(bs: seq<bool>): (s: seq<byte>)
    requires |bs| <= 8
    ensures |s| == 1
  {
    var z := seq(8 - |bs|, _ => false);
    ValBound(bs + z);
    assert Pow2(8) == 256;
    [Val(bs + z)]
  }

  lemma {:induction false} PackToBits(bs: seq<bool>)
    ensures bs <= ToBits(Pack(bs))
  {
    hide ToBits, PackLast;
    if bs == [] {
    } else if |bs| <= 8 {
      PackLastToBits(bs);
    } else {
      PackLastToBits(bs[..8]);
      PackToBits(bs[8..]);
      ToBitsAppend(PackLast(bs[..8]), Pack(bs[8..]));
      assert bs == bs[..8] + bs[8..];
    }
  }

  lemma PackLastToBits(bs: seq<bool>)
    requires |bs| <= 8
    ensures bs <= ToBits(PackLast(bs))
  {
    var z := seq(8 - |bs|, _ => false);
    LowBitsVal(bs + z);
    assert ToBits(PackLast(bs)) == [] + LowBits(PackLast(bs)[0], 8);
  }
}
