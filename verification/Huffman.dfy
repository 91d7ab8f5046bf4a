// Canonical Huffman codes (section 3.2.2 of RFC 1951) and the bit-by-bit decoder that
// needs only the number of codes of each length and the symbols in canonical order.
module Huffman {
  import opened Bits

  const MAX_BITS: nat := 15

  // A vector of code lengths: lengths[s] is the code length of symbol s, 0 when s is unused.
  ghost predicate CodeLengths(lengths: seq<nat>) {
    forall s :: 0 <= s < |lengths| ==> lengths[s] <= MAX_BITS
  }

  // The symbols whose code has length len, in increasing order.
  function SymbolsOf(lengths: seq<nat>, len: nat): seq<nat>
  {
    if lengths == [] then []
    else
      var n := |lengths| - 1;
      SymbolsOf(lengths[..n], len) + (if lengths[n] == len then [n] else [])
  }

  // How many codes have length len.
  function Count(lengths: seq<nat>, len: nat): nat { |SymbolsOf(lengths, len)| }

  // The symbols of the codes of length 1..len in canonical order.
  function Canonical(lengths: seq<nat>, len: nat): seq<nat> {
    if len == 0 then [] else Canonical(lengths, len - 1) + SymbolsOf(lengths, len)
  }

  // The position in canonical order of the first symbol of length len.
  function Offset(lengths: seq<nat>, len: nat): nat
    requires len >= 1
  {
    |Canonical(lengths, len - 1)|
  }

  // The numerically smallest code of length len (step 2 of the algorithm of section 3.2.2).
  function First(lengths: seq<nat>, len: nat): nat
    requires len >= 1
  {
    if len == 1 then 0 else 2 * (First(lengths, len - 1) + Count(lengths, len - 1))
  }

  // The position of symbol s among the symbols of its own length.
  function Rank(lengths: seq<nat>, s: nat): nat
    requires s < |lengths|
  {
    Count(lengths[..s], lengths[s])
  }

  predicate Used(lengths: seq<nat>, s: nat) { s < |lengths| && lengths[s] > 0 }

  // The codeword of a symbol: consecutive values within a length (step 3 of section 3.2.2).
  function Codeword(lengths: seq<nat>, s: nat): (w: seq<bool>)
    requires Used(lengths, s)
    ensures |w| == lengths[s]
  {
    MsbBits(First(lengths, lengths[s]) + Rank(lengths, s), lengths[s])
  }

  // The code space left over at length len, in units of codes of that length.
  function Left(lengths: seq<nat>, len: nat): int {
    if len == 0 then 1 else 2 * Left(lengths, len - 1) - Count(lengths, len)
  }

  // No code length asks for more codes than there are.
  ghost predicate Fits(lengths: seq<nat>) {
    forall len :: 1 <= len <= MAX_BITS ==> Left(lengths, len) >= 0
  }

  // Code lengths for which the codewords below form a prefix code.
  ghost predicate Code(lengths: seq<nat>) { CodeLengths(lengths) && Fits(lengths) }

  ghost predicate NoCodes(lengths: seq<nat>) {
    forall s :: 0 <= s < |lengths| ==> lengths[s] == 0
  }

  // The Kraft sum in units of 2^-15.
  function KraftSum(lengths: seq<nat>): nat
    requires CodeLengths(lengths)
  {
    if lengths == [] then 0
    else
      var n := |lengths| - 1;
      KraftSum(lengths[..n]) + (if lengths[n] == 0 then 0 else Pow2(MAX_BITS - lengths[n]))
  }

  // ---------- Counting symbols ----------

  // r lists symbols of length len.
  ghost predicate AllOfLength(lengths: seq<nat>, len: nat, r: seq<nat>) {
    forall k :: 0 <= k < |r| ==> r[k] < |lengths| && lengths[r[k]] == len
  }

  lemma {:induction false} SymbolsOfLength(lengths: seq<nat>, len: nat)
    ensures AllOfLength(lengths, len, SymbolsOf(lengths, len))
  {
    if lengths != [] { SymbolsOfLength(lengths[..|lengths| - 1], len); }
  }

  ghost predicate Increasing(r: seq<nat>) {
    forall i, j :: 0 <= i < j < |r| ==> r[i] < r[j]
  }

  lemma {:induction false} SymbolsOfIncreasing(lengths: seq<nat>, len: nat)
    ensures Increasing(SymbolsOf(lengths, len))
  {
    if lengths != [] {
      var n := |lengths| - 1;
      SymbolsOfIncreasing(lengths[..n], len);
      SymbolsOfLength(lengths[..n], len);
      IncreasingSnoc(SymbolsOf(lengths[..n], len), n);
    }
  }

  lemma IncreasingSnoc(r: seq<nat>, n: nat)
    requires Increasing(r) && forall k :: 0 <= k < |r| ==> r[k] < n
    ensures Increasing(r + [n])
  {
  }

  lemma {:induction false} SymbolsOfPrefix(lengths: seq<nat>, m: nat, len: nat)
    requires m <= |lengths|
    ensures SymbolsOf(lengths[..m], len) <= SymbolsOf(lengths, len)
    decreases |lengths| - m
  {
    if m < |lengths| {
      SymbolsOfPrefix(lengths, m + 1, len);
      assert lengths[..m + 1][..m] == lengths[..m];
    } else {
      assert lengths[..m] == lengths;
    }
  }

  // The rank of a symbol is where it stands among the symbols of its length.
  lemma RankIndexes(lengths: seq<nat>, s: nat)
    requires s < |lengths|
    ensures Rank(lengths, s) < Count(lengths, lengths[s])
    ensures SymbolsOf(lengths, lengths[s])[Rank(lengths, s)] == s
  {
    var len := lengths[s];
    SymbolsOfPrefix(lengths, s + 1, len);
    assert lengths[..s + 1][..s] == lengths[..s];
    assert SymbolsOf(lengths[..s + 1], len) == SymbolsOf(lengths[..s], len) + [s];
  }

  // ... and conversely.
  lemma RankOf(lengths: seq<nat>, len: nat, k: nat)
    requires k < Count(lengths, len)
    ensures var s := SymbolsOf(lengths, len)[k];
            s < |lengths| && lengths[s] == len && Rank(lengths, s) == k
  {
    SymbolsOfLength(lengths, len);
    var r := SymbolsOf(lengths, len);
    var s := r[k];
    RankIndexes(lengths, s);
    SymbolsOfIncreasing(lengths, len);
    var j := Rank(lengths, s);
    assert r[j] == r[k];
  }

  lemma PrefixGrows(a: seq<nat>, b: seq<nat>, c: seq<nat>)
    requires a <= b
    ensures a <= b + c
  {
  }

  lemma {:induction false} CanonicalPrefix(lengths: seq<nat>, a: nat, b: nat)
    requires a <= b
    ensures Canonical(lengths, a) <= Canonical(lengths, b)
    decreases b
  {
    if a < b {
      CanonicalPrefix(lengths, a, b - 1);
      PrefixGrows(Canonical(lengths, a), Canonical(lengths, b - 1), SymbolsOf(lengths, b));
    }
  }

  // The symbol stored at offset + rank is the right one.
  lemma CanonicalAt(lengths: seq<nat>, len: nat, k: nat, top: nat)
    requires 1 <= len <= top && k < Count(lengths, len)
    ensures Offset(lengths, len) + k < |Canonical(lengths, top)|
    ensures Canonical(lengths, top)[Offset(lengths, len) + k] == SymbolsOf(lengths, len)[k]
  {
    CanonicalPrefix(lengths, len, top);
    assert Canonical(lengths, len)[Offset(lengths, len) + k] == SymbolsOf(lengths, len)[k];
  }

  // ---------- Code space and Kraft sum ----------

  lemma {:induction false} LeftFirst(lengths: seq<nat>, len: nat)
    requires 1 <= len
    ensures Left(lengths, len) == Pow2(len) - First(lengths, len) - Count(lengths, len)
  {
    if len > 1 { LeftFirst(lengths, len - 1); } else { assert Left(lengths, 0) == 1; }
  }

  // The same sum up to length len, built one length at a time in units of 2^-len.
  function KraftUpTo(lengths: seq<nat>, len: nat): nat {
    if len == 0 then 0 else 2 * KraftUpTo(lengths, len - 1) + Count(lengths, len)
  }

  lemma {:induction false} KraftUpToStep(lengths: seq<nat>, len: nat)
    requires lengths != []
    ensures var n := |lengths| - 1;
            KraftUpTo(lengths, len) ==
            KraftUpTo(lengths[..n], len) + (if 1 <= lengths[n] <= len then Pow2(len - lengths[n]) else 0)
  {
    if len > 0 { KraftUpToStep(lengths, len - 1); }
  }

  lemma {:induction false} KraftUpToOfNothing(len: nat)
    ensures KraftUpTo([], len) == 0
  {
    if len > 0 { KraftUpToOfNothing(len - 1); }
  }

  lemma {:induction false} KraftRegroup(lengths: seq<nat>)
    requires CodeLengths(lengths)
    ensures KraftUpTo(lengths, MAX_BITS) == KraftSum(lengths)
  {
    if lengths == [] {
      KraftUpToOfNothing(MAX_BITS);
    } else {
      KraftRegroup(lengths[..|lengths| - 1]);
      KraftUpToStep(lengths, MAX_BITS);
    }
  }

  lemma {:induction false} LeftKraft(lengths: seq<nat>, len: nat)
    ensures Left(lengths, len) == Pow2(len) - KraftUpTo(lengths, len)
  {
    if len > 0 { LeftKraft(lengths, len - 1); }
  }

  lemma {:induction false} LeftStaysNegative(lengths: seq<nat>, a: nat, b: nat)
    requires a <= b && Left(lengths, a) < 0
    ensures Left(lengths, b) < 0
    decreases b
  {
    if a < b { LeftStaysNegative(lengths, a, b - 1); }
  }

  // The running check of the code space is the Kraft inequality.
  lemma FitsIffKraft(lengths: seq<nat>)
    requires CodeLengths(lengths)
    ensures Fits(lengths) <==> KraftSum(lengths) <= Pow2(MAX_BITS)
  {
    KraftRegroup(lengths);
    LeftKraft(lengths, MAX_BITS);
    forall len | 1 <= len <= MAX_BITS && Left(lengths, len) < 0 ensures Left(lengths, MAX_BITS) < 0 {
      LeftStaysNegative(lengths, len, MAX_BITS);
    }
  }

  lemma {:induction false} NoCodesCount(lengths: seq<nat>, len: nat)
    requires NoCodes(lengths) && len > 0
    ensures SymbolsOf(lengths, len) == []
  {
    if lengths != [] { NoCodesCount(lengths[..|lengths| - 1], len); }
  }

  lemma {:induction false} CountZeroAll(lengths: seq<nat>)
    ensures Count(lengths, 0) <= |lengths|
    ensures Count(lengths, 0) == |lengths| <==> NoCodes(lengths)
  {
    if lengths != [] {
      var n := |lengths| - 1;
      CountZeroAll(lengths[..n]);
      if Count(lengths, 0) == |lengths| {
        assert forall s :: 0 <= s < n ==> lengths[..n][s] == 0;
      }
    }
  }

  lemma NoCodesFits(lengths: seq<nat>)
    requires NoCodes(lengths)
    ensures Fits(lengths)
  {
    forall len | 1 <= len <= MAX_BITS ensures Left(lengths, len) >= 0 { NoCodesLeft(lengths, len); }
  }

  lemma {:induction false} NoCodesLeft(lengths: seq<nat>, len: nat)
    requires NoCodes(lengths)
    ensures Left(lengths, len) >= 0
  {
    if len > 0 {
      NoCodesLeft(lengths, len - 1);
      NoCodesCount(lengths, len);
    }
  }

  // ---------- Decoding ----------

  datatype Result<+T> = Ok(value: T, pos: nat) | Err(code: int) {
    predicate IsFailure() { Err? }
    function PropagateFailure<U>(): Result<U>
      requires Err?
    {
      Err(code)
    }
    function Extract(): (T, nat)
      requires Ok?
    {
      (value, pos)
    }
  }

  const INPUT_EXHAUSTED: int := -1
  const OUTPUT_FULL: int := -2
  const INVALID_BTYPE: int := -3
  const INVALID_STORED: int := -4
  const INVALID_CODE: int := -5
  const INVALID_DISTANCE: int := -6
  const INVALID_HUFFMAN: int := -7
  const TOO_MANY_CODES: int := -8

  // The numbers that callers compare with.
  lemma ErrorNumbers()
    ensures INPUT_EXHAUSTED == -1 && OUTPUT_FULL == -2 && INVALID_BTYPE == -3 && INVALID_STORED == -4
    ensures INVALID_CODE == -5 && INVALID_DISTANCE == -6 && INVALID_HUFFMAN == -7 && TOO_MANY_CODES == -8
  {
  }

  // The decoder's walk from length len on, when the len - 1 bits read so far have value v.
  function DecodeFrom(bs: seq<bool>, p: nat, lengths: seq<nat>, len: nat, v: nat): (r: Result<nat>)
    requires 1 <= len <= MAX_BITS + 1 && First(lengths, len) <= 2 * v
    ensures r.Ok? ==> p < r.pos <= |bs| && r.value < |lengths|
    ensures r.Err? ==> r.code < 0
    decreases MAX_BITS + 1 - len
  {
    if len > MAX_BITS then Err(INVALID_CODE)
    else if p >= |bs| then Err(INPUT_EXHAUSTED)
    else
      var code := 2 * v + Digit(bs[p]);
      var k := code - First(lengths, len);
      if k < Count(lengths, len) then
        SymbolsOfLength(lengths, len);
        Ok(SymbolsOf(lengths, len)[k], p + 1)
      else DecodeFrom(bs, p + 1, lengths, len + 1, code)
  }

  function Decode(bs: seq<bool>, p: nat, lengths: seq<nat>): (r: Result<nat>)
    ensures r.Ok? ==> p < r.pos <= |bs| && r.value < |lengths|
    ensures r.Err? ==> r.code < 0
  {
    DecodeFrom(bs, p, lengths, 1, 0)
  }

  // `part` occurs in bs at position p.
  ghost predicate At(bs: seq<bool>, p: nat, part: seq<bool>) {
    p + |part| <= |bs| && bs[p..p + |part|] == part
  }

  lemma AtAppend(bs: seq<bool>, p: nat, a: seq<bool>, b: seq<bool>)
    ensures At(bs, p, a + b) <==> At(bs, p, a) && At(bs, p + |a|, b)
  {
    if p + |a| + |b| <= |bs| {
      var x, y := bs[p..p + |a|], bs[p + |a|..p + |a| + |b|];
      assert bs[p..p + |a + b|] == x + y;
      assert x + y == a + b ==> x == (x + y)[..|a|] == a && y == (x + y)[|a|..] == b;
    }
  }

  // Cut to a shorter length, a code of length |w| lies beyond every code of that length.
  lemma {:induction false} PrefixBeyond(lengths: seq<nat>, w: seq<bool>, len: nat)
    requires 1 <= len <= |w| && MsbVal(w) >= First(lengths, |w|)
    ensures MsbVal(w[..len]) >= First(lengths, len)
    ensures len < |w| ==> MsbVal(w[..len]) >= First(lengths, len) + Count(lengths, len)
    ensures len < |w| ==> 2 * MsbVal(w[..len]) >= First(lengths, len + 1)
    decreases |w|
  {
    if len < |w| {
      var v := w[..|w| - 1];
      PrefixBeyond(lengths, v, len);
      assert v[..len] == w[..len];
    } else {
      assert w[..len] == w;
    }
  }

  lemma CodewordValue(lengths: seq<nat>, s: nat)
    requires Used(lengths, s) && lengths[s] <= MAX_BITS && Fits(lengths)
    ensures MsbVal(Codeword(lengths, s)) == First(lengths, lengths[s]) + Rank(lengths, s)
  {
    RankIndexes(lengths, s);
    LeftFirst(lengths, lengths[s]);
    MsbValMsbBits(First(lengths, lengths[s]) + Rank(lengths, s), lengths[s]);
  }

  // One step of the decoder.
  lemma DecodeFromStep(bs: seq<bool>, p: nat, lengths: seq<nat>, len: nat, v: nat)
    requires 1 <= len <= MAX_BITS && p < |bs| && First(lengths, len) <= 2 * v
    ensures var c, f := 2 * v + Digit(bs[p]), First(lengths, len);
            && (c - f < Count(lengths, len) ==>
                 DecodeFrom(bs, p, lengths, len, v) == Ok(SymbolsOf(lengths, len)[c - f], p + 1))
            && (c - f >= Count(lengths, len) ==>
                 First(lengths, len + 1) <= 2 * c &&
                 DecodeFrom(bs, p, lengths, len, v) == DecodeFrom(bs, p + 1, lengths, len + 1, c))
  {
    hide SymbolsOf;
  }

  lemma DecodeFromEnd(bs: seq<bool>, p: nat, lengths: seq<nat>, len: nat, v: nat)
    requires 1 <= len <= MAX_BITS + 1 && First(lengths, len) <= 2 * v
    requires len > MAX_BITS || p >= |bs|
    ensures DecodeFrom(bs, p, lengths, len, v) == Err(if len > MAX_BITS then INVALID_CODE else INPUT_EXHAUSTED)
  {
  }

  lemma {:induction false} DecodeCodewordFrom(
    bs: seq<bool>, p: nat, lengths: seq<nat>, s: nat, len: nat, v: nat)
    requires Used(lengths, s) && lengths[s] <= MAX_BITS && Fits(lengths)
    requires 1 <= len <= lengths[s] && At(bs, p, Codeword(lengths, s))
    requires v == MsbVal(Codeword(lengths, s)[..len - 1]) && First(lengths, len) <= 2 * v
    ensures DecodeFrom(bs, p + len - 1, lengths, len, v) == Ok(s, p + lengths[s])
    decreases lengths[s] - len
  {
    hide Codeword, Fits, Rank, SymbolsOf, First, DecodeFrom;
    var w := Codeword(lengths, s);
    var code := MsbVal(w[..len]);
    assert code == 2 * v + Digit(bs[p + len - 1]) by {
      assert bs[p..p + |w|][len - 1] == w[len - 1];
      MsbValSnoc(w, len);
    }
    CodewordValue(lengths, s);
    PrefixBeyond(lengths, w, len);
    DecodeFromStep(bs, p + len - 1, lengths, len, v);
    if len < lengths[s] {
      DecodeCodewordFrom(bs, p, lengths, s, len + 1, code);
    } else {
      assert w[..len] == w;
      RankIndexes(lengths, s);
    }
  }

  lemma MsbValSnoc(w: seq<bool>, len: nat)
    requires 1 <= len <= |w|
    ensures MsbVal(w[..len]) == 2 * MsbVal(w[..len - 1]) + Digit(w[len - 1])
  {
    assert w[..len][..len - 1] == w[..len - 1];
  }

  // Decoding inverts the canonical code.
  lemma DecodeCodeword(bs: seq<bool>, p: nat, lengths: seq<nat>, s: nat)
    requires Code(lengths) && Used(lengths, s)
    requires At(bs, p, Codeword(lengths, s))
    ensures Decode(bs, p, lengths) == Ok(s, p + lengths[s])
  {
    assert Codeword(lengths, s)[..0] == [];
    DecodeCodewordFrom(bs, p, lengths, s, 1, 0);
  }

  // Whatever the decoder returns, its codeword is what was read.
  // The bits from p up to where r stopped are the codeword of the symbol r found.
  ghost predicate Reads(bs: seq<bool>, p: nat, lengths: seq<nat>, r: Result<nat>) {
    r.Ok? ==> Used(lengths, r.value) && r.pos == p + lengths[r.value] && At(bs, p, Codeword(lengths, r.value))
  }

  lemma {:induction false} DecodeFromSound(
    bs: seq<bool>, p: nat, lengths: seq<nat>, len: nat, w: seq<bool>, v: nat)
    requires 1 <= len <= MAX_BITS + 1 && |w| == len - 1 && At(bs, p, w)
    requires v == MsbVal(w) && First(lengths, len) <= 2 * v
    ensures Reads(bs, p, lengths, DecodeFrom(bs, p + len - 1, lengths, len, v))
    decreases MAX_BITS + 1 - len
  {
    hide Codeword, SymbolsOf, First, DecodeFrom;
    var q := p + len - 1;
    if len > MAX_BITS || q >= |bs| {
      DecodeFromEnd(bs, q, lengths, len, v);
    } else {
      DecodeFromStep(bs, q, lengths, len, v);
      var w' := w + [bs[q]];
      var code := 2 * v + Digit(bs[q]);
      assert MsbVal(w') == code by { assert w'[..len - 1] == w; }
      assert At(bs, p, w') by { AtAppend(bs, p, w, [bs[q]]); }
      var k := code - First(lengths, len);
      if k < Count(lengths, len) {
        FoundReads(bs, p, lengths, len, w', k);
      } else {
        DecodeFromSound(bs, p, lengths, len + 1, w', code);
      }
    }
  }

  lemma CodewordIs(lengths: seq<nat>, s: nat, w: seq<bool>)
    requires Used(lengths, s) && |w| == lengths[s]
    requires MsbVal(w) == First(lengths, lengths[s]) + Rank(lengths, s)
    ensures Codeword(lengths, s) == w
  {
    MsbBitsMsbVal(w);
  }

  lemma FoundReads(bs: seq<bool>, p: nat, lengths: seq<nat>, len: nat, w: seq<bool>, k: nat)
    requires 1 <= len == |w| && At(bs, p, w) && k < Count(lengths, len)
    requires MsbVal(w) == First(lengths, len) + k
    ensures Reads(bs, p, lengths, Ok(SymbolsOf(lengths, len)[k], p + len))
  {
    RankOf(lengths, len, k);
    CodewordIs(lengths, SymbolsOf(lengths, len)[k], w);
  }

  lemma DecodeSound(bs: seq<bool>, p: nat, lengths: seq<nat>)
    requires p <= |bs|
    ensures Reads(bs, p, lengths, Decode(bs, p, lengths))
  {
    DecodeFromSound(bs, p, lengths, 1, [], 0);
  }

  // No codeword is a prefix of another symbol's codeword.
  lemma PrefixFree(lengths: seq<nat>, s: nat, t: nat)
    requires Code(lengths) && Used(lengths, s) && Used(lengths, t)
    requires Codeword(lengths, s) <= Codeword(lengths, t)
    ensures s == t
  {
    var bs := Codeword(lengths, t);
    DecodeCodeword(bs, 0, lengths, s);
    DecodeCodeword(bs, 0, lengths, t);
  }

  // The order of the canonical table: by code length, then by symbol.
  ghost predicate Before(lengths: seq<nat>, a: nat, b: nat)
    requires a < |lengths| && b < |lengths|
  {
    lengths[a] < lengths[b] || (lengths[a] == lengths[b] && a < b)
  }

  ghost predicate SortedUpTo(lengths: seq<nat>, c: seq<nat>, top: nat) {
    && (forall i :: 0 <= i < |c| ==> c[i] < |lengths| && 1 <= lengths[c[i]] <= top)
    && (forall i, j :: 0 <= i < j < |c| ==> Before(lengths, c[i], c[j]))
    && (forall s :: 0 <= s < |lengths| && 1 <= lengths[s] <= top ==> s in c)
  }

  // The canonical table is the stable sort of the used symbols by (length, symbol).
  lemma {:induction false} CanonicalSorted(lengths: seq<nat>, top: nat)
    ensures SortedUpTo(lengths, Canonical(lengths, top), top)
  {
    hide SymbolsOf, SortedUpTo, Increasing, AllOfLength, Rank;
    if top == 0 {
      NothingSorted(lengths);
    } else {
      CanonicalSorted(lengths, top - 1);
      SymbolsOfIncreasing(lengths, top);
      SymbolsOfLength(lengths, top);
      forall s | 0 <= s < |lengths| && lengths[s] == top ensures s in SymbolsOf(lengths, top) {
        RankIndexes(lengths, s);
      }
      SortedGrows(lengths, Canonical(lengths, top - 1), SymbolsOf(lengths, top), top);
    }
  }

  lemma NothingSorted(lengths: seq<nat>)
    ensures SortedUpTo(lengths, [], 0)
  {
  }

  lemma SortedGrows(lengths: seq<nat>, c: seq<nat>, r: seq<nat>, top: nat)
    requires top > 0 && SortedUpTo(lengths, c, top - 1) && Increasing(r)
    requires AllOfLength(lengths, top, r)
    requires forall s :: 0 <= s < |lengths| && lengths[s] == top ==> s in r
    ensures SortedUpTo(lengths, c + r, top)
  {
  }
}
