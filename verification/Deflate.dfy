// What a DEFLATE decoder computes, as a function of the input bits (RFC 1951).
module Deflate {
  import opened Bits
  import opened Huffman

  const MAX_LCODES: nat := 286
  const MAX_DCODES: nat := 30
  const END_OF_BLOCK: nat := 256

  const LEN_BASE: seq<nat> := [
    3, 4, 5, 6, 7, 8, 9, 10, 11, 13, 15, 17, 19, 23, 27, 31, 35, 43, 51, 59, 67, 83, 99, 115, 131, 163, 195, 227, 258]
  const LEN_EXTRA: seq<nat> := [
    0, 0, 0, 0, 0, 0, 0, 0, 1, 1, 1, 1, 2, 2, 2, 2, 3, 3, 3, 3, 4, 4, 4, 4, 5, 5, 5, 5, 0]
  const DIST_BASE: seq<nat> := [
    1, 2, 3, 4, 5, 7, 9, 13, 17, 25, 33, 49, 65, 97, 129, 193, 257, 385, 513, 769,
    1025, 1537, 2049, 3073, 4097, 6145, 8193, 12289, 16385, 24577]
  const DIST_EXTRA: seq<nat> := [
    0, 0, 0, 0, 1, 1, 2, 2, 3, 3, 4, 4, 5, 5, 6, 6, 7, 7, 8, 8, 9, 9, 10, 10, 11, 11, 12, 12, 13, 13]
  const CLEN_ORDER: seq<nat> := [16, 17, 18, 0, 8, 7, 9, 6, 10, 5, 11, 4, 12, 3, 13, 2, 14, 1, 15]

  function LenBase(l: nat): (r: nat)
    requires l < 29
    ensures 3 <= r <= 258
  {
    LEN_BASE[l]
  }

  function LenExtra(l: nat): (r: nat)
    requires l < 29
    ensures r <= 5
  {
    LEN_EXTRA[l]
  }

  function DistBase(d: nat): (r: nat)
    requires d < 30
    ensures 1 <= r <= 24577
  {
    DIST_BASE[d]
  }

  function DistExtra(d: nat): (r: nat)
    requires d < 30
    ensures r <= 13
  {
    DIST_EXTRA[d]
  }

  // The i-th symbol of the code length alphabet in transmission order.
  function ClenSymbol(i: nat): (s: nat)
    requires i < 19
    ensures s < 19
  {
    CLEN_ORDER[i]
  }

  // The next n bits as a number, least significant bit first (section 3.1.1).
  function GetBits(bs: seq<bool>, p: nat, n: nat): (r: Result<nat>)
    ensures r.Ok? ==> p + n <= |bs| && r.pos == p + n && r.value < Pow2(n)
    ensures r.Err? ==> r.code < 0
  {
    if p + n > |bs| then Err(INPUT_EXHAUSTED)
    else
      ValBound(bs[p..p + n]);
      Ok(Val(bs[p..p + n]), p + n)
  }

  // out followed by the copy of `len` bytes starting `dist` bytes back; the copied string
  // may overlap itself, and then repeats with period dist (section 3.2.3).
  function Copy(out: seq<byte>, len: nat, dist: nat): (r: seq<byte>)
    requires 1 <= dist <= |out|
    ensures |r| == |out| + len
  {
    out + seq(len, i requires 0 <= i < len => out[|out| - dist + i % dist])
  }

  // The length and the distance of a back-reference whose length code is l (section 3.2.5).
  function LengthDistance(bs: seq<bool>, p: nat, l: nat, dl: seq<nat>): (r: Result<(nat, nat)>)
    ensures r.Ok? ==> p < r.pos <= |bs| && r.value.1 >= 1
    ensures r.Err? ==> r.code < 0
  {
    if l >= 29 then Err(INVALID_CODE) else
    var (lextra, p1) :- GetBits(bs, p, LenExtra(l));
    var (d, p2) :- Decode(bs, p1, dl);
    if d >= 30 then Err(INVALID_DISTANCE) else
    var (dextra, p3) :- GetBits(bs, p2, DistExtra(d));
    Ok((LenBase(l) + lextra, DistBase(d) + dextra), p3)
  }

  // The body of a compressed block, up to the end-of-block symbol; out is what came before.
  function Codes(bs: seq<bool>, p: nat, ll: seq<nat>, dl: seq<nat>, out: seq<byte>, cap: nat): (r: Result<seq<byte>>)
    ensures r.Ok? ==> p < r.pos <= |bs| && out <= r.value
    ensures r.Ok? && |out| <= cap ==> |r.value| <= cap
    ensures r.Err? ==> r.code < 0
    decreases |bs| - p
  {
    var (sym, p1) :- Decode(bs, p, ll);
    if sym < 256 then
      if |out| >= cap then Err(OUTPUT_FULL) else Codes(bs, p1, ll, dl, out + [sym], cap)
    else if sym == END_OF_BLOCK then Ok(out, p1)
    else
      var (m, p2) :- LengthDistance(bs, p1, sym - 257, dl);
      if m.1 > |out| then Err(INVALID_DISTANCE)
      else if |out| + m.0 > cap then Err(OUTPUT_FULL)
      else Codes(bs, p2, ll, dl, Copy(out, m.0, m.1), cap)
  }

  // The next byte boundary.
  function Aligned(p: nat): (q: nat)
    ensures p <= q < p + 8 && q % 8 == 0
  {
    (p + 7) / 8 * 8
  }

  // The n bytes from position p on.
  function Bytes(bs: seq<bool>, p: nat, n: nat): (r: seq<byte>)
    requires p + 8 * n <= |bs|
    ensures |r| == n
    decreases n
  {
    if n == 0 then []
    else
      ValBound(bs[p..p + 8]);
      assert Pow2(8) == 256;
      [Val(bs[p..p + 8])] + Bytes(bs, p + 8, n - 1)
  }

  // A stored block (section 3.2.4).
  function Stored(bs: seq<bool>, p: nat, out: seq<byte>, cap: nat): (r: Result<seq<byte>>)
    ensures r.Ok? ==> p < r.pos <= |bs| && out <= r.value && (|out| <= cap ==> |r.value| <= cap)
    ensures r.Err? ==> r.code < 0
  {
    var q := Aligned(p);
    if q + 32 > |bs| then Err(INPUT_EXHAUSTED) else
    var len, nlen := Val(bs[q..q + 16]), Val(bs[q + 16..q + 32]);
    if len + nlen != 65535 then Err(INVALID_STORED)
    else if q + 32 + 8 * len > |bs| then Err(INPUT_EXHAUSTED)
    else if |out| + len > cap then Err(OUTPUT_FULL)
    else Ok(out + Bytes(bs, q + 32, len), q + 32 + 8 * len)
  }

  // The code lengths of the fixed codes (section 3.2.6).
  function FixedLitLengths(): (r: seq<nat>)
    ensures |r| == 288
  {
    seq(288, s => if s < 144 then 8 else if s < 256 then 9 else if s < 280 then 7 else 8)
  }

  function FixedDistLengths(): (r: seq<nat>)
    ensures |r| == 30
  {
    seq(30, _ => 5)
  }

  // The code lengths of the code length alphabet, sent in the order CLEN_ORDER: the i-th on.
  function ClenLengths(bs: seq<bool>, p: nat, i: nat, n: nat, acc: seq<nat>): (r: Result<seq<nat>>)
    requires i <= n <= 19 && |acc| == 19
    ensures r.Ok? ==> p <= r.pos && (p <= |bs| ==> r.pos <= |bs|) && |r.value| == 19
    ensures r.Err? ==> r.code < 0
    decreases n - i
  {
    if i == n then Ok(acc, p)
    else
      var (v, p1) :- GetBits(bs, p, 3);
      ClenLengths(bs, p1, i + 1, n, acc[ClenSymbol(i) := v])
  }

  // The run-length coded code lengths (section 3.2.7), until there are `total` of them.
  function CodeLengthRuns(bs: seq<bool>, p: nat, cl: seq<nat>, total: nat, acc: seq<nat>): (r: Result<seq<nat>>)
    requires |acc| <= total
    ensures r.Ok? ==> |r.value| == total && p <= r.pos && (p <= |bs| ==> r.pos <= |bs|)
    ensures r.Err? ==> r.code < 0
    decreases total - |acc|
  {
    if |acc| == total then Ok(acc, p)
    else
      var (sym, p1) :- Decode(bs, p, cl);
      if sym < 16 then CodeLengthRuns(bs, p1, cl, total, acc + [sym])
      else if sym == 16 then
        if acc == [] then Err(INVALID_HUFFMAN) else
        var (n, p2) :- GetBits(bs, p1, 2);
        if |acc| + n + 3 > total then Err(TOO_MANY_CODES)
        else CodeLengthRuns(bs, p2, cl, total, acc + Repeat(acc[|acc| - 1], n + 3))
      else
        var width, least := if sym == 17 then 3 else 7, if sym == 17 then 3 else 11;
        var (n, p2) :- GetBits(bs, p1, width);
        if |acc| + n + least > total then Err(TOO_MANY_CODES)
        else CodeLengthRuns(bs, p2, cl, total, acc + Repeat(0, n + least))
  }

  function Repeat(v: nat, n: nat): (r: seq<nat>)
    ensures |r| == n
  {
    seq(n, _ => v)
  }

  // A table is accepted when it has no codes at all or does not over-subscribe the code space.
  predicate Accepts(lengths: seq<nat>) {
    Count(lengths, 0) == |lengths| || forall len :: 1 <= len <= MAX_BITS ==> Left(lengths, len) >= 0
  }

  // The header of a block with dynamic Huffman codes: the two vectors of code lengths
  // (section 3.2.7).
  function Tables(bs: seq<bool>, p: nat): (r: Result<(seq<nat>, seq<nat>)>)
    ensures r.Ok? ==> p < r.pos <= |bs|
    ensures r.Err? ==> r.code < 0
  {
    var (h, p1) :- GetBits(bs, p, 5);
    var (d, p2) :- GetBits(bs, p1, 5);
    var (c, p3) :- GetBits(bs, p2, 4);
    assert Pow2(4) == 16;
    var hlit, hdist, hclen := h + 257, d + 1, c + 4;
    if hlit > MAX_LCODES || hdist > MAX_DCODES then Err(TOO_MANY_CODES) else
    var (cl, p4) :- ClenLengths(bs, p3, 0, hclen, Repeat(0, 19));
    if !Accepts(cl) then Err(INVALID_HUFFMAN) else
    var (lens, p5) :- CodeLengthRuns(bs, p4, cl, hlit + hdist, []);
    if !Accepts(lens[..hlit]) then Err(INVALID_HUFFMAN)
    else if !Accepts(lens[hlit..]) then Err(INVALID_HUFFMAN)
    else Ok((lens[..hlit], lens[hlit..]), p5)
  }

  function Dynamic(bs: seq<bool>, p: nat, out: seq<byte>, cap: nat): (r: Result<seq<byte>>)
    ensures r.Ok? ==> p < r.pos <= |bs| && out <= r.value && (|out| <= cap ==> |r.value| <= cap)
    ensures r.Err? ==> r.code < 0
  {
    var (t, p1) :- Tables(bs, p);
    Codes(bs, p1, t.0, t.1, out, cap)
  }

  // One block with its header removed.
  function Block(bs: seq<bool>, p: nat, btype: nat, out: seq<byte>, cap: nat): (r: Result<seq<byte>>)
    ensures r.Ok? ==> p < r.pos <= |bs| && out <= r.value && (|out| <= cap ==> |r.value| <= cap)
    ensures r.Err? ==> r.code < 0
  {
    match btype
    case 0 => Stored(bs, p, out, cap)
    case 1 => Codes(bs, p, FixedLitLengths(), FixedDistLengths(), out, cap)
    case 2 => Dynamic(bs, p, out, cap)
    case _ => Err(INVALID_BTYPE)
  }

  // The blocks from position p on, up to and including the one marked final.
  function Blocks(bs: seq<bool>, p: nat, out: seq<byte>, cap: nat): (r: Result<seq<byte>>)
    ensures r.Ok? ==> p < r.pos <= |bs| && out <= r.value && (|out| <= cap ==> |r.value| <= cap)
    ensures r.Err? ==> r.code < 0
    decreases |bs| - p
  {
    var (final, p1) :- GetBits(bs, p, 1);
    var (btype, p2) :- GetBits(bs, p1, 2);
    var (out', p3) :- Block(bs, p2, btype, out, cap);
    if final == 1 then Ok(out', p3) else Blocks(bs, p3, out', cap)
  }

  // The whole stream, into a buffer of cap bytes.
  function Inflate(src: seq<byte>, cap: nat): (r: Result<seq<byte>>)
    ensures r.Ok? ==> |r.value| <= cap && 0 < r.pos <= 8 * |src|
    ensures r.Err? ==> r.code < 0
  {
    Blocks(ToBits(src), 0, [], cap)
  }
}
