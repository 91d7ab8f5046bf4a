// The decoder inverts the encoder, and accepts nothing but encoded streams.
module RoundTrip {
  import opened Bits
  import opened Huffman
  import opened Deflate
  import opened Encoding

  // What decoding to `out` amounts to in a buffer of cap bytes.
  ghost function Outcome(out: seq<byte>, pos: nat, cap: nat): Result<seq<byte>> {
    if |out| <= cap then Ok(out, pos) else Err(OUTPUT_FULL)
  }

  lemma AcceptsFits(lengths: seq<nat>)
    ensures Accepts(lengths) <==> Fits(lengths)
  {
    hide Left, Count;
    CountZeroAll(lengths);
    if NoCodes(lengths) { NoCodesFits(lengths); }
  }

  lemma ReadNumber(bs: seq<bool>, p: nat, v: nat, n: nat)
    requires v < Pow2(n) && At(bs, p, LowBits(v, n))
    ensures GetBits(bs, p, n) == Ok(v, p + n)
  {
    ValLowBits(v, n);
  }

  lemma NumberRead(bs: seq<bool>, p: nat, n: nat)
    requires GetBits(bs, p, n).Ok?
    ensures At(bs, p, LowBits(GetBits(bs, p, n).value, n))
  {
    LowBitsVal(bs[p..p + n]);
  }

  // ---------- The decoder's tables follow the rules of the encoder ----------

  lemma {:induction false} LengthTables(l: nat)
    requires l < 29
    ensures LenExtra(l) == LengthWidth(l) && LenBase(l) == FirstLength(l)
  {
    LengthWidths(l);
    if 0 < l < 28 {
      LengthTables(l - 1);
      LengthGap(l);
      Pow2Small();
      hide LenBase, LenExtra, Pow2;
    }
  }

  lemma LengthWidths(l: nat)
    requires l < 29
    ensures LenExtra(l) == LengthWidth(l) && LenBase(0) == 3 && LenBase(28) == 258
  {
  }

  lemma LengthGap(l: nat)
    requires 0 < l < 28
    ensures LenBase(l) - LenBase(l - 1) ==
            if l < 9 then 1 else if l < 13 then 2 else if l < 17 then 4 else if l < 21 then 8 else if l < 25 then 16
            else 32
  {
  }

  lemma {:induction false} DistanceTables(d: nat)
    requires d < 30
    ensures DistExtra(d) == DistanceWidth(d) && DistBase(d) == FirstDistance(d)
  {
    DistanceWidths(d);
    if d > 0 {
      DistanceTables(d - 1);
      DistanceGap(d);
      hide LenBase, LenExtra, Pow2;
    }
  }

  lemma DistanceWidths(d: nat)
    requires d < 30
    ensures DistExtra(d) == DistanceWidth(d) && DistBase(0) == 1
  {
  }

  // Two distance codes of each width after the first three.
  lemma DistanceGap(d: nat)
    requires 0 < d < 30
    ensures DistBase(d) - DistBase(d - 1) == Pow2(DistanceWidth(d - 1))
  {
    Pow2Small();
    Pow2Twelve();
    hide Pow2;
    assert d < 5 || d < 9 || d < 13 || d < 17 || d < 21 || d < 25 || d < 30;
  }

  lemma Pow2Twelve()
    ensures Pow2(6) == 64 && Pow2(9) == 512 && Pow2(10) == 1024 && Pow2(11) == 2048 && Pow2(12) == 4096
    ensures Pow2(13) == 8192
  {
    Pow2Small();
    assert Pow2(9) == 2 * Pow2(8) && Pow2(10) == 2 * Pow2(9) && Pow2(11) == 2 * Pow2(10);
    assert Pow2(12) == 2 * Pow2(11) && Pow2(13) == 2 * Pow2(12) && Pow2(6) == 4 * Pow2(4);
  }

  lemma OrderTable(i: nat)
    requires i < 19
    ensures ClenSymbol(i) == Sent(i)
  {
  }

  lemma FixedTables()
    ensures FixedLitLengths() == FixedLiterals() && FixedDistLengths() == FixedDistances()
  {
  }

  // Where the ranges begin and end, and that each begins where the one before ends.
  lemma LengthRange(l: nat)
    requires l < 29
    ensures FirstLength(0) == 3 && FirstLength(28) == 258 && Pow2(LengthWidth(28)) == 1
    ensures FirstLength(27) + Pow2(LengthWidth(27)) == 259
    ensures 0 < l < 28 ==> FirstLength(l) == FirstLength(l - 1) + Pow2(LengthWidth(l - 1))
  {
    LengthTables(27);
    Pow2Small();
    hide Pow2;
  }

  lemma DistanceRange(d: nat)
    ensures FirstDistance(0) == 1 && FirstDistance(29) + Pow2(DistanceWidth(29)) == 32769
    ensures d > 0 ==> FirstDistance(d) == FirstDistance(d - 1) + Pow2(DistanceWidth(d - 1))
  {
    DistanceTables(29);
    Pow2Twelve();
    hide Pow2;
  }

  lemma {:induction false} LengthsRise(a: nat, b: nat)
    requires a < 28 && b < 28
    ensures a < b ==> FirstLength(a) + Pow2(LengthWidth(a)) <= FirstLength(b)
    decreases b
  {
    hide FirstLength, LengthWidth, Pow2;
    if a < b {
      LengthRange(b);
      LengthsRise(a, b - 1);
    }
  }

  lemma {:induction false} DistancesRise(a: nat, b: nat)
    ensures a < b ==> FirstDistance(a) + Pow2(DistanceWidth(a)) <= FirstDistance(b)
    decreases b
  {
    hide FirstDistance, DistanceWidth, Pow2;
    if a < b {
      DistanceRange(b);
      DistancesRise(a, b - 1);
    }
  }

  lemma {:induction false} FindLength(length: nat, l: nat) returns (k: nat)
    requires l < 28 && 3 <= length < FirstLength(l) + Pow2(LengthWidth(l))
    ensures k <= l && SpellsLength(k, length)
  {
    hide FirstLength, LengthWidth, Pow2;
    LengthRange(l);
    if FirstLength(l) <= length { k := l; } else { k := FindLength(length, l - 1); }
  }

  lemma {:induction false} FindDistance(distance: nat, d: nat) returns (k: nat)
    requires d < 30 && 1 <= distance < FirstDistance(d) + Pow2(DistanceWidth(d))
    ensures k <= d && SpellsDistance(k, distance)
  {
    hide FirstDistance, DistanceWidth, Pow2;
    DistanceRange(d);
    if FirstDistance(d) <= distance { k := d; } else { k := FindDistance(distance, d - 1); }
  }

  // Every length from 3 to 258 can be spelled, 258 by code 28 and all others by one code only; so can
  // every distance up to 32768.  (The range of code 27 has 258 too, which the decoder takes as well.)
  lemma Spelling(length: nat, distance: nat) returns (l: nat, d: nat)
    requires 3 <= length <= 258 && 1 <= distance <= 32768
    ensures SpellsLength(l, length) && (length == 258 <==> l == 28)
    ensures forall k :: SpellsLength(k, length) ==> k == l || (length == 258 && k == 27)
    ensures SpellsDistance(d, distance) && forall k :: SpellsDistance(k, distance) ==> k == d
  {
    hide FirstLength, LengthWidth, Pow2, FirstDistance, DistanceWidth;
    LengthRange(28);
    DistanceRange(29);
    var i := FindLength(length, 27);
    l := if length == 258 then 28 else i;
    d := FindDistance(distance, 29);
    forall k: nat | SpellsLength(k, length) ensures k == l || (length == 258 && k == 27) {
      if k < 28 {
        LengthsRise(k, i);
        LengthsRise(i, k);
        LengthsRise(i, 27);
      }
    }
    forall k: nat | SpellsDistance(k, distance) ensures k == d {
      DistancesRise(k, d);
      DistancesRise(d, k);
    }
  }

  // The periodic copy is the byte-by-byte one.
  lemma {:induction false} CopyRepeats(out: seq<byte>, n: nat, dist: nat)
    requires 1 <= dist <= |out|
    ensures Copy(out, n, dist) == Repeated(out, n, dist)
  {
    if n > 0 {
      CopyRepeats(out, n - 1, dist);
      CopyMore(out, n, dist);
    }
  }

  lemma CopyMore(out: seq<byte>, n: nat, dist: nat)
    requires 1 <= dist <= |out| && n > 0
    ensures var r := Copy(out, n - 1, dist); Copy(out, n, dist) == r + [r[|r| - dist]]
  {
    hide Copy;
    var r, c := Copy(out, n - 1, dist), Copy(out, n, dist);
    CopyAt(out, n, dist, n - 1);
    LastCopied(out, n, dist);
    forall k | 0 <= k < |r| ensures c[k] == r[k] { CopySame(out, n, dist, k); }
  }

  lemma LastCopied(out: seq<byte>, n: nat, dist: nat)
    requires 1 <= dist <= |out| && n > 0
    ensures var r := Copy(out, n - 1, dist); r[|r| - dist] == out[|out| - dist + (n - 1) % dist]
  {
    hide Copy;
    var r := Copy(out, n - 1, dist);
    if n - 1 >= dist {
      PeriodBack(n - 1, dist);
      CopyAt(out, n - 1, dist, n - 1 - dist);
    } else {
      CopyFront(out, n - 1, dist, |r| - dist);
      DivModUnique(n - 1, dist, 0, n - 1);
    }
  }

  lemma CopySame(out: seq<byte>, n: nat, dist: nat, k: nat)
    requires 1 <= dist <= |out| && n > 0 && k < |out| + n - 1
    ensures Copy(out, n, dist)[k] == Copy(out, n - 1, dist)[k]
  {
    hide Copy;
    if k < |out| {
      CopyFront(out, n, dist, k);
      CopyFront(out, n - 1, dist, k);
    } else {
      CopyAt(out, n, dist, k - |out|);
      CopyAt(out, n - 1, dist, k - |out|);
    }
  }

  lemma CopyFront(out: seq<byte>, n: nat, dist: nat, k: nat)
    requires 1 <= dist <= |out| && k < |out|
    ensures Copy(out, n, dist)[k] == out[k]
  {
  }

  lemma CopyAt(out: seq<byte>, n: nat, dist: nat, i: nat)
    requires 1 <= dist <= |out| && i < n
    ensures Copy(out, n, dist)[|out| + i] == out[|out| - dist + i % dist]
  {
  }

  lemma PeriodBack(i: nat, d: nat)
    requires 1 <= d <= i
    ensures (i - d) % d == i % d
  {
    DivModUnique(i, d, (i - d) / d + 1, (i - d) % d);
  }

  // ---------- Completeness: encoded input decodes ----------

  lemma MatchComplete(bs: seq<bool>, p: nat, length: nat, distance: nat, l: nat, d: nat, dl: seq<nat>)
    requires SpellsLength(l, length) && SpellsDistance(d, distance)
    requires Code(dl) && Used(dl, d) && At(bs, p, MatchBits(length, distance, l, d, dl))
    ensures LengthDistance(bs, p, l, dl) ==
            Ok((length, distance), p + |MatchBits(length, distance, l, d, dl)|)
  {
    hide LenBase, LenExtra, DistBase, DistExtra, At, Codeword, GetBits, Decode, LowBits;
    hide LengthWidth, FirstLength, DistanceWidth, FirstDistance;
    LengthTables(l);
    DistanceTables(d);
    var lextra, dextra := length - FirstLength(l), distance - FirstDistance(d);
    var x, y, z := LowBits(lextra, LenExtra(l)), Codeword(dl, d), LowBits(dextra, DistExtra(d));
    AtAppend(bs, p, x, y + z);
    AtAppend(bs, p + |x|, y, z);
    ReadNumber(bs, p, lextra, LenExtra(l));
    DecodeCodeword(bs, p + |x|, dl, d);
    ReadNumber(bs, p + |x| + |y|, dextra, DistExtra(d));
  }

  lemma TokenComplete(
    bs: seq<bool>, p: nat, ll: seq<nat>, dl: seq<nat>, t: Token, out: seq<byte>, cap: nat)
    requires Code(ll) && Code(dl) && ValidToken(t, ll, dl) && ReachesBack(t, out)
    requires At(bs, p, TokenBits(t, ll, dl)) && |out| <= cap
    ensures Codes(bs, p, ll, dl, out, cap) ==
            if |Apply(t, out)| <= cap
            then Codes(bs, p + |TokenBits(t, ll, dl)|, ll, dl, Apply(t, out), cap) else Err(OUTPUT_FULL)
  {
    hide LengthDistance, At, Codeword, Decode, Code, MatchBits, SpellsLength, SpellsDistance, Copy, Repeated;
    match t
    case Literal(b) =>
      DecodeCodeword(bs, p, ll, b);
    case Match(length, distance, l, d) =>
      LengthCodes(l, length);
      AtAppend(bs, p, Codeword(ll, 257 + l), MatchBits(length, distance, l, d, dl));
      DecodeCodeword(bs, p, ll, 257 + l);
      MatchComplete(bs, p + ll[257 + l], length, distance, l, d, dl);
      CopyRepeats(out, length, distance);
  }

  lemma LengthCodes(l: nat, length: nat)
    requires SpellsLength(l, length)
    ensures l < 29
  {
  }

  lemma EndComplete(bs: seq<bool>, p: nat, ll: seq<nat>, dl: seq<nat>, out: seq<byte>, cap: nat)
    requires Code(ll) && Used(ll, END_OF_BLOCK) && At(bs, p, Codeword(ll, END_OF_BLOCK))
    ensures Codes(bs, p, ll, dl, out, cap) == Ok(out, p + ll[END_OF_BLOCK])
  {
    hide At, Code, Codeword, Decode;
    DecodeCodeword(bs, p, ll, END_OF_BLOCK);
  }

  lemma {:induction false} CodesComplete(
    bs: seq<bool>, p: nat, ll: seq<nat>, dl: seq<nat>, ts: seq<Token>, out: seq<byte>, cap: nat)
    requires Code(ll) && Code(dl) && ValidTokens(ts, ll, dl) && AllReachBack(ts, out)
    requires At(bs, p, TokensBits(ts, ll, dl)) && |out| <= cap
    ensures Codes(bs, p, ll, dl, out, cap) == Outcome(ApplyAll(ts, out), p + |TokensBits(ts, ll, dl)|, cap)
    decreases |ts|
  {
    hide At, Code, Codeword, TokenBits, Apply, ReachesBack, ValidToken, Codes;
    if ts == [] {
      EndComplete(bs, p, ll, dl, out, cap);
    } else {
      var t, rest := ts[0], TokensBits(ts[1..], ll, dl);
      AtAppend(bs, p, TokenBits(t, ll, dl), rest);
      TokenComplete(bs, p, ll, dl, t, out, cap);
      if |Apply(t, out)| <= cap {
        CodesComplete(bs, p + |TokenBits(t, ll, dl)|, ll, dl, ts[1..], Apply(t, out), cap);
      }
    }
  }

  lemma BytesOfBits(bs: seq<bool>, p: nat, data: seq<byte>)
    requires At(bs, p, ToBits(data))
    ensures Bytes(bs, p, |data|) == data
  {
    BytesOfBitsFrom(bs, p, data, 0);
  }

  lemma SliceOfSlice(bs: seq<bool>, p: nat, n: nat, i: nat, k: nat)
    requires i + k <= n && p + n <= |bs|
    ensures bs[p..p + n][i..i + k] == bs[p + i..p + i + k]
  {
    var a, b := bs[p..p + n][i..i + k], bs[p + i..p + i + k];
    assert |a| == |b| && forall j :: 0 <= j < k ==> a[j] == b[j];
  }

  lemma {:induction false} BytesOfBitsFrom(bs: seq<bool>, p: nat, data: seq<byte>, k: nat)
    requires At(bs, p, ToBits(data)) && k <= |data|
    ensures Bytes(bs, p + 8 * k, |data| - k) == data[k..]
    decreases |data| - k
  {
    hide ToBits, LowBits, Val;
    if k < |data| {
      ToBitsByte(data, k);
      SliceOfSlice(bs, p, 8 * |data|, 8 * k, 8);
      BytesOfBitsFrom(bs, p, data, k + 1);
      assert data[k..] == [data[k]] + data[k + 1..];
    }
  }

  lemma AtFour(bs: seq<bool>, p: nat, a: seq<bool>, b: seq<bool>, c: seq<bool>, d: seq<bool>)
    requires At(bs, p, a + (b + (c + d)))
    ensures At(bs, p, a) && At(bs, p + |a|, b) && At(bs, p + |a| + |b|, c) && At(bs, p + |a| + |b| + |c|, d)
  {
    hide *;
    AtAppend(bs, p, a, b + (c + d));
    AtAppend(bs, p + |a|, b, c + d);
    AtAppend(bs, p + |a| + |b|, c, d);
  }

  lemma StoredComplete(bs: seq<bool>, p: nat, pad: seq<bool>, data: seq<byte>, out: seq<byte>, cap: nat)
    requires p + |pad| == Aligned(p) && |data| < 65536 && |out| <= cap
    requires At(bs, p, pad + (LowBits(|data|, 16) + (LowBits(65535 - |data|, 16) + ToBits(data))))
    ensures Stored(bs, p, out, cap) == Outcome(out + data, p + |pad| + 32 + 8 * |data|, cap)
  {
    hide *;
    AtFour(bs, p, pad, LowBits(|data|, 16), LowBits(65535 - |data|, 16), ToBits(data));
    StoredPartsComplete(bs, p + |pad|, data);
    StoredParts(bs, p, data, out, cap);
  }

  lemma StoredPartsComplete(bs: seq<bool>, q: nat, data: seq<byte>)
    requires |data| < 65536 && At(bs, q, LowBits(|data|, 16))
    requires At(bs, q + 16, LowBits(65535 - |data|, 16)) && At(bs, q + 32, ToBits(data))
    ensures GetBits(bs, q, 16) == Ok(|data|, q + 16)
    ensures GetBits(bs, q + 16, 16) == Ok(65535 - |data|, q + 32)
    ensures q + 32 + 8 * |data| <= |bs| && Bytes(bs, q + 32, |data|) == data
  {
    hide *;
    AtFits(bs, q + 32, ToBits(data));
    Pow2Small();
    ReadNumber(bs, q, |data|, 16);
    ReadNumber(bs, q + 16, 65535 - |data|, 16);
    BytesOfBits(bs, q + 32, data);
  }

  lemma StoredParts(bs: seq<bool>, p: nat, data: seq<byte>, out: seq<byte>, cap: nat)
    requires Aligned(p) + 32 + 8 * |data| <= |bs| && |data| < 65536
    requires GetBits(bs, Aligned(p), 16) == Ok(|data|, Aligned(p) + 16)
    requires GetBits(bs, Aligned(p) + 16, 16) == Ok(65535 - |data|, Aligned(p) + 32)
    requires Bytes(bs, Aligned(p) + 32, |data|) == data
    ensures Stored(bs, p, out, cap) == Outcome(out + data, Aligned(p) + 32 + 8 * |data|, cap)
  {
    hide Val, Bytes, Aligned, Pow2;
  }

  lemma AtFits(bs: seq<bool>, p: nat, part: seq<bool>)
    requires At(bs, p, part)
    ensures p + |part| <= |bs|
  {
  }

  // Where each symbol of the code length alphabet stands in CLEN_ORDER.
  const CLEN_PLACE: seq<nat> := [3, 17, 15, 13, 11, 9, 7, 5, 4, 6, 8, 10, 12, 14, 16, 18, 0, 1, 2]

  function Place(s: nat): (j: nat)
    requires s < 19
    ensures j < 19
  {
    CLEN_PLACE[s]
  }

  lemma ClenPlace(s: nat)
    requires s < 19
    ensures ClenSymbol(Place(s)) == s
  {
  }

  lemma ClenOrder(j: nat)
    requires j < 19
    ensures Place(ClenSymbol(j)) == j
  {
  }

  // acc agrees with cl on the first i symbols sent and is zero on the others.
  ghost predicate SentSoFar(acc: seq<nat>, cl: seq<nat>, i: nat) {
    && |acc| == |cl| == 19 && i <= 19
    && (forall s :: 0 <= s < 19 ==> acc[s] == if Place(s) < i then cl[s] else 0)
  }

  lemma SentNext(acc: seq<nat>, cl: seq<nat>, i: nat)
    requires SentSoFar(acc, cl, i) && i < 19
    ensures SentSoFar(acc[ClenSymbol(i) := cl[ClenSymbol(i)]], cl, i + 1)
  {
    hide ClenSymbol, Place;
    ClenOrder(i);
    forall s: nat | s < 19 ensures Place(s) == i ==> s == ClenSymbol(i) { ClenPlace(s); }
  }

  lemma {:induction false} ClenComplete(bs: seq<bool>, p: nat, i: nat, n: nat, cl: seq<nat>, acc: seq<nat>)
    requires i <= n <= 19 && |cl| == |acc| == 19 && SentSoFar(acc, cl, i) && (forall s :: 0 <= s < 19 ==> cl[s] < 8)
    requires forall j :: n <= j < 19 ==> cl[Sent(j)] == 0
    requires At(bs, p, ClenBits(cl, i, n))
    ensures ClenLengths(bs, p, i, n, acc) == Ok(cl, p + |ClenBits(cl, i, n)|)
    decreases n - i
  {
    hide At, GetBits, Pow2, LowBits, ClenSymbol, SentSoFar, ClenLengths, Sent;
    if i == n {
      AllSent(acc, cl, n);
      ClenEnd(bs, p, n, acc);
    } else {
      OrderTable(i);
      var v := cl[ClenSymbol(i)];
      AtAppend(bs, p, LowBits(v, 3), ClenBits(cl, i + 1, n));
      Pow2Small();
      ReadNumber(bs, p, v, 3);
      SentNext(acc, cl, i);
      ClenStep(bs, p, i, n, acc, v);
      ClenComplete(bs, p + 3, i + 1, n, cl, acc[ClenSymbol(i) := v]);
    }
  }

  lemma ClenEnd(bs: seq<bool>, p: nat, n: nat, acc: seq<nat>)
    requires n <= 19 && |acc| == 19
    ensures ClenLengths(bs, p, n, n, acc) == Ok(acc, p)
  {
  }

  lemma ClenStep(bs: seq<bool>, p: nat, i: nat, n: nat, acc: seq<nat>, v: nat)
    requires i < n <= 19 && |acc| == 19 && GetBits(bs, p, 3) == Ok(v, p + 3)
    ensures ClenLengths(bs, p, i, n, acc) == ClenLengths(bs, p + 3, i + 1, n, acc[ClenSymbol(i) := v])
  {
    hide GetBits, ClenSymbol;
  }

  lemma AllSent(acc: seq<nat>, cl: seq<nat>, n: nat)
    requires SentSoFar(acc, cl, n) && n <= 19 && forall j :: n <= j < 19 ==> cl[Sent(j)] == 0
    ensures acc == cl
  {
    hide ClenSymbol, Place, Sent;
    forall s: nat | s < 19 ensures acc[s] == cl[s] {
      ClenPlace(s);
      OrderTable(Place(s));
    }
  }

  lemma TimesIs()
    ensures forall v, n :: Times(v, n) == Repeat(v, n)
  {
  }

  lemma RunComplete(bs: seq<bool>, p: nat, cl: seq<nat>, total: nat, r: Run, acc: seq<nat>)
    requires Code(cl) && |cl| == 19 && ValidRun(r, cl) && (r.Again? ==> acc != [])
    requires |ApplyRun(r, acc)| <= total && |acc| < total
    requires At(bs, p, RunBits(r, cl))
    ensures CodeLengthRuns(bs, p, cl, total, acc) ==
            CodeLengthRuns(bs, p + |RunBits(r, cl)|, cl, total, ApplyRun(r, acc))
  {
    hide At, GetBits, Pow2, LowBits, Codeword, Code, Decode, Repeat, Times;
    TimesIs();
    AtAppend(bs, p, Codeword(cl, r.Symbol()), LowBits(r.Extra(), r.Width()));
    DecodeCodeword(bs, p, cl, r.Symbol());
    ReadNumber(bs, p + cl[r.Symbol()], r.Extra(), r.Width());
  }

  lemma {:induction false} RunsComplete(
    bs: seq<bool>, p: nat, cl: seq<nat>, total: nat, rs: seq<Run>, acc: seq<nat>)
    requires Code(cl) && |cl| == 19 && ValidRuns(rs, cl, acc) && |ApplyRuns(rs, cl, acc)| == total
    requires At(bs, p, RunsBits(rs, cl, acc))
    ensures CodeLengthRuns(bs, p, cl, total, acc) == Ok(ApplyRuns(rs, cl, acc), p + |RunsBits(rs, cl, acc)|)
    decreases |rs|
  {
    hide At, RunBits, Code, CodeLengthRuns, ApplyRun, ValidRun;
    if rs == [] {
      RunsEnd(bs, p, cl, acc);
    } else {
      var r, acc' := rs[0], ApplyRun(rs[0], acc);
      AtAppend(bs, p, RunBits(r, cl), RunsBits(rs[1..], cl, acc'));
      RunGrows(r, cl, acc);
      RunComplete(bs, p, cl, total, r, acc);
      RunsComplete(bs, p + |RunBits(r, cl)|, cl, total, rs[1..], acc');
    }
  }

  lemma RunsEnd(bs: seq<bool>, p: nat, cl: seq<nat>, acc: seq<nat>)
    ensures CodeLengthRuns(bs, p, cl, |acc|, acc) == Ok(acc, p)
  {
  }

  lemma RunGrows(r: Run, cl: seq<nat>, acc: seq<nat>)
    requires ValidRun(r, cl) && (r.Again? ==> acc != [])
    ensures |ApplyRun(r, acc)| > |acc|
  {
    hide Pow2, Times, Used;
  }

  lemma {:induction false} RunsSmall(rs: seq<Run>, cl: seq<nat>, acc: seq<nat>)
    requires ValidRuns(rs, cl, acc) && CodeLengths(acc)
    ensures CodeLengths(ApplyRuns(rs, cl, acc))
    decreases |rs|
  {
    if rs != [] {
      hide Used, Pow2, Codeword;
      RunsSmall(rs[1..], cl, ApplyRun(rs[0], acc));
    }
  }

  lemma HeaderCodes(h: Header)
    requires ValidHeader(h)
    ensures Code(h.cl) && Code(LitLengths(h)) && Code(DistLengths(h))
  {
    hide Accepts, Fits, ApplyRuns, ValidRuns;
    RunsSmall(h.runs, h.cl, []);
    AcceptsFits(h.cl);
    AcceptsFits(LitLengths(h));
    AcceptsFits(DistLengths(h));
  }

  // The part of a dynamic block before its tokens.
  lemma HeaderComplete(bs: seq<bool>, p: nat, h: Header)
    requires ValidHeader(h) && At(bs, p, HeaderBits(h))
    ensures Tables(bs, p) == Ok((LitLengths(h), DistLengths(h)), p + |HeaderBits(h)|)
  {
    hide At, GetBits, LowBits, Pow2, ClenLengths, CodeLengthRuns, Accepts, ApplyRuns, RunsBits, ClenBits, Fits;
    AcceptsFits(h.cl);
    AcceptsFits(LitLengths(h));
    AcceptsFits(DistLengths(h));
    var x, y, z := LowBits(h.hlit - 257, 5), LowBits(h.hdist - 1, 5), LowBits(h.hclen - 4, 4);
    var u, v := ClenBits(h.cl, 0, h.hclen), RunsBits(h.runs, h.cl, []);
    AtFour(bs, p, x, y, z, u + v);
    AtAppend(bs, p + 14, u, v);
    Pow2Small();
    ReadNumber(bs, p, h.hlit - 257, 5);
    ReadNumber(bs, p + 5, h.hdist - 1, 5);
    ReadNumber(bs, p + 10, h.hclen - 4, 4);
    ClenComplete(bs, p + 14, 0, h.hclen, h.cl, Repeat(0, 19));
    HeaderCodes(h);
    RunsComplete(bs, p + 14 + |u|, h.cl, h.hlit + h.hdist, h.runs, []);
  }

  // ---------- The fixed codes ----------

  // A vector of n copies of v.
  lemma {:induction false} CountRepeat(lengths: seq<nat>, m: nat, v: nat, len: nat)
    requires m <= |lengths| && forall s :: m <= s < |lengths| ==> lengths[s] == v
    ensures Count(lengths, len) == Count(lengths[..m], len) + (if len == v then |lengths| - m else 0)
    decreases |lengths|
  {
    if m == |lengths| {
      assert lengths[..m] == lengths;
    } else {
      var n := |lengths| - 1;
      CountRepeat(lengths[..n], m, v, len);
      assert lengths[..n][..m] == lengths[..m];
    }
  }

  lemma FixedLitCount(len: nat)
    ensures Count(FixedLitLengths(), len) ==
            if len == 7 then 24 else if len == 8 then 152 else if len == 9 then 112 else 0
  {
    hide SymbolsOf;
    var f := FixedLitLengths();
    CountRepeat(f, 280, 8, len);
    CountRepeat(f[..280], 256, 7, len);
    assert f[..280][..256] == f[..256];
    CountRepeat(f[..256], 144, 9, len);
    assert f[..256][..144] == f[..144];
    CountRepeat(f[..144], 0, 8, len);
    assert f[..144][..0] == [];
    CountNone(len);
  }

  lemma CountNone(len: nat)
    ensures Count([], len) == 0
  {
  }

  lemma FixedDistCount(len: nat)
    ensures Count(FixedDistLengths(), len) == if len == 5 then 30 else 0
  {
    hide SymbolsOf;
    var f := FixedDistLengths();
    CountRepeat(f, 0, 5, len);
    assert f[..0] == [];
    CountNone(len);
  }

  lemma {:induction false} FixedLeft(len: nat)
    requires len <= MAX_BITS
    ensures len < 7 ==> Left(FixedLitLengths(), len) == Pow2(len)
    ensures len == 7 ==> Left(FixedLitLengths(), len) == 104
    ensures len == 8 ==> Left(FixedLitLengths(), len) == 56
    ensures len >= 9 ==> Left(FixedLitLengths(), len) == 0
    ensures len < 5 ==> Left(FixedDistLengths(), len) == Pow2(len)
    ensures len >= 5 ==> Left(FixedDistLengths(), len) >= 0
  {
    hide FixedLitLengths, FixedDistLengths, Count;
    if len > 0 {
      FixedLeft(len - 1);
      FixedLitCount(len);
      FixedDistCount(len);
      assert Pow2(6) == 64 && Pow2(4) == 16;
    }
  }

  lemma FixedCodes()
    ensures Code(FixedLitLengths()) && Code(FixedDistLengths())
  {
    forall len | 1 <= len <= MAX_BITS
      ensures Left(FixedLitLengths(), len) >= 0 && Left(FixedDistLengths(), len) >= 0
    {
      FixedLeft(len);
    }
  }

  // ---------- Blocks and streams ----------

  lemma PadAligned(p: nat, pad: seq<bool>)
    ensures p + |pad| == Aligned(p) <==> |pad| < 8 && (p + |pad|) % 8 == 0
  {
  }

  lemma BlockComplete(bs: seq<bool>, p: nat, b: Block, start: nat, out: seq<byte>, cap: nat)
    requires start + 3 == p && ValidBlock(b, start, out) && At(bs, p, BodyBits(b, start, out)) && |out| <= cap
    ensures Deflate.Block(bs, p, TypeOf(b), out, cap) ==
            Outcome(ApplyBlock(b, start, out), p + |BodyBits(b, start, out)|, cap)
  {
    hide At, Codes, Stored, Tables, Code, ValidHeader, HeaderBits, LitLengths, DistLengths, TokensBits, ToBits, LowBits,
      Aligned, AllReachBack, ApplyAll, ValidTokens, FixedLitLengths, FixedDistLengths, FixedLiterals, FixedDistances;
    FixedTables();
    match b
    case StoredBlock(pad, data) =>
      PadAligned(p, pad);
      StoredComplete(bs, p, pad, data, out, cap);
    case FixedBlock(ts) =>
      FixedCodes();
      CodesComplete(bs, p, FixedLitLengths(), FixedDistLengths(), ts, out, cap);
    case DynamicBlock(h, ts) =>
      HeaderCodes(h);
      AtAppend(bs, p, HeaderBits(h), TokensBits(ts, LitLengths(h), DistLengths(h)));
      HeaderComplete(bs, p, h);
      CodesComplete(bs, p + |HeaderBits(h)|, LitLengths(h), DistLengths(h), ts, out, cap);
  }

  lemma BlockHeader(bs: seq<bool>, p: nat, final: bool, b: Block, out: seq<byte>)
    requires ValidBlock(b, p, out) && At(bs, p, BlockBits(b, final, p, out))
    ensures GetBits(bs, p, 1) == Ok(Digit(final), p + 1) && GetBits(bs, p + 1, 2) == Ok(TypeOf(b), p + 3)
    ensures At(bs, p + 3, BodyBits(b, p, out))
  {
    hide At, ValidBlock, BodyBits, GetBits;
    var x, y := [final], LowBits(TypeOf(b), 2);
    assert LowBits(Digit(final), 1) == x;
    AtAppend(bs, p, x, y + BodyBits(b, p, out));
    AtAppend(bs, p + 1, y, BodyBits(b, p, out));
    Pow2Small();
    ReadNumber(bs, p, Digit(final), 1);
    ReadNumber(bs, p + 1, TypeOf(b), 2);
  }

  lemma StepComplete(bs: seq<bool>, p: nat, final: bool, b: Block, out: seq<byte>, cap: nat)
    requires ValidBlock(b, p, out) && At(bs, p, BlockBits(b, final, p, out)) && |out| <= cap
    ensures var out', p' := ApplyBlock(b, p, out), p + |BlockBits(b, final, p, out)|;
            Blocks(bs, p, out, cap) ==
            if |out'| > cap then Err(OUTPUT_FULL) else if final then Ok(out', p') else Blocks(bs, p', out', cap)
  {
    hide At, ValidBlock, GetBits, Deflate.Block, BodyBits, ApplyBlock, TypeOf;
    BlockHeader(bs, p, final, b, out);
    BlockComplete(bs, p + 3, b, p, out, cap);
  }

  lemma {:induction false} BlocksComplete(bs: seq<bool>, p: nat, blocks: seq<Block>, out: seq<byte>, cap: nat)
    requires ValidStream(blocks, p, out) && At(bs, p, StreamBits(blocks, p, out)) && |out| <= cap
    ensures Blocks(bs, p, out, cap) ==
            Outcome(StreamBytes(blocks, p, out), p + |StreamBits(blocks, p, out)|, cap)
    decreases |blocks|
  {
    hide At, ValidBlock, BlockBits, ApplyBlock, Blocks;
    var b := blocks[0];
    if |blocks| == 1 {
      StepComplete(bs, p, true, b, out, cap);
    } else {
      var bits, out' := BlockBits(b, false, p, out), ApplyBlock(b, p, out);
      AtAppend(bs, p, bits, StreamBits(blocks[1..], p + |bits|, out'));
      StepComplete(bs, p, false, b, out, cap);
      if |out'| <= cap {
        BlocksComplete(bs, p + |bits|, blocks[1..], out', cap);
      }
    }
  }

  // Any buffer whose bits start with an encoded stream inflates to the bytes the stream
  // stands for; when those do not fit, the decoder says so.
  lemma InflateInvertsEncoding(src: seq<byte>, blocks: seq<Block>, cap: nat)
    requires ValidStream(blocks, 0, []) && StreamBits(blocks, 0, []) <= ToBits(src)
    ensures var out := StreamBytes(blocks, 0, []);
            Inflate(src, cap) == if |out| <= cap then Ok(out, |StreamBits(blocks, 0, [])|) else Err(OUTPUT_FULL)
  {
    hide StreamBits, ValidStream, StreamBytes, Blocks, ToBits;
    BlocksComplete(ToBits(src), 0, blocks, [], cap);
  }

  // Every stream can be written down as bytes, and inflating them gives it back.
  lemma EncodeThenInflate(blocks: seq<Block>)
    requires ValidStream(blocks, 0, [])
    ensures var out := StreamBytes(blocks, 0, []);
            Inflate(Pack(StreamBits(blocks, 0, [])), |out|) == Ok(out, |StreamBits(blocks, 0, [])|)
  {
    hide *;
    PackToBits(StreamBits(blocks, 0, []));
    InflateInvertsEncoding(Pack(StreamBits(blocks, 0, [])), blocks, |StreamBytes(blocks, 0, [])|);
  }

  // Whatever the bytes, some stream stands for them: stored blocks of at most 65535 bytes.
  lemma {:induction false} SomeStream(data: seq<byte>, p: nat, out: seq<byte>) returns (blocks: seq<Block>)
    ensures ValidStream(blocks, p, out) && StreamBytes(blocks, p, out) == out + data
    decreases |data|
  {
    hide BlockBits, Aligned;
    var pad := seq(Aligned(p + 3) - (p + 3), _ => false);
    if |data| < 65536 {
      blocks := [StoredBlock(pad, data)];
    } else {
      var b := StoredBlock(pad, data[..65535]);
      var rest := SomeStream(data[65535..], p + |BlockBits(b, false, p, out)|, out + data[..65535]);
      blocks := [b] + rest;
      assert blocks[1..] == rest;
      assert out + data[..65535] + data[65535..] == out + data;
    }
  }

  // So every byte string has a compressed form that inflates to it.
  lemma SomeCompressedForm(data: seq<byte>) returns (src: seq<byte>, blocks: seq<Block>)
    ensures ValidStream(blocks, 0, []) && src == Pack(StreamBits(blocks, 0, []))
    ensures Inflate(src, |data|) == Ok(data, |StreamBits(blocks, 0, [])|)
  {
    hide *;
    blocks := SomeStream(data, 0, []);
    assert [] + data == data;
    src := Pack(StreamBits(blocks, 0, []));
    EncodeThenInflate(blocks);
  }
}
