// The converse of RoundTrip: whatever the decoder accepts is an encoded stream, and the
// output is what that stream stands for.
module Soundness {
  import opened Bits
  import opened Huffman
  import opened Deflate
  import opened Encoding
  import opened RoundTrip

  lemma MatchSound(bs: seq<bool>, p: nat, l: nat, dl: seq<nat>) returns (length: nat, distance: nat, d: nat)
    requires LengthDistance(bs, p, l, dl).Ok?
    ensures SpellsLength(l, length) && SpellsDistance(d, distance) && Used(dl, d)
    ensures var r := LengthDistance(bs, p, l, dl);
            && r.value == (length, distance)
            && r.pos == p + |MatchBits(length, distance, l, d, dl)|
            && At(bs, p, MatchBits(length, distance, l, d, dl))
  {
    hide At, GetBits, Decode, LowBits, Codeword, LenBase, LenExtra, DistBase, DistExtra, Pow2;
    hide LengthWidth, FirstLength, DistanceWidth, FirstDistance;
    LengthTables(l);
    var r0 := GetBits(bs, p, LenExtra(l));
    NumberRead(bs, p, LenExtra(l));
    var r1 := Decode(bs, r0.pos, dl);
    DecodeSound(bs, r0.pos, dl);
    d := r1.value;
    DistanceTables(d);
    var r2 := GetBits(bs, r1.pos, DistExtra(d));
    NumberRead(bs, r1.pos, DistExtra(d));
    length, distance := LenBase(l) + r0.value, DistBase(d) + r2.value;
    var x, y, z := LowBits(r0.value, LenExtra(l)), Codeword(dl, d), LowBits(r2.value, DistExtra(d));
    AtAppend(bs, r0.pos, y, z);
    AtAppend(bs, p, x, y + z);
  }

  // The first token of a block that decodes and is not at its end.
  lemma TokenSound(bs: seq<bool>, p: nat, ll: seq<nat>, dl: seq<nat>, out: seq<byte>, cap: nat) returns (t: Token)
    requires p <= |bs| && Codes(bs, p, ll, dl, out, cap).Ok?
    requires Decode(bs, p, ll).value != END_OF_BLOCK
    ensures ValidToken(t, ll, dl) && ReachesBack(t, out) && At(bs, p, TokenBits(t, ll, dl))
    ensures var p' := p + |TokenBits(t, ll, dl)|;
            p < p' <= |bs| && Codes(bs, p, ll, dl, out, cap) == Codes(bs, p', ll, dl, Apply(t, out), cap)
  {
    hide At, GetBits, Decode, Codeword, Pow2, LengthDistance, MatchBits, Copy, Repeated;
    hide SpellsLength, SpellsDistance;
    DecodeSound(bs, p, ll);
    var r := Decode(bs, p, ll);
    if r.value < 256 {
      t := Literal(r.value);
    } else {
      var l := r.value - 257;
      var length, distance, d := MatchSound(bs, r.pos, l, dl);
      t := Match(length, distance, l, d);
      LengthCodes(l, length);
      CopyRepeats(out, length, distance);
      AtAppend(bs, p, Codeword(ll, r.value), MatchBits(length, distance, l, d, dl));
    }
  }

  lemma {:induction false} CodesSound(
    bs: seq<bool>, p: nat, ll: seq<nat>, dl: seq<nat>, out: seq<byte>, cap: nat) returns (ts: seq<Token>)
    requires p <= |bs| && Codes(bs, p, ll, dl, out, cap).Ok?
    ensures ValidTokens(ts, ll, dl) && AllReachBack(ts, out) && At(bs, p, TokensBits(ts, ll, dl))
    ensures Codes(bs, p, ll, dl, out, cap) == Ok(ApplyAll(ts, out), p + |TokensBits(ts, ll, dl)|)
    decreases |bs| - p
  {
    hide At, Decode, Codeword, TokenBits, Apply, ReachesBack, ValidToken;
    if Decode(bs, p, ll).value == END_OF_BLOCK {
      DecodeSound(bs, p, ll);
      ts := [];
    } else {
      var t := TokenSound(bs, p, ll, dl, out, cap);
      var rest := CodesSound(bs, p + |TokenBits(t, ll, dl)|, ll, dl, Apply(t, out), cap);
      ts := [t] + rest;
      TokensCons(bs, p, ll, dl, t, rest, out);
    }
  }

  lemma TokensCons(
    bs: seq<bool>, p: nat, ll: seq<nat>, dl: seq<nat>, t: Token, rest: seq<Token>, out: seq<byte>)
    requires ValidToken(t, ll, dl) && ReachesBack(t, out) && At(bs, p, TokenBits(t, ll, dl))
    requires ValidTokens(rest, ll, dl) && AllReachBack(rest, Apply(t, out))
    requires At(bs, p + |TokenBits(t, ll, dl)|, TokensBits(rest, ll, dl))
    ensures var ts := [t] + rest;
            && ValidTokens(ts, ll, dl) && AllReachBack(ts, out)
            && TokensBits(ts, ll, dl) == TokenBits(t, ll, dl) + TokensBits(rest, ll, dl)
            && At(bs, p, TokensBits(ts, ll, dl)) && ApplyAll(ts, out) == ApplyAll(rest, Apply(t, out))
  {
    hide At, TokenBits, Apply, ReachesBack, ValidToken;
    var ts := [t] + rest;
    assert ts[1..] == rest;
    AtAppend(bs, p, TokenBits(t, ll, dl), TokensBits(rest, ll, dl));
  }

  lemma {:induction false} BytesRead(bs: seq<bool>, p: nat, n: nat)
    requires p + 8 * n <= |bs|
    ensures At(bs, p, ToBits(Bytes(bs, p, n)))
    decreases n
  {
    hide LowBits, Val;
    if n > 0 {
      var b, rest := Bytes(bs, p, 1), Bytes(bs, p + 8, n - 1);
      BytesRead(bs, p + 8, n - 1);
      assert Bytes(bs, p, n) == b + rest;
      ToBitsAppend(b, rest);
      OneByteRead(bs, p);
      AtAppend(bs, p, ToBits(b), ToBits(rest));
    }
  }

  lemma OneByteRead(bs: seq<bool>, p: nat)
    requires p + 8 <= |bs|
    ensures At(bs, p, ToBits(Bytes(bs, p, 1)))
  {
    var b := Bytes(bs, p, 1);
    assert b == [Val(bs[p..p + 8])] + Bytes(bs, p + 8, 0);
    assert ToBits(b) == ToBits(b[..0]) + LowBits(b[0], 8);
    LowBitsVal(bs[p..p + 8]);
  }

  lemma StoredSound(bs: seq<bool>, p: nat, out: seq<byte>, cap: nat) returns (pad: seq<bool>, data: seq<byte>)
    requires p <= |bs| && Stored(bs, p, out, cap).Ok?
    ensures p + |pad| == Aligned(p) && |data| < 65536
    ensures At(bs, p, pad + (LowBits(|data|, 16) + (LowBits(65535 - |data|, 16) + ToBits(data))))
    ensures Stored(bs, p, out, cap) == Ok(out + data, p + |pad| + 32 + 8 * |data|)
  {
    hide LowBits, Val, ToBits, Bytes, Aligned, Pow2, At;
    var q := Aligned(p);
    pad := bs[p..q];
    var len := Val(bs[q..q + 16]);
    data := Bytes(bs, q + 32, len);
    StoredNumbers(bs, q);
    BytesRead(bs, q + 32, len);
    var x, y, z := LowBits(|data|, 16), LowBits(65535 - |data|, 16), ToBits(data);
    AtItself(bs, p, q);
    AtAppend(bs, q + 16, y, z);
    AtAppend(bs, q, x, y + z);
    AtAppend(bs, p, pad, x + (y + z));
  }

  lemma AtItself(bs: seq<bool>, p: nat, q: nat)
    requires p <= q <= |bs|
    ensures At(bs, p, bs[p..q])
  {
  }

  lemma StoredNumbers(bs: seq<bool>, q: nat)
    requires q + 32 <= |bs|
    ensures Val(bs[q..q + 16]) < 65536
    ensures At(bs, q, LowBits(Val(bs[q..q + 16]), 16)) && At(bs, q + 16, LowBits(Val(bs[q + 16..q + 32]), 16))
  {
    hide LowBits, Val, Pow2;
    Pow2Small();
    ValBound(bs[q..q + 16]);
    LowBitsVal(bs[q..q + 16]);
    LowBitsVal(bs[q + 16..q + 32]);
  }

  lemma {:induction false} ClenSound(bs: seq<bool>, p: nat, i: nat, n: nat, acc: seq<nat>)
    requires i <= n <= 19 && |acc| == 19 && p <= |bs| && ClenLengths(bs, p, i, n, acc).Ok?
    requires forall s :: 0 <= s < 19 ==> acc[s] < 8
    ensures var r := ClenLengths(bs, p, i, n, acc);
            && At(bs, p, ClenBits(r.value, i, n)) && r.pos == p + |ClenBits(r.value, i, n)|
            && (forall s :: 0 <= s < 19 ==> r.value[s] < 8)
            && (forall j :: 0 <= j < 19 && !(i <= j < n) ==> r.value[ClenSymbol(j)] == acc[ClenSymbol(j)])
    decreases n - i
  {
    hide At, GetBits, LowBits, ClenSymbol, Pow2, Sent;
    if i == n {
      AtNothing(bs, p);
    } else {
      var v := GetBits(bs, p, 3).value;
      NumberRead(bs, p, 3);
      Pow2Small();
      OrderTable(i);
      var acc' := acc[ClenSymbol(i) := v];
      ClenSound(bs, p + 3, i + 1, n, acc');
      var cl := ClenLengths(bs, p, i, n, acc).value;
      forall j: nat | j < 19 ensures ClenSymbol(j) == ClenSymbol(i) ==> j == i { ClenOrder(j); ClenOrder(i); }
      AtAppend(bs, p, LowBits(v, 3), ClenBits(cl, i + 1, n));
    }
  }

  // The first run of code lengths, when some are missing.
  lemma RunSound(bs: seq<bool>, p: nat, cl: seq<nat>, total: nat, acc: seq<nat>) returns (r: Run)
    requires p <= |bs| && |cl| == 19 && |acc| < total && CodeLengthRuns(bs, p, cl, total, acc).Ok?
    ensures ValidRun(r, cl) && (r.Again? ==> acc != []) && At(bs, p, RunBits(r, cl))
    ensures |acc| < |ApplyRun(r, acc)| <= total && p + |RunBits(r, cl)| <= |bs|
    ensures CodeLengthRuns(bs, p, cl, total, acc) ==
            CodeLengthRuns(bs, p + |RunBits(r, cl)|, cl, total, ApplyRun(r, acc))
  {
    hide At, GetBits, LowBits, Decode, Codeword, Pow2, Repeat, Times;
    TimesIs();
    DecodeSound(bs, p, cl);
    var d := Decode(bs, p, cl);
    Pow2Small();
    if d.value < 16 {
      r := One(d.value);
      RunAt(bs, p, cl, r, d.pos);
    } else {
      var width := if d.value == 16 then 2 else if d.value == 17 then 3 else 7;
      NumberRead(bs, d.pos, width);
      var n := GetBits(bs, d.pos, width).value;
      r := if d.value == 16 then Again(n + 3) else if d.value == 17 then Zeros(n + 3) else ManyZeros(n + 11);
      RunAt(bs, p, cl, r, d.pos);
    }
  }

  lemma RunAt(bs: seq<bool>, p: nat, cl: seq<nat>, r: Run, q: nat)
    requires ValidRun(r, cl) && At(bs, p, Codeword(cl, r.Symbol())) && q == p + cl[r.Symbol()] <= |bs|
    requires r.One? || At(bs, q, LowBits(r.Extra(), r.Width()))
    ensures At(bs, p, RunBits(r, cl)) && p + |RunBits(r, cl)| == q + r.Width() <= |bs|
  {
    hide Codeword;
    AtAppend(bs, p, Codeword(cl, r.Symbol()), LowBits(r.Extra(), r.Width()));
  }

  lemma {:induction false} RunsSound(
    bs: seq<bool>, p: nat, cl: seq<nat>, total: nat, acc: seq<nat>) returns (rs: seq<Run>)
    requires p <= |bs| && |cl| == 19 && |acc| <= total && CodeLengthRuns(bs, p, cl, total, acc).Ok?
    ensures ValidRuns(rs, cl, acc) && At(bs, p, RunsBits(rs, cl, acc))
    ensures CodeLengthRuns(bs, p, cl, total, acc) == Ok(ApplyRuns(rs, cl, acc), p + |RunsBits(rs, cl, acc)|)
    decreases total - |acc|
  {
    hide At, RunBits, CodeLengthRuns, ApplyRun, ValidRun;
    if |acc| == total {
      rs := [];
      RunsEnd(bs, p, cl, acc);
      AtNothing(bs, p);
    } else {
      var r := RunSound(bs, p, cl, total, acc);
      var rest := RunsSound(bs, p + |RunBits(r, cl)|, cl, total, ApplyRun(r, acc));
      rs := [r] + rest;
      assert rs[1..] == rest;
      AtAppend(bs, p, RunBits(r, cl), RunsBits(rest, cl, ApplyRun(r, acc)));
    }
  }

  lemma AtNothing(bs: seq<bool>, p: nat)
    requires p <= |bs|
    ensures At(bs, p, [])
  {
  }

  lemma HeaderSound(bs: seq<bool>, p: nat) returns (h: Header)
    requires p <= |bs| && Tables(bs, p).Ok?
    ensures ValidHeader(h) && At(bs, p, HeaderBits(h))
    ensures Tables(bs, p) == Ok((LitLengths(h), DistLengths(h)), p + |HeaderBits(h)|)
  {
    hide At, GetBits, LowBits, Pow2, ClenLengths, CodeLengthRuns, Accepts, ApplyRuns, RunsBits, ClenBits, ValidRuns;
    hide Fits, Sent, ClenSymbol;
    Pow2Small();
    var hlit, hdist, hclen := GetBits(bs, p, 5).value, GetBits(bs, p + 5, 5).value, GetBits(bs, p + 10, 4).value;
    NumberRead(bs, p, 5);
    NumberRead(bs, p + 5, 5);
    NumberRead(bs, p + 10, 4);
    var rc := ClenLengths(bs, p + 14, 0, hclen + 4, Repeat(0, 19));
    ClenSound(bs, p + 14, 0, hclen + 4, Repeat(0, 19));
    var rs := RunsSound(bs, rc.pos, rc.value, hlit + 257 + hdist + 1, []);
    h := Header(hlit + 257, hdist + 1, hclen + 4, rc.value, rs);
    var lens := ApplyRuns(rs, rc.value, []);
    AcceptsFits(rc.value);
    AcceptsFits(lens[..hlit + 257]);
    AcceptsFits(lens[hlit + 257..]);
    forall j | h.hclen <= j < 19 ensures h.cl[Sent(j)] == 0 { OrderTable(j); }
    var u, v := ClenBits(h.cl, 0, h.hclen), RunsBits(h.runs, h.cl, []);
    AtAppend(bs, p + 14, u, v);
    AtHeader(bs, p, hlit, hdist, hclen, u + v);
  }

  lemma AtHeader(bs: seq<bool>, p: nat, a: nat, b: nat, c: nat, rest: seq<bool>)
    requires At(bs, p, LowBits(a, 5)) && At(bs, p + 5, LowBits(b, 5)) && At(bs, p + 10, LowBits(c, 4))
    requires At(bs, p + 14, rest)
    ensures At(bs, p, LowBits(a, 5) + (LowBits(b, 5) + (LowBits(c, 4) + rest)))
  {
    hide *;
    AtAppend(bs, p + 10, LowBits(c, 4), rest);
    AtAppend(bs, p + 5, LowBits(b, 5), LowBits(c, 4) + rest);
    AtAppend(bs, p, LowBits(a, 5), LowBits(b, 5) + (LowBits(c, 4) + rest));
  }

  lemma BlockSound(bs: seq<bool>, p: nat, btype: nat, start: nat, out: seq<byte>, cap: nat)
    returns (b: Encoding.Block)
    requires p <= |bs| && start + 3 == p && Deflate.Block(bs, p, btype, out, cap).Ok?
    ensures ValidBlock(b, start, out) && TypeOf(b) == btype && At(bs, p, BodyBits(b, start, out))
    ensures Deflate.Block(bs, p, btype, out, cap) ==
            Ok(ApplyBlock(b, start, out), p + |BodyBits(b, start, out)|)
  {
    hide At, Codes, Stored, Tables, ValidHeader, HeaderBits, LitLengths, DistLengths, TokensBits, ToBits, LowBits,
      Aligned, AllReachBack, ApplyAll, ValidTokens, FixedLitLengths, FixedDistLengths, FixedLiterals, FixedDistances;
    FixedTables();
    if btype == 0 {
      var pad, data := StoredSound(bs, p, out, cap);
      PadAligned(p, pad);
      b := StoredBlock(pad, data);
    } else if btype == 1 {
      var ts := CodesSound(bs, p, FixedLitLengths(), FixedDistLengths(), out, cap);
      b := FixedBlock(ts);
    } else {
      var h := HeaderSound(bs, p);
      var ts := CodesSound(bs, p + |HeaderBits(h)|, LitLengths(h), DistLengths(h), out, cap);
      b := DynamicBlock(h, ts);
      AtAppend(bs, p, HeaderBits(h), TokensBits(ts, LitLengths(h), DistLengths(h)));
    }
  }

  lemma StepSound(bs: seq<bool>, p: nat, out: seq<byte>, cap: nat) returns (final: bool, b: Encoding.Block)
    requires p <= |bs| && Blocks(bs, p, out, cap).Ok?
    ensures ValidBlock(b, p, out) && At(bs, p, BlockBits(b, final, p, out))
    ensures var out', p' := ApplyBlock(b, p, out), p + |BlockBits(b, final, p, out)|;
            p < p' <= |bs| &&
            Blocks(bs, p, out, cap) == if final then Ok(out', p') else Blocks(bs, p', out', cap)
  {
    hide At, ValidBlock, GetBits, Deflate.Block, BodyBits, ApplyBlock, TypeOf, LowBits, Pow2;
    var v, btype := GetBits(bs, p, 1).value, GetBits(bs, p + 1, 2).value;
    final := v == 1;
    b := BlockSound(bs, p + 3, btype, p, out, cap);
    NumberRead(bs, p, 1);
    NumberRead(bs, p + 1, 2);
    FlagBits(v);
    var y, z := LowBits(btype, 2), BodyBits(b, p, out);
    AtAppend(bs, p + 1, y, z);
    AtAppend(bs, p, [final], y + z);
  }

  lemma FlagBits(v: nat)
    ensures Pow2(1) == 2 && (v < 2 ==> LowBits(v, 1) == [v == 1])
  {
  }

  lemma {:induction false} BlocksSound(bs: seq<bool>, p: nat, out: seq<byte>, cap: nat)
    returns (blocks: seq<Encoding.Block>)
    requires p <= |bs| && Blocks(bs, p, out, cap).Ok?
    ensures ValidStream(blocks, p, out) && At(bs, p, StreamBits(blocks, p, out))
    ensures Blocks(bs, p, out, cap).value == StreamBytes(blocks, p, out)
    decreases |bs| - p
  {
    hide At, ValidBlock, BlockBits, ApplyBlock, Blocks;
    var final, b := StepSound(bs, p, out, cap);
    if final {
      blocks := [b];
    } else {
      var bits, out' := BlockBits(b, false, p, out), ApplyBlock(b, p, out);
      var rest := BlocksSound(bs, p + |bits|, out', cap);
      blocks := [b] + rest;
      assert blocks[1..] == rest;
      AtAppend(bs, p, bits, StreamBits(rest, p + |bits|, out'));
    }
  }

  // blocks is an encoding, at the start of src, of a string of at most cap bytes.
  ghost predicate Encodes(blocks: seq<Encoding.Block>, src: seq<byte>, cap: nat) {
    && ValidStream(blocks, 0, [])
    && StreamBits(blocks, 0, []) <= ToBits(src)
    && |StreamBytes(blocks, 0, [])| <= cap
  }

  // The decoder succeeds on exactly the inputs that start with an encoded stream whose
  // bytes fit, and then returns those bytes.
  lemma InflateAcceptsExactly(src: seq<byte>, cap: nat)
    ensures Inflate(src, cap).Ok? <==> exists blocks :: Encodes(blocks, src, cap)
    ensures forall blocks :: Encodes(blocks, src, cap) ==> Inflate(src, cap).value == StreamBytes(blocks, 0, [])
  {
    hide StreamBits, ValidStream, StreamBytes, Blocks, ToBits;
    forall blocks | Encodes(blocks, src, cap)
      ensures Inflate(src, cap).Ok? && Inflate(src, cap).value == StreamBytes(blocks, 0, [])
    {
      InflateInvertsEncoding(src, blocks, cap);
    }
    if Inflate(src, cap).Ok? {
      var blocks := BlocksSound(ToBits(src), 0, [], cap);
      assert Encodes(blocks, src, cap);
    }
  }
}
