// The decoder itself: a bit reader, two tables filled in place and an output buffer, each
// method proved to compute what the functions of module Deflate say.
module Inflater {
  import opened Bits
  import opened Huffman
  import D = Deflate
  import E = Encoding
  import opened RoundTrip
  import S = Soundness

  // What an operation returned, against the specification's result and the state it left.
  ghost predicate Returns(r: int, spec: Result<nat>) {
    match spec case Ok(v, _) => r == v case Err(c) => r == c
  }

  // ---------- Filling the table ----------

  // Where the next symbol of length len goes when the first m symbols have been placed.
  ghost function Slot(lengths: seq<nat>, m: nat, len: nat): nat
    requires 1 <= len && m <= |lengths|
  {
    Offset(lengths, len) + Count(lengths[..m], len)
  }

  // The k-th symbol of length len among the first m has been placed.
  ghost predicate PlacedAt(lengths: seq<nat>, m: nat, s: seq<nat>, len: nat, k: nat)
    requires 1 <= len && m <= |lengths| && k < Count(lengths[..m], len)
  {
    Offset(lengths, len) + k < |s| && s[Offset(lengths, len) + k] == SymbolsOf(lengths[..m], len)[k]
  }

  ghost predicate Placed(lengths: seq<nat>, m: nat, s: seq<nat>)
    requires m <= |lengths|
  {
    forall len, k :: 1 <= len <= MAX_BITS && 0 <= k < Count(lengths[..m], len) ==> PlacedAt(lengths, m, s, len, k)
  }

  lemma {:induction false} CanonicalOfNothing(top: nat)
    ensures Canonical([], top) == []
  {
    if top > 0 { CanonicalOfNothing(top - 1); }
  }

  lemma {:induction false} CanonicalStep(lengths: seq<nat>, top: nat)
    requires lengths != []
    ensures var n := |lengths| - 1;
            |Canonical(lengths, top)| == |Canonical(lengths[..n], top)| + if 1 <= lengths[n] <= top then 1 else 0
  {
    if top > 0 { CanonicalStep(lengths, top - 1); }
  }

  // The slots of different lengths do not overlap.
  lemma SlotsApart(lengths: seq<nat>, a: nat, b: nat)
    requires 1 <= a < b
    ensures Offset(lengths, a) + Count(lengths, a) <= Offset(lengths, b)
  {
    hide SymbolsOf;
    CanonicalPrefix(lengths, a, b - 1);
  }

  lemma CountOneMore(lengths: seq<nat>, m: nat, len: nat)
    requires m < |lengths|
    ensures SymbolsOf(lengths[..m + 1], len) ==
            SymbolsOf(lengths[..m], len) + (if lengths[m] == len then [m] else [])
    ensures Count(lengths[..m + 1], len) <= Count(lengths, len)
  {
    assert lengths[..m + 1][..m] == lengths[..m];
    SymbolsOfPrefix(lengths, m + 1, len);
  }

  lemma SlotFree(lengths: seq<nat>, m: nat)
    requires m < |lengths| && 1 <= lengths[m] <= MAX_BITS
    ensures Slot(lengths, m, lengths[m]) < |Canonical(lengths, MAX_BITS)|
  {
    hide SymbolsOf;
    CountOneMore(lengths, m, lengths[m]);
    CanonicalAt(lengths, lengths[m], Count(lengths[..m], lengths[m]), MAX_BITS);
  }

  lemma PlaceNext(lengths: seq<nat>, m: nat, s: seq<nat>)
    requires m < |lengths| && 1 <= lengths[m] <= MAX_BITS && Placed(lengths, m, s)
    requires Slot(lengths, m, lengths[m]) < |s|
    ensures Placed(lengths, m + 1, s[Slot(lengths, m, lengths[m]) := m])
  {
    hide SymbolsOf, Canonical;
    var l := lengths[m];
    var at := Slot(lengths, m, l);
    var m', s' := m + 1, s[at := m];
    forall len, k | 1 <= len <= MAX_BITS && 0 <= k < Count(lengths[..m'], len)
      ensures PlacedAt(lengths, m', s', len, k)
    {
      CountOneMore(lengths, m, len);
      CountOneMore(lengths, m, l);
      if len < l { SlotsApart(lengths, len, l); }
      if l < len { SlotsApart(lengths, l, len); }
      if len == l && k == Count(lengths[..m], l) {
        assert Offset(lengths, len) + k == at;
      } else {
        assert k < Count(lengths[..m], len);
        assert PlacedAt(lengths, m, s, len, k);
      }
    }
  }

  lemma SkipUnused(lengths: seq<nat>, m: nat, s: seq<nat>)
    requires m < |lengths| && lengths[m] == 0 && Placed(lengths, m, s)
    ensures Placed(lengths, m + 1, s)
  {
    hide SymbolsOf, Canonical;
    var m' := m + 1;
    forall len, k | 1 <= len <= MAX_BITS && 0 <= k < Count(lengths[..m'], len)
      ensures PlacedAt(lengths, m', s, len, k)
    {
      CountOneMore(lengths, m, len);
      assert PlacedAt(lengths, m, s, len, k);
    }
  }

  lemma {:induction false} AllPlaced(lengths: seq<nat>, s: seq<nat>, top: nat)
    requires Placed(lengths, |lengths|, s) && top <= MAX_BITS && |Canonical(lengths, MAX_BITS)| <= |s|
    ensures |Canonical(lengths, top)| <= |s| && s[..|Canonical(lengths, top)|] == Canonical(lengths, top)
  {
    hide SymbolsOf;
    CanonicalPrefix(lengths, top, MAX_BITS);
    if top > 0 {
      AllPlaced(lengths, s, top - 1);
      var c, r := Canonical(lengths, top - 1), SymbolsOf(lengths, top);
      assert lengths[..|lengths|] == lengths;
      forall k: nat | k < |r| ensures s[|c| + k] == r[k] { assert PlacedAt(lengths, |lengths|, s, top, k); }
      assert s[..|c| + |r|] == c + r;
    }
  }

  lemma NonePlaced(lengths: seq<nat>, s: seq<nat>)
    ensures Placed(lengths, 0, s)
    ensures forall len :: 1 <= len ==> Slot(lengths, 0, len) == Offset(lengths, len)
  {
    assert lengths[..0] == [];
  }

  // ---------- How many places a table needs ----------

  // The array of symbols in the source has this many places, whatever table it is for.
  const SYMBOL_SLOTS: nat := 286

  // The fixed literal code needs this many.
  const FIXED_SLOTS: nat := 288

  // Where the placing loop writes symbol s; nowhere if it has no code.
  ghost function WritesAt(lengths: seq<nat>, s: nat): int
    requires s < |lengths|
  {
    if lengths[s] == 0 then -1 else Slot(lengths, s, lengths[s])
  }

  // Some symbol is written at or behind place `slots`.
  ghost predicate Overruns(lengths: seq<nat>, slots: nat) {
    exists s: nat :: s < |lengths| && WritesAt(lengths, s) >= slots
  }

  function UsedCount(lengths: seq<nat>): nat {
    if lengths == [] then 0
    else UsedCount(lengths[..|lengths| - 1]) + if lengths[|lengths| - 1] > 0 then 1 else 0
  }

  // The loop leaves an array of that many places exactly when more symbols are in use.
  lemma OverrunsIff(lengths: seq<nat>, slots: nat)
    requires CodeLengths(lengths)
    ensures Overruns(lengths, slots) <==> UsedCount(lengths) > slots
  {
    hide Slot, SymbolsOf, Canonical;
    UsedSize(lengths);
    if s: nat :| s < |lengths| && WritesAt(lengths, s) >= slots {
      SlotFree(lengths, s);
    }
    if UsedCount(lengths) > slots {
      var s := WrittenLast(lengths, MAX_BITS);
    }
  }

  lemma {:induction false} UsedSize(lengths: seq<nat>)
    requires CodeLengths(lengths)
    ensures |Canonical(lengths, MAX_BITS)| == UsedCount(lengths) <= |lengths|
  {
    if lengths == [] {
      CanonicalOfNothing(MAX_BITS);
    } else {
      UsedSize(lengths[..|lengths| - 1]);
      CanonicalStep(lengths, MAX_BITS);
    }
  }

  // The last place of the table is written.
  lemma {:induction false} WrittenLast(lengths: seq<nat>, top: nat) returns (s: nat)
    requires Canonical(lengths, top) != []
    ensures s < |lengths| && WritesAt(lengths, s) == |Canonical(lengths, top)| - 1
  {
    hide SymbolsOf;
    var c := SymbolsOf(lengths, top);
    assert Canonical(lengths, top) == Canonical(lengths, top - 1) + c;
    if c == [] {
      s := WrittenLast(lengths, top - 1);
    } else {
      hide Canonical;
      RankOf(lengths, top, |c| - 1);
      s := c[|c| - 1];
    }
  }

  // The tables of dynamic blocks always fit the source's array ...
  lemma TablesFit(bs: seq<bool>, p: nat)
    requires D.Tables(bs, p).Ok?
    ensures !Overruns(D.Tables(bs, p).value.0, SYMBOL_SLOTS) && !Overruns(D.Tables(bs, p).value.1, SYMBOL_SLOTS)
  {
    hide Overruns;
    var t := D.Tables(bs, p).value;
    assert |t.0| <= SYMBOL_SLOTS && |t.1| <= SYMBOL_SLOTS;
    assert CodeLengths(t.0) && CodeLengths(t.1) by {
      hide D.Tables;
      var h := S.HeaderSound(bs, p);
      HeaderCodes(h);
    }
    FewSymbols(t.0, SYMBOL_SLOTS);
    FewSymbols(t.1, SYMBOL_SLOTS);
  }

  lemma FewSymbols(lengths: seq<nat>, slots: nat)
    requires CodeLengths(lengths) && |lengths| <= slots
    ensures !Overruns(lengths, slots)
  {
    OverrunsIff(lengths, slots);
    UsedSize(lengths);
  }

  // ... but that of the fixed literal code does not: its last two symbols go past the end.
  lemma FixedOverruns()
    ensures Overruns(D.FixedLitLengths(), SYMBOL_SLOTS) && !Overruns(D.FixedDistLengths(), SYMBOL_SLOTS)
    ensures WritesAt(D.FixedLitLengths(), 254) == 286 && WritesAt(D.FixedLitLengths(), 255) == 287
    ensures UsedCount(D.FixedLitLengths()) == FIXED_SLOTS && !Overruns(D.FixedLitLengths(), FIXED_SLOTS)
  {
    hide Overruns, UsedCount, SymbolsOf, Canonical;
    var f := D.FixedLitLengths();
    FixedCodes();
    AllUsed(f);
    OverrunsIff(f, SYMBOL_SLOTS);
    FewSymbols(f, FIXED_SLOTS);
    FewSymbols(D.FixedDistLengths(), SYMBOL_SLOTS);
    FixedBefore(8);
    FixedNines(254);
    FixedNines(255);
  }

  lemma {:induction false} AllUsed(lengths: seq<nat>)
    requires forall s :: 0 <= s < |lengths| ==> lengths[s] > 0
    ensures UsedCount(lengths) == |lengths|
  {
    if lengths != [] { AllUsed(lengths[..|lengths| - 1]); }
  }

  // How many of the fixed literal codes are at most len bits long.
  lemma {:induction false} FixedBefore(len: nat)
    requires len <= 8
    ensures |Canonical(D.FixedLitLengths(), len)| == if len < 7 then 0 else if len == 7 then 24 else 176
  {
    hide SymbolsOf;
    if len > 0 {
      FixedBefore(len - 1);
      FixedLitCount(len);
    }
  }

  // How many symbols before s have a code of nine bits.
  lemma FixedNines(s: nat)
    requires 144 <= s <= 256
    ensures Count(D.FixedLitLengths()[..s], 9) == s - 144
  {
    hide SymbolsOf;
    var f := D.FixedLitLengths();
    CountRepeat(f[..s], 144, 9, 9);
    assert f[..s][..144] == f[..144];
    CountRepeat(f[..144], 0, 8, 9);
    assert f[..144][..0] == [];
    CountNone(9);
  }

  // A table of canonical codes: the number of codes of each length and the symbols in
  // canonical order.
  class Table {
    const count: array<nat>
    const symbol: array<nat>

    constructor (n: nat)
      ensures fresh(count) && fresh(symbol) && count.Length == MAX_BITS + 1 && symbol.Length == n
    {
      count := new nat[MAX_BITS + 1];
      symbol := new nat[n];
    }

    // The table of the codes with these lengths.
    ghost predicate For(lengths: seq<nat>)
      reads this, count, symbol
    {
      && count.Length == MAX_BITS + 1
      && (forall len :: 0 <= len <= MAX_BITS ==> count[len] == Count(lengths, len))
      && |Canonical(lengths, MAX_BITS)| <= symbol.Length
      && symbol[..|Canonical(lengths, MAX_BITS)|] == Canonical(lengths, MAX_BITS)
    }

    method CountLengths(lengths: seq<nat>)
      requires CodeLengths(lengths) && count.Length == MAX_BITS + 1
      modifies count
      ensures forall len :: 0 <= len <= MAX_BITS ==> count[len] == Count(lengths, len)
    {
      for len := 0 to MAX_BITS + 1
        invariant forall k :: 0 <= k < len ==> count[k] == 0
      {
        count[len] := 0;
      }
      assert lengths[..0] == [];
      for sym := 0 to |lengths|
        invariant forall len :: 0 <= len <= MAX_BITS ==> count[len] == Count(lengths[..sym], len)
      {
        hide SymbolsOf;
        forall len { CountOneMore(lengths, sym, len); }
        count[lengths[sym]] := count[lengths[sym]] + 1;
      }
      assert lengths[..|lengths|] == lengths;
    }

    // False when the lengths over-subscribe the code space.
    method CheckSpace(lengths: seq<nat>) returns (ok: bool)
      requires count.Length == MAX_BITS + 1
      requires forall len :: 0 <= len <= MAX_BITS ==> count[len] == Count(lengths, len)
      ensures ok <==> Fits(lengths)
    {
      var left: int := 1;
      for len := 1 to MAX_BITS + 1
        invariant left == Left(lengths, len - 1)
        invariant forall k :: 1 <= k < len ==> Left(lengths, k) >= 0
      {
        left := 2 * left;
        left := left - count[len];
        assert left == Left(lengths, len);
        if left < 0 { return false; }
      }
      return true;
    }

    // Where the symbols of each length start.
    method Offsets(lengths: seq<nat>) returns (offs: array<nat>)
      requires count.Length == MAX_BITS + 1
      requires forall len :: 0 <= len <= MAX_BITS ==> count[len] == Count(lengths, len)
      ensures fresh(offs) && offs.Length == MAX_BITS + 1
      ensures forall len :: 1 <= len <= MAX_BITS ==> offs[len] == Offset(lengths, len)
    {
      hide SymbolsOf;
      offs := new nat[MAX_BITS + 1];
      offs[1] := 0;
      for len := 1 to MAX_BITS
        invariant forall k :: 1 <= k <= len ==> offs[k] == Offset(lengths, k)
      {
        assert Canonical(lengths, len) == Canonical(lengths, len - 1) + SymbolsOf(lengths, len);
        offs[len + 1] := offs[len] + count[len];
      }
    }

    // Bucket sort of the used symbols by length.
    method Place(lengths: seq<nat>)
      requires CodeLengths(lengths) && count.Length == MAX_BITS + 1 && count != symbol
      requires !Overruns(lengths, symbol.Length)
      requires forall len :: 0 <= len <= MAX_BITS ==> count[len] == Count(lengths, len)
      modifies symbol
      ensures |Canonical(lengths, MAX_BITS)| <= symbol.Length
      ensures symbol[..|Canonical(lengths, MAX_BITS)|] == Canonical(lengths, MAX_BITS)
    {
      hide Placed, SymbolsOf, Canonical, Overruns;
      var offs := Offsets(lengths);
      NonePlaced(lengths, symbol[..]);
      OverrunsIff(lengths, symbol.Length);
      UsedSize(lengths);
      for sym := 0 to |lengths|
        invariant forall len :: 1 <= len <= MAX_BITS ==> offs[len] == Slot(lengths, sym, len)
        invariant Placed(lengths, sym, symbol[..])
      {
        var l := lengths[sym];
        forall len | 1 <= len <= MAX_BITS
          ensures Slot(lengths, sym + 1, len) == Slot(lengths, sym, len) + if len == l then 1 else 0
        {
          CountOneMore(lengths, sym, len);
        }
        if l != 0 {
          SlotFree(lengths, sym);
          PlaceNext(lengths, sym, symbol[..]);
          ghost var was := symbol[..];
          symbol[offs[l]] := sym;
          assert symbol[..] == was[Slot(lengths, sym, l) := sym];
          offs[l] := offs[l] + 1;
        } else {
          SkipUnused(lengths, sym, symbol[..]);
        }
      }
      AllPlaced(lengths, symbol[..], MAX_BITS);
    }

    // inf_construct: 0, or an error when the lengths over-subscribe the code space.  What is asked of
    // the array of symbols is exactly that no write goes past its end.
    method Construct(lengths: seq<nat>) returns (r: int)
      requires CodeLengths(lengths) && count.Length == MAX_BITS + 1 && count != symbol
      requires Fits(lengths) ==> !Overruns(lengths, symbol.Length)
      modifies count, symbol
      ensures r == if Fits(lengths) then 0 else INVALID_HUFFMAN
      ensures r == 0 ==> For(lengths)
    {
      hide SymbolsOf, Canonical, Left, Fits, Overruns;
      CountLengths(lengths);
      CountZeroAll(lengths);
      if count[0] == |lengths| {
        NoCodesFits(lengths);
        NoCodesTable(lengths, MAX_BITS);
        return 0;
      }
      var ok := CheckSpace(lengths);
      if !ok { return INVALID_HUFFMAN; }
      Place(lengths);
      return 0;
    }
  }

  lemma {:induction false} NoCodesTable(lengths: seq<nat>, top: nat)
    requires NoCodes(lengths)
    ensures Canonical(lengths, top) == []
  {
    if top > 0 {
      NoCodesTable(lengths, top - 1);
      NoCodesCount(lengths, top);
    }
  }

  // ---------- The decoder ----------

  class State {
    const input: seq<byte>
    const out: array<byte>
    var inPos: nat
    var bitbuf: nat
    var bitcnt: nat
    var outPos: nat

    constructor (src: seq<byte>, buffer: array<byte>)
      ensures Valid() && input == src && out == buffer && Pos() == 0 && outPos == 0
    {
      input, out := src, buffer;
      inPos, bitbuf, bitcnt, outPos := 0, 0, 0, 0;
    }

    ghost function Stream(): (bs: seq<bool>)
      ensures |bs| == 8 * |input|
    {
      ToBits(input)
    }

    // The position in the bit stream of the next unread bit.
    ghost function Pos(): int
      reads this
    {
      8 * inPos - bitcnt
    }

    // bitbuf holds the bitcnt bits, fewer than a byte, taken from the input but not used yet.
    ghost predicate Valid()
      reads this
    {
      && inPos <= |input| && bitcnt < 8 && bitcnt <= 8 * inPos && outPos <= out.Length
      && bitbuf == Val(Stream()[Pos()..8 * inPos])
    }

    // The output so far.
    ghost function Written(): seq<byte>
      requires outPos <= out.Length
      reads this, out
    {
      out[..outPos]
    }

    // inf_bits; with at most 24 bits asked for, everything fits a 32-bit word.  When the input runs
    // out, its bytes have been counted but not stored.
    method GetBits(need: nat) returns (r: int)
      requires Valid() && need <= 24
      modifies this`inPos, this`bitbuf, this`bitcnt
      ensures D.GetBits(Stream(), old(Pos()), need).Ok? ==> Valid() && Pos() == old(Pos()) + need
      ensures D.GetBits(Stream(), old(Pos()), need).Err? ==>
                inPos == |input| && bitbuf == old(bitbuf) && Pos() == old(Pos())
      ensures Returns(r, D.GetBits(Stream(), old(Pos()), need))
    {
      hide ToBits, LowBits, Val;
      ghost var p := Pos();
      var val := bitbuf;
      while bitcnt < need
        invariant inPos <= |input| && Pos() == p >= 0 && bitcnt < need + 8 && bitbuf == old(bitbuf)
        invariant val == Val(Stream()[p..8 * inPos])
        decreases |input| - inPos
      {
        if inPos >= |input| { return INPUT_EXHAUSTED; }
        AppendByte(input, inPos, p);
        val := val + input[inPos] * Pow2(bitcnt); // the bits do not overlap, so this is the bitwise or
        inPos := inPos + 1;
        bitcnt := bitcnt + 8;
      }
      TakeBits(Stream(), p, need, 8 * inPos);
      bitbuf := val / Pow2(need);
      bitcnt := bitcnt - need;
      return val % Pow2(need);
    }

    // inf_decode
    method DecodeSymbol(h: Table, ghost lengths: seq<nat>) returns (r: int)
      requires Valid() && h.For(lengths)
      modifies this`inPos, this`bitbuf, this`bitcnt
      ensures var d := Decode(Stream(), old(Pos()), lengths);
              Returns(r, d) && (d.Ok? ==> Valid() && Pos() == d.pos)
    {
      hide SymbolsOf, First, Canonical, DecodeFrom, ToBits, Val;
      ghost var v := 0;
      var code, first, index := 0, 0, 0;
      FirstStep(lengths);
      for len := 1 to MAX_BITS + 1
        invariant Valid() && code == 2 * v && first == First(lengths, len) <= code && index == Offset(lengths, len)
        invariant Decode(Stream(), old(Pos()), lengths) == DecodeFrom(Stream(), Pos(), lengths, len, v)
      {
        ghost var p := Pos();
        OneBit(Stream(), p);
        var bit := GetBits(1);
        if bit < 0 {
          DecodeFromEnd(Stream(), p, lengths, len, v);
          return bit;
        }
        code := code + bit;
        DecodeFromStep(Stream(), p, lengths, len, v);
        var count := h.count[len];
        if code - first < count {
          CanonicalAt(lengths, len, code - first, MAX_BITS);
          return h.symbol[index + (code - first)];
        }
        NextLength(lengths, len);
        index := index + count;
        first := first + count;
        first := 2 * first;
        v := code;
        code := 2 * code;
      }
      DecodeFromEnd(Stream(), Pos(), lengths, MAX_BITS + 1, v);
      return INVALID_CODE;
    }

    // inf_stored: the rest of the current byte is discarded.
    method StoredBlock() returns (r: int)
      requires Valid()
      modifies this, out
      ensures BlockDone(r, D.Stored(Stream(), old(Pos()), old(Written()), out.Length))
      ensures r == 0 ==> out[outPos..] == old(out[..])[outPos..]
    {
      hide ToBits, Val, LowBits, Pow2, D.Bytes;
      ghost var bs, q := Stream(), D.Aligned(Pos());
      AlignedIs(Pos(), inPos);
      bitbuf, bitcnt := 0, 0;
      if inPos + 4 > |input| { return INPUT_EXHAUSTED; }
      var len: nat := input[inPos] as int + 256 * input[inPos + 1] as int;
      var nlen: nat := input[inPos + 2] as int + 256 * input[inPos + 3] as int;
      TwoBytes(input, inPos);
      TwoBytes(input, inPos + 2);
      inPos := inPos + 4;
      if 65535 - len != nlen { return INVALID_STORED; } // len with all 16 bits flipped
      if inPos + len > |input| { return INPUT_EXHAUSTED; }
      if outPos + len > out.Length { return OUTPUT_FULL; }
      ghost var from := inPos;
      CopyInput(len);
      ByteRun(input, from, len);
      EmptyVal(bs, 8 * inPos);
      return 0;
    }

    // Copies len bytes from the input to the output.
    method CopyInput(len: nat)
      requires inPos + len <= |input| && outPos + len <= out.Length
      modifies this`inPos, this`outPos, out
      ensures inPos == old(inPos) + len && outPos == old(outPos) + len
      ensures Written() == old(Written()) + input[old(inPos)..inPos]
      ensures out[outPos..] == old(out[..])[outPos..]
    {
      ghost var from, before, all := inPos, out[..outPos], out[..];
      for i := 0 to len
        invariant inPos == from + i && outPos == |before| + i
        invariant out[..outPos] == before + input[from..inPos]
        invariant out[outPos..] == all[outPos..]
      {
        out[outPos] := input[inPos];
        outPos := outPos + 1;
        inPos := inPos + 1;
      }
    }

    // What a block leaves behind.
    ghost predicate BlockDone(r: int, spec: Result<seq<byte>>)
      reads this, out
    {
      match spec
      case Ok(o, p) => r == 0 && Valid() && Pos() == p && Written() == o
      case Err(c) => r == c
    }

    // inf_codes
    method CodedBlock(lencode: Table, distcode: Table, ghost ll: seq<nat>, ghost dl: seq<nat>) returns (r: int)
      requires Valid() && lencode.For(ll) && distcode.For(dl)
      requires out as object !in {lencode.count as object, lencode.symbol, distcode.count, distcode.symbol}
      modifies this, out
      ensures BlockDone(r, D.Codes(Stream(), old(Pos()), ll, dl, old(Written()), out.Length))
      ensures r == 0 ==> out[outPos..] == old(out[..])[outPos..]
    {
      hide ToBits, Val, Decode, Canonical, SymbolsOf, D.Copy, D.Codes, D.LengthDistance, Referred;
      ghost var bs, cap := Stream(), out.Length;
      ghost var spec, all := D.Codes(bs, Pos(), ll, dl, Written(), cap), out[..];
      while true
        invariant Valid() && lencode.For(ll) && distcode.For(dl) && outPos <= out.Length
        invariant spec == D.Codes(bs, Pos(), ll, dl, Written(), cap)
        invariant out[outPos..] == all[outPos..]
        decreases 8 * |input| - Pos()
      {
        CodesRound(bs, Pos(), ll, dl, Written(), cap);
        var sym := DecodeSymbol(lencode, ll);
        if sym < 0 { return sym; }
        if sym < 256 {
          if outPos >= out.Length { return OUTPUT_FULL; }
          ghost var w := Written();
          out[outPos] := sym;
          outPos := outPos + 1;
          assert Written() == w + [sym];
          assert out[outPos..] == all[outPos..];
        } else if sym == 256 {
          return 0;
        } else {
          ghost var i, was := outPos, out[..];
          var e := BackReference(sym - 257, distcode, dl);
          if e < 0 { return e; }
          TailsAgree(was, all, i, outPos);
        }
      }
      assert false;
    }

    // One back-reference with length code l: read it, check it, copy.
    method BackReference(l: nat, distcode: Table, ghost dl: seq<nat>) returns (e: int)
      requires Valid() && distcode.For(dl)
      modifies this, out
      ensures BlockDone(e, Referred(D.LengthDistance(Stream(), old(Pos()), l, dl), old(Written()), out.Length))
      ensures e == 0 ==> old(outPos) <= outPos && out[outPos..] == old(out[..])[outPos..]
    {
      hide D.LengthDistance, D.Copy, ToBits, Val;
      var r, length, distance := ReadMatch(l, distcode, dl);
      if r < 0 { return r; }
      if distance > outPos { return INVALID_DISTANCE; }
      if outPos + length > out.Length { return OUTPUT_FULL; }
      CopyBack(length, distance);
      return 0;
    }

    // The length and distance of a back-reference with length code l.
    method ReadMatch(l: nat, distcode: Table, ghost dl: seq<nat>) returns (e: int, length: int, distance: int)
      requires Valid() && distcode.For(dl)
      modifies this`inPos, this`bitbuf, this`bitcnt
      ensures match D.LengthDistance(Stream(), old(Pos()), l, dl)
              case Ok(m, p) => e == 0 && length == m.0 && distance == m.1 && Valid() && Pos() == p
              case Err(c) => e == c
    {
      hide ToBits, Val, Decode, Canonical, SymbolsOf, D.LenBase, D.LenExtra, D.DistBase, D.DistExtra, D.GetBits;
      length, distance := 0, 0;
      if l >= 29 { return INVALID_CODE, 0, 0; }
      var extra := GetBits(D.LenExtra(l));
      if extra < 0 { return extra, 0, 0; }
      length := D.LenBase(l) + extra;
      var dsym := DecodeSymbol(distcode, dl);
      if dsym < 0 { return dsym, 0, 0; }
      if dsym >= 30 { return INVALID_DISTANCE, 0, 0; }
      var dextra := GetBits(D.DistExtra(dsym));
      if dextra < 0 { return dextra, 0, 0; }
      distance := D.DistBase(dsym) + dextra;
      return 0, length, distance;
    }

    // inf_fixed_block
    method FixedBlock() returns (r: int)
      requires Valid()
      modifies this, out
      ensures BlockDone(r, D.Codes(
        Stream(), old(Pos()), D.FixedLitLengths(), D.FixedDistLengths(), old(Written()), out.Length))
      ensures r == 0 ==> out[outPos..] == old(out[..])[outPos..]
    {
      hide D.Codes, Fits, SymbolsOf, Canonical, ToBits, Val, BlockDone, D.FixedLitLengths, D.FixedDistLengths;
      hide Overruns, UsedCount, WritesAt;
      var lenlen := FillFixedLit();
      var distlen := FillFixedDist();
      FixedCodes();
      FixedOverruns();
      var lencode := new Table(FIXED_SLOTS); // the source has SYMBOL_SLOTS here too
      var distcode := new Table(SYMBOL_SLOTS);
      var a := lencode.Construct(lenlen);
      var b := distcode.Construct(distlen);
      r := CodedBlock(lencode, distcode, lenlen, distlen);
    }

    static method FillFixedLit() returns (lens: seq<nat>)
      ensures lens == D.FixedLitLengths()
    {
      var lenlen := new nat[288];
      for sym := 0 to 144
        invariant forall s :: 0 <= s < sym ==> lenlen[s] == 8
      {
        lenlen[sym] := 8;
      }
      for sym := 144 to 256
        invariant forall s :: 0 <= s < sym ==> lenlen[s] == if s < 144 then 8 else 9
      {
        lenlen[sym] := 9;
      }
      for sym := 256 to 280
        invariant forall s :: 0 <= s < sym ==> lenlen[s] == if s < 144 then 8 else if s < 256 then 9 else 7
      {
        lenlen[sym] := 7;
      }
      for sym := 280 to 288
        invariant forall s :: 0 <= s < sym ==>
                    lenlen[s] == if s < 144 then 8 else if s < 256 then 9 else if s < 280 then 7 else 8
      {
        lenlen[sym] := 8;
      }
      return lenlen[..];
    }

    static method FillFixedDist() returns (lens: seq<nat>)
      ensures lens == D.FixedDistLengths()
    {
      var distlen := new nat[D.MAX_DCODES];
      for sym := 0 to D.MAX_DCODES
        invariant forall s :: 0 <= s < sym ==> distlen[s] == 5
      {
        distlen[sym] := 5;
      }
      return distlen[..];
    }

    // The lengths of the code length code.
    method ReadClen(hclen: nat, clen: array<nat>) returns (r: int)
      requires Valid() && hclen <= 19 && clen.Length == 19 && clen as object != out as object
      requires clen[..] == D.Repeat(0, 19)
      modifies this`inPos, this`bitbuf, this`bitcnt, clen
      ensures match D.ClenLengths(Stream(), old(Pos()), 0, hclen, D.Repeat(0, 19))
              case Ok(cl, p) => r == 0 && clen[..] == cl && Valid() && Pos() == p
              case Err(c) => r == c
      ensures r == 0 ==> forall s :: 0 <= s < 19 ==> clen[s] < 8
    {
      hide D.GetBits, Val, ToBits, Pow2, D.ClenLengths;
      ghost var bs, spec := Stream(), D.ClenLengths(Stream(), Pos(), 0, hclen, D.Repeat(0, 19));
      for i := 0 to hclen
        invariant Valid() && spec == D.ClenLengths(bs, Pos(), i, hclen, clen[..])
        invariant forall s :: 0 <= s < 19 ==> clen[s] < 8
      {
        ghost var was: seq<nat> := clen[..];
        ClenRound(bs, Pos(), i, hclen, was);
        Pow2Small();
        var v := GetBits(3);
        if v < 0 { return v; }
        clen[D.ClenSymbol(i)] := v;
        assert clen[..] == was[D.ClenSymbol(i) := v as nat];
      }
      ClenDone(bs, Pos(), hclen, clen[..]);
      return 0;
    }

    // The run-length coded lengths, `total` of them, into `lengths`.
    method ReadRuns(clencode: Table, ghost cl: seq<nat>, total: nat, lengths: array<nat>) returns (r: int)
      requires Valid() && clencode.For(cl) && |cl| == 19 && total <= lengths.Length
      requires lengths !in {clencode.count, clencode.symbol} && lengths as object != out as object
      modifies this`inPos, this`bitbuf, this`bitcnt, lengths
      ensures match D.CodeLengthRuns(Stream(), old(Pos()), cl, total, [])
              case Ok(lens, p) => r == 0 && lengths[..total] == lens && Valid() && Pos() == p
              case Err(c) => r == c
      ensures r == 0 ==> CodeLengths(lengths[..total])
    {
      hide Val, ToBits, Decode, D.CodeLengthRuns, D.GetBits, Canonical, SymbolsOf, D.Repeat;
      ghost var bs, spec := Stream(), D.CodeLengthRuns(Stream(), Pos(), cl, total, []);
      var idx := 0;
      assert lengths[..0] == [];
      while idx < total
        invariant Valid() && clencode.For(cl) && idx <= total
        invariant spec == D.CodeLengthRuns(bs, Pos(), cl, total, lengths[..idx])
        invariant forall k :: 0 <= k < idx ==> lengths[k] <= MAX_BITS
      {
        ghost var was := lengths[..idx];
        RunsRound(bs, Pos(), cl, total, was);
        var sym := DecodeSymbol(clencode, cl);
        if sym < 0 { return sym; }
        if sym < 16 {
          lengths[idx] := sym;
          idx := idx + 1;
          assert lengths[..idx] == was + [sym];
        } else {
          if sym == 16 && idx == 0 { return INVALID_HUFFMAN; }
          var rep := GetBits(if sym == 16 then 2 else if sym == 17 then 3 else 7);
          if rep < 0 { return rep; }
          rep := rep + if sym == 18 then 11 else 3;
          if idx + rep > total { return TOO_MANY_CODES; }
          var v := if sym == 16 then lengths[idx - 1] else 0;
          assert v <= MAX_BITS;
          Fill(lengths, idx, rep, v);
          assert forall k :: 0 <= k < idx ==> lengths[..idx][k] == was[k];
          idx := idx + rep;
          assert lengths[..idx] == was + D.Repeat(v, rep);
        }
      }
      RunsDone(bs, Pos(), cl, lengths[..total]);
      return 0;
    }

    // Writes n copies of v from position i on.
    static method Fill(a: array<nat>, i: nat, n: nat, v: nat)
      requires i + n <= a.Length
      modifies a
      ensures a[..i + n] == old(a[..i]) + D.Repeat(v, n)
      ensures forall j :: i <= j < i + n ==> a[j] == v
    {
      for k := 0 to n
        invariant a[..i] == old(a[..i]) && forall j :: i <= j < i + k ==> a[j] == v
      {
        a[i + k] := v;
      }
    }

    // The header of a block with dynamic codes.
    method ReadTables() returns (e: int, lencode: Table, distcode: Table, ghost ll: seq<nat>, ghost dl: seq<nat>)
      requires Valid()
      modifies this`inPos, this`bitbuf, this`bitcnt
      ensures match D.Tables(Stream(), old(Pos()))
              case Ok(t, p) => e == 0 && Valid() && Pos() == p && t == (ll, dl) && lencode.For(ll) && distcode.For(dl)
              case Err(c) => e == c
      ensures fresh(lencode.count) && fresh(lencode.symbol) && fresh(distcode.count) && fresh(distcode.symbol)
    {
      hide SymbolsOf, Canonical, ToBits, Val, D.CodeLengthRuns, D.ClenLengths, D.Accepts, Fits, D.GetBits, Table.For;
      hide Overruns;
      lencode := new Table(SYMBOL_SLOTS);
      distcode := new Table(SYMBOL_SLOTS);
      ll, dl := [], [];
      var hlit := GetBits(5);
      if hlit < 0 { e := hlit; return; }
      hlit := hlit + 257;
      var hdist := GetBits(5);
      if hdist < 0 { e := hdist; return; }
      hdist := hdist + 1;
      var hclen := GetBits(4);
      if hclen < 0 { e := hclen; return; }
      hclen := hclen + 4;
      Pow2Small();
      if hlit > D.MAX_LCODES || hdist > D.MAX_DCODES { e := TOO_MANY_CODES; return; }
      var lengths;
      e, lengths := ReadLengths(hlit + hdist, hclen);
      if e < 0 { return; }
      ll, dl := lengths[..hlit], lengths[hlit..];
      AcceptsFits(ll);
      AcceptsFits(dl);
      FewSymbols(lengths[..hlit], SYMBOL_SLOTS);
      FewSymbols(lengths[hlit..], SYMBOL_SLOTS);
      e := lencode.Construct(lengths[..hlit]);
      if e != 0 { e := INVALID_HUFFMAN; return; }
      e := distcode.Construct(lengths[hlit..]);
      if e != 0 { e := INVALID_HUFFMAN; return; }
    }

    // Both vectors of code lengths, one after the other.
    method ReadLengths(total: nat, hclen: nat) returns (e: int, lengths: seq<nat>)
      requires Valid() && hclen <= 19 && total <= D.MAX_LCODES + D.MAX_DCODES
      modifies this`inPos, this`bitbuf, this`bitcnt
      ensures match LengthsOf(Stream(), old(Pos()), total, hclen)
              case Ok(lens, p) => e == 0 && lengths == lens && CodeLengths(lens) && Valid() && Pos() == p
              case Err(c) => e == c < 0
    {
      hide SymbolsOf, Canonical, ToBits, Val, D.CodeLengthRuns, D.ClenLengths, D.Accepts, Fits, D.GetBits, Table.For;
      hide Overruns;
      lengths := [];
      var clen := new nat[19](_ => 0);
      assert clen[..] == D.Repeat(0, 19);
      e := ReadClen(hclen, clen);
      if e < 0 { return; }
      var clencode := new Table(SYMBOL_SLOTS);
      FewSymbols(clen[..], SYMBOL_SLOTS);
      AcceptsFits(clen[..]);
      e := clencode.Construct(clen[..]);
      if e != 0 { e := INVALID_HUFFMAN; return; }
      var a := new nat[D.MAX_LCODES + D.MAX_DCODES];
      e := ReadRuns(clencode, clen[..], total, a);
      if e < 0 { return; }
      lengths := a[..total];
    }

    // inf_dynamic_block
    method DynamicBlock() returns (r: int)
      requires Valid()
      modifies this, out
      ensures BlockDone(r, D.Dynamic(Stream(), old(Pos()), old(Written()), out.Length))
      ensures r == 0 ==> out[outPos..] == old(out[..])[outPos..]
    {
      hide D.Codes, D.Tables, ToBits, Val, Table.For;
      ghost var ll, dl;
      var lencode, distcode;
      r, lencode, distcode, ll, dl := ReadTables();
      if r != 0 { return; }
      r := CodedBlock(lencode, distcode, ll, dl);
    }

    // A block of the given type.
    method OneBlock(btype: nat) returns (r: int)
      requires Valid()
      modifies this, out
      ensures BlockDone(r, D.Block(Stream(), old(Pos()), btype, old(Written()), out.Length))
      ensures r == 0 ==> out[outPos..] == old(out[..])[outPos..] && outPos >= old(outPos)
    {
      hide D.Codes, D.Dynamic, D.Stored, ToBits, Val;
      if btype == 0 {
        r := StoredBlock();
      } else if btype == 1 {
        r := FixedBlock();
      } else if btype == 2 {
        r := DynamicBlock();
      } else {
        r := INVALID_BTYPE;
      }
    }

    // The byte-by-byte copy may read bytes that it has just written.
    method CopyBack(length: nat, distance: nat)
      requires outPos <= out.Length && 1 <= distance <= outPos && outPos + length <= out.Length
      modifies this`outPos, out
      ensures outPos == old(outPos) + length
      ensures Written() == D.Copy(old(Written()), length, distance)
      ensures out[outPos..] == old(out[..])[outPos..]
    {
      ghost var before, all := out[..outPos], out[..];
      var from := outPos - distance;
      for i := 0 to length
        invariant outPos == |before| + i && from == |before| - distance + i
        invariant out[..|before|] == before
        invariant forall k :: 0 <= k < i ==> out[|before| + k] == before[|before| - distance + k % distance]
        invariant out[outPos..] == all[outPos..]
      {
        PeriodicSource(i, distance);
        out[outPos] := out[from];
        outPos := outPos + 1;
        from := from + 1;
      }
      assert out[..outPos] == D.Copy(before, length, distance);
    }
  }

  // The output after a back-reference, or the reason why there is none.
  ghost function Referred(m: Result<(nat, nat)>, out: seq<byte>, cap: nat): Result<seq<byte>>
    requires m.Ok? ==> m.value.1 >= 1
    requires m.Err? ==> m.code < 0
    ensures var r := Referred(m, out, cap); r.Ok? ==> m.Ok? && r.pos == m.pos && |r.value| <= cap
    ensures Referred(m, out, cap).Err? ==> Referred(m, out, cap).code < 0
  {
    if m.Err? then Err(m.code)
    else if m.value.1 > |out| then Err(INVALID_DISTANCE)
    else if |out| + m.value.0 > cap then Err(OUTPUT_FULL)
    else Ok(D.Copy(out, m.value.0, m.value.1), m.pos)
  }

  lemma TailsAgree(a: seq<byte>, b: seq<byte>, i: nat, j: nat)
    requires i <= j <= |a| == |b| && a[i..] == b[i..]
    ensures a[j..] == b[j..]
  {
    assert a[j..] == a[i..][j - i..];
    assert b[j..] == b[i..][j - i..];
  }

  lemma ClenRound(bs: seq<bool>, p: nat, i: nat, n: nat, acc: seq<nat>)
    requires i < n <= 19 && |acc| == 19
    ensures var g := D.GetBits(bs, p, 3);
            D.ClenLengths(bs, p, i, n, acc) ==
            if g.Err? then Err(g.code) else D.ClenLengths(bs, g.pos, i + 1, n, acc[D.ClenSymbol(i) := g.value])
  {
    hide D.GetBits, D.ClenSymbol;
  }

  lemma ClenDone(bs: seq<bool>, p: nat, n: nat, acc: seq<nat>)
    requires n <= 19 && |acc| == 19
    ensures D.ClenLengths(bs, p, n, n, acc) == Ok(acc, p)
  {
  }

  // The code lengths that the header's first three numbers announce.
  ghost function LengthsOf(bs: seq<bool>, p: nat, total: nat, hclen: nat): (r: Result<seq<nat>>)
    requires hclen <= 19
    ensures r.Ok? ==> |r.value| == total
  {
    var (cl, p1) :- D.ClenLengths(bs, p, 0, hclen, D.Repeat(0, 19));
    if !D.Accepts(cl) then Err(INVALID_HUFFMAN) else D.CodeLengthRuns(bs, p1, cl, total, [])
  }

  // One round of the code length loop.
  lemma RunsRound(bs: seq<bool>, p: nat, cl: seq<nat>, total: nat, acc: seq<nat>)
    requires |acc| < total
    ensures var d := Decode(bs, p, cl);
            var width, least := if d.Ok? && d.value == 16 then 2 else if d.Ok? && d.value == 17 then 3 else 7,
                                if d.Ok? && d.value <= 17 then 3 else 11;
            D.CodeLengthRuns(bs, p, cl, total, acc) ==
            if d.Err? then Err(d.code)
            else if d.value < 16 then D.CodeLengthRuns(bs, d.pos, cl, total, acc + [d.value])
            else if d.value == 16 && acc == [] then Err(INVALID_HUFFMAN)
            else
              var g := D.GetBits(bs, d.pos, width);
              if g.Err? then Err(g.code)
              else if |acc| + g.value + least > total then Err(TOO_MANY_CODES)
              else D.CodeLengthRuns(bs, g.pos, cl, total, acc + D.Repeat(
                if d.value == 16 then acc[|acc| - 1] else 0, g.value + least))
  {
    hide D.GetBits, Decode, D.Repeat;
  }

  lemma RunsDone(bs: seq<bool>, p: nat, cl: seq<nat>, acc: seq<nat>)
    ensures D.CodeLengthRuns(bs, p, cl, |acc|, acc) == Ok(acc, p)
  {
  }

  // One round of the main loop.
  lemma CodesRound(bs: seq<bool>, p: nat, ll: seq<nat>, dl: seq<nat>, out: seq<byte>, cap: nat)
    ensures var d := Decode(bs, p, ll);
            D.Codes(bs, p, ll, dl, out, cap) ==
            if d.Err? then Err(d.code)
            else if d.value < 256 then
              (if |out| >= cap then Err(OUTPUT_FULL) else D.Codes(bs, d.pos, ll, dl, out + [d.value], cap))
            else if d.value == 256 then Ok(out, d.pos)
            else
              var m := Referred(D.LengthDistance(bs, d.pos, d.value - 257, dl), out, cap);
              if m.Err? then Err(m.code) else D.Codes(bs, m.pos, ll, dl, m.value, cap)
  {
    hide Decode, D.LengthDistance, D.Copy;
  }

  // Copying within the output repeats the last `d` bytes.
  lemma PeriodicSource(i: nat, d: nat)
    requires d > 0
    ensures i < d ==> i % d == i
    ensures i >= d ==> i % d == (i - d) % d
  {
    if i >= d { DivModUnique(i, d, (i - d) / d + 1, (i - d) % d); }
  }

  lemma AlignedIs(p: nat, i: nat)
    requires p <= 8 * i < p + 8
    ensures D.Aligned(p) == 8 * i
  {
  }

  lemma EmptyVal(bs: seq<bool>, p: nat)
    requires p <= |bs|
    ensures Val(bs[p..p]) == 0
  {
  }

  lemma TwoBytes(s: seq<byte>, i: nat)
    requires i + 2 <= |s|
    ensures Val(ToBits(s)[8 * i..8 * i + 16]) == s[i] as int + 256 * s[i + 1] as int
  {
    hide Val, ToBits, Pow2, LowBits;
    var bs := ToBits(s);
    var a, b := bs[8 * i..8 * i + 8], bs[8 * (i + 1)..8 * (i + 1) + 8];
    ToBitsByte(s, i);
    ToBitsByte(s, i + 1);
    ValAppend(a, b);
    Pow2Small();
    assert bs[8 * i..8 * i + 16] == a + b;
  }

  lemma {:induction false} ByteRun(s: seq<byte>, i: nat, n: nat)
    requires i + n <= |s|
    ensures D.Bytes(ToBits(s), 8 * i, n) == s[i..i + n]
    decreases n
  {
    hide Val, ToBits, LowBits;
    if n > 0 {
      ToBitsByte(s, i);
      ByteRun(s, i + 1, n - 1);
    }
  }

  lemma FirstStep(lengths: seq<nat>)
    ensures First(lengths, 1) == 0 && Offset(lengths, 1) == 0
  {
  }

  lemma NextLength(lengths: seq<nat>, len: nat)
    requires len >= 1
    ensures First(lengths, len + 1) == 2 * (First(lengths, len) + Count(lengths, len))
    ensures Offset(lengths, len + 1) == Offset(lengths, len) + Count(lengths, len)
  {
    hide SymbolsOf;
  }

  lemma OneBit(bs: seq<bool>, p: nat)
    ensures D.GetBits(bs, p, 1) == if p < |bs| then Ok(Digit(bs[p]), p + 1) else Err(INPUT_EXHAUSTED)
  {
    if p < |bs| { assert bs[p..p + 1] == [bs[p]] + []; }
  }

  lemma AppendByte(s: seq<byte>, i: nat, p: nat)
    requires i < |s| && p <= 8 * i
    ensures var bs := ToBits(s);
            Val(bs[p..8 * (i + 1)]) == Val(bs[p..8 * i]) + s[i] * Pow2(8 * i - p)
  {
    hide ToBits, Val, Pow2, LowBits;
    var bs, m, q := ToBits(s), 8 * i, 8 * i + 8;
    var a, b := bs[p..m], bs[m..q];
    ToBitsByte(s, i);
    ValAppend(a, b);
    assert bs[p..q] == a + b;
  }

  lemma TakeBits(bs: seq<bool>, p: nat, n: nat, q: nat)
    requires p + n <= q <= |bs|
    ensures Val(bs[p..q]) % Pow2(n) == Val(bs[p..p + n]) && Val(bs[p..q]) / Pow2(n) == Val(bs[p + n..q])
  {
    hide Val;
    ValCut(bs[p..q], n);
    assert bs[p..q][..n] == bs[p..p + n] && bs[p..q][n..] == bs[p + n..q];
  }

  // inflate_raw: the number of bytes written at the start of buffer, or an error.
  method InflateRaw(src: seq<byte>, buffer: array<byte>) returns (r: int)
    modifies buffer
    ensures match D.Inflate(src, buffer.Length)
            case Ok(out, _) => r == |out| && buffer[..] == out + old(buffer[..])[|out|..]
            case Err(c) => r == c < 0
  {
    hide ToBits, Val, D.Blocks, D.Block, D.GetBits;
    var s := new State(src, buffer);
    ghost var bs, cap, all := s.Stream(), buffer.Length, buffer[..];
    var final: int := 0;
    assert buffer[..0] == [];
    while final == 0
      invariant s.Valid() && s.out == buffer && s.input == src && s.outPos <= buffer.Length
      invariant final == 0 ==> D.Inflate(src, cap) == D.Blocks(bs, s.Pos(), s.Written(), cap)
      invariant final != 0 ==> D.Inflate(src, cap) == Ok(s.Written(), s.Pos())
      invariant buffer[s.outPos..] == all[s.outPos..]
      decreases 8 * |src| - s.Pos()
    {
      BlocksRound(bs, s.Pos(), s.Written(), cap);
      final := s.GetBits(1);
      if final < 0 { return final; }
      var btype := s.GetBits(2);
      if btype < 0 { return btype; }
      ghost var i, was := s.outPos, buffer[..];
      var rc := s.OneBlock(btype);
      if rc != 0 { return rc; }
      TailsAgree(was, all, i, s.outPos);
    }
    return s.outPos;
  }

  // One round of the block loop.
  lemma BlocksRound(bs: seq<bool>, p: nat, out: seq<byte>, cap: nat)
    ensures var f := D.GetBits(bs, p, 1);
            D.Blocks(bs, p, out, cap) ==
            if f.Err? then Err(f.code)
            else
              var t := D.GetBits(bs, f.pos, 2);
              if t.Err? then Err(t.code)
              else
                var b := D.Block(bs, t.pos, t.value, out, cap);
                if b.Err? then Err(b.code)
                else if f.value == 1 then Ok(b.value, b.pos)
                else D.Blocks(bs, b.pos, b.value, cap)
  {
    hide D.GetBits, D.Block;
  }
}
