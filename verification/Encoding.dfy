// An encoder for DEFLATE streams, written from RFC 1951 and not from the decoder: every
// choice a compressor has (block types, codes, code length runs, the spelling of each
// length and distance, padding bits) is an argument, and the result is the bit string.
module Encoding {
  import opened Bits
  import opened Huffman

  // ---------- Lengths and distances (section 3.2.5) ----------

  // Each length code stands for a range of lengths behind that of the code before, wide enough for its
  // extra bits: none for the first eight codes, then one bit more every four codes.  The last code is
  // length 258 alone.
  function LengthWidth(l: nat): nat
    requires l < 29
  {
    if l < 8 || l == 28 then 0 else l / 4 - 1
  }

  function FirstLength(l: nat): nat
    requires l < 29
  {
    if l == 28 then 258 else if l == 0 then 3 else FirstLength(l - 1) + Pow2(LengthWidth(l - 1))
  }

  // Distances likewise, from 1 on, with one bit more every two codes.
  function DistanceWidth(d: nat): nat {
    if d < 2 then 0 else d / 2 - 1
  }

  function FirstDistance(d: nat): nat {
    if d == 0 then 1 else FirstDistance(d - 1) + Pow2(DistanceWidth(d - 1))
  }

  predicate SpellsLength(l: nat, length: nat) {
    l < 29 && FirstLength(l) <= length < FirstLength(l) + Pow2(LengthWidth(l))
  }

  predicate SpellsDistance(d: nat, distance: nat) {
    d < 30 && FirstDistance(d) <= distance < FirstDistance(d) + Pow2(DistanceWidth(d))
  }

  // ---------- Literals and back-references ----------

  // A back-reference has a length, a distance, and the codes that spell them.
  datatype Token =
    | Literal(b: byte)
    | Match(length: nat, distance: nat, l: nat, d: nat)

  predicate ValidToken(t: Token, ll: seq<nat>, dl: seq<nat>) {
    match t
    case Literal(b) => Used(ll, b)
    case Match(length, distance, l, d) =>
      SpellsLength(l, length) && Used(ll, 257 + l) && SpellsDistance(d, distance) && Used(dl, d)
  }

  function TokenBits(t: Token, ll: seq<nat>, dl: seq<nat>): seq<bool>
    requires ValidToken(t, ll, dl)
  {
    match t
    case Literal(b) => Codeword(ll, b)
    case Match(length, distance, l, d) =>
      Codeword(ll, 257 + l) + MatchBits(length, distance, l, d, dl)
  }

  function MatchBits(length: nat, distance: nat, l: nat, d: nat, dl: seq<nat>): seq<bool>
    requires SpellsLength(l, length) && SpellsDistance(d, distance) && Used(dl, d)
  {
    LowBits(length - FirstLength(l), LengthWidth(l)) +
    (Codeword(dl, d) + LowBits(distance - FirstDistance(d), DistanceWidth(d)))
  }

  predicate ValidTokens(ts: seq<Token>, ll: seq<nat>, dl: seq<nat>) {
    Used(ll, 256) && forall i :: 0 <= i < |ts| ==> ValidToken(ts[i], ll, dl)
  }

  // The tokens of a block, and the end-of-block code, 256.
  function TokensBits(ts: seq<Token>, ll: seq<nat>, dl: seq<nat>): seq<bool>
    requires ValidTokens(ts, ll, dl)
  {
    if ts == [] then Codeword(ll, 256) else TokenBits(ts[0], ll, dl) + TokensBits(ts[1..], ll, dl)
  }

  predicate ReachesBack(t: Token, out: seq<byte>) {
    t.Match? ==> 1 <= t.distance <= |out|
  }

  // n more bytes, each the one that stands dist bytes before it (section 3.2.3).
  function Repeated(out: seq<byte>, n: nat, dist: nat): (r: seq<byte>)
    requires 1 <= dist <= |out|
    ensures |r| == |out| + n
  {
    if n == 0 then out
    else
      var r := Repeated(out, n - 1, dist);
      r + [r[|r| - dist]]
  }

  // What one token adds to the output.
  function Apply(t: Token, out: seq<byte>): (r: seq<byte>)
    requires ReachesBack(t, out)
    ensures |r| >= |out|
  {
    match t
    case Literal(b) => out + [b]
    case Match(length, distance, _, _) => Repeated(out, length, distance)
  }

  // No back-reference reaches before the start of the output.
  predicate AllReachBack(ts: seq<Token>, out: seq<byte>) {
    ts == [] || (ReachesBack(ts[0], out) && AllReachBack(ts[1..], Apply(ts[0], out)))
  }

  function ApplyAll(ts: seq<Token>, out: seq<byte>): (r: seq<byte>)
    requires AllReachBack(ts, out)
    ensures |r| >= |out|
  {
    if ts == [] then out else ApplyAll(ts[1..], Apply(ts[0], out))
  }

  // ---------- The header of a block with dynamic codes ----------

  // A run of code lengths: one length, the previous length n more times, or n zeros.
  datatype Run = One(len: nat) | Again(n: nat) | Zeros(n: nat) | ManyZeros(n: nat) {
    function Symbol(): nat {
      match this case One(len) => len case Again(_) => 16 case Zeros(_) => 17 case ManyZeros(_) => 18
    }

    function Width(): nat {
      match this case One(_) => 0 case Again(_) => 2 case Zeros(_) => 3 case ManyZeros(_) => 7
    }

    function Extra(): int {
      match this case One(_) => 0 case Again(n) => n - 3 case Zeros(n) => n - 3 case ManyZeros(n) => n - 11
    }
  }

  function Times(v: nat, n: nat): (r: seq<nat>)
    ensures |r| == n
  {
    seq(n, _ => v)
  }

  predicate ValidRun(r: Run, cl: seq<nat>) {
    Used(cl, r.Symbol()) && (r.One? ==> r.len < 16) && 0 <= r.Extra() < Pow2(r.Width())
  }

  function RunBits(r: Run, cl: seq<nat>): seq<bool>
    requires ValidRun(r, cl)
  {
    Codeword(cl, r.Symbol()) + LowBits(r.Extra(), r.Width())
  }

  function ApplyRun(r: Run, acc: seq<nat>): (s: seq<nat>)
    requires r.Again? ==> acc != []
    ensures r.One? || r.n > 0 ==> |s| > |acc|
    ensures |s| >= |acc|
  {
    match r
    case One(len) => acc + [len]
    case Again(n) => acc + Times(acc[|acc| - 1], n)
    case Zeros(n) => acc + Times(0, n)
    case ManyZeros(n) => acc + Times(0, n)
  }

  predicate ValidRuns(rs: seq<Run>, cl: seq<nat>, acc: seq<nat>) {
    rs == [] ||
    (ValidRun(rs[0], cl) && (rs[0].Again? ==> acc != []) && ValidRuns(rs[1..], cl, ApplyRun(rs[0], acc)))
  }

  function RunsBits(rs: seq<Run>, cl: seq<nat>, acc: seq<nat>): seq<bool>
    requires ValidRuns(rs, cl, acc)
  {
    if rs == [] then [] else RunBits(rs[0], cl) + RunsBits(rs[1..], cl, ApplyRun(rs[0], acc))
  }

  function ApplyRuns(rs: seq<Run>, cl: seq<nat>, acc: seq<nat>): (s: seq<nat>)
    requires ValidRuns(rs, cl, acc)
    ensures |s| >= |acc|
  {
    if rs == [] then acc else ApplyRuns(rs[1..], cl, ApplyRun(rs[0], acc))
  }

  // The symbol of the code length alphabet that is sent as the i-th: the repeat codes and zero, then the
  // lengths around 8 from the middle outwards (section 3.2.7).
  function Sent(i: nat): (s: nat)
    requires i < 19
    ensures s < 19
  {
    if i < 3 then 16 + i else if i == 3 then 0 else if i % 2 == 0 then 6 + i / 2 else 9 - i / 2
  }

  // The i-th to the n-th length of the code length alphabet, in transmission order.
  function ClenBits(cl: seq<nat>, i: nat, n: nat): seq<bool>
    requires i <= n <= 19 && |cl| == 19
    decreases n - i
  {
    if i == n then [] else LowBits(cl[Sent(i)], 3) + ClenBits(cl, i + 1, n)
  }

  datatype Header = Header(hlit: nat, hdist: nat, hclen: nat, cl: seq<nat>, runs: seq<Run>)

  ghost predicate ValidHeader(h: Header) {
    && 257 <= h.hlit <= 286 && 1 <= h.hdist <= 30 && 4 <= h.hclen <= 19
    && |h.cl| == 19 && (forall s :: 0 <= s < 19 ==> h.cl[s] < 8)
    && (forall j :: h.hclen <= j < 19 ==> h.cl[Sent(j)] == 0)
    && Fits(h.cl)
    && ValidRuns(h.runs, h.cl, [])
    && var lens := ApplyRuns(h.runs, h.cl, []);
       |lens| == h.hlit + h.hdist && Fits(lens[..h.hlit]) && Fits(lens[h.hlit..])
  }

  function HeaderBits(h: Header): seq<bool>
    requires ValidHeader(h)
  {
    LowBits(h.hlit - 257, 5) + (LowBits(h.hdist - 1, 5) + (LowBits(h.hclen - 4, 4) +
    (ClenBits(h.cl, 0, h.hclen) + RunsBits(h.runs, h.cl, []))))
  }

  function LitLengths(h: Header): seq<nat>
    requires ValidHeader(h)
  {
    ApplyRuns(h.runs, h.cl, [])[..h.hlit]
  }

  function DistLengths(h: Header): seq<nat>
    requires ValidHeader(h)
  {
    ApplyRuns(h.runs, h.cl, [])[h.hlit..]
  }

  // ---------- Blocks and streams ----------

  // The code lengths of the fixed codes (section 3.2.6).
  function FixedLiterals(): (r: seq<nat>)
    ensures |r| == 288
  {
    Times(8, 144) + Times(9, 112) + Times(7, 24) + Times(8, 8)
  }

  function FixedDistances(): (r: seq<nat>)
    ensures |r| == 30
  {
    Times(5, 30)
  }

  datatype Block =
    | StoredBlock(pad: seq<bool>, data: seq<byte>)
    | FixedBlock(ts: seq<Token>)
    | DynamicBlock(h: Header, dts: seq<Token>)

  // p is where the block starts and out what it may refer back to.
  ghost predicate ValidBlock(b: Block, p: nat, out: seq<byte>) {
    match b
    case StoredBlock(pad, data) => |pad| < 8 && (p + 3 + |pad|) % 8 == 0 && |data| < 65536
    case FixedBlock(ts) => ValidTokens(ts, FixedLiterals(), FixedDistances()) && AllReachBack(ts, out)
    case DynamicBlock(h, ts) =>
      ValidHeader(h) && ValidTokens(ts, LitLengths(h), DistLengths(h)) && AllReachBack(ts, out)
  }

  function TypeOf(b: Block): nat {
    match b case StoredBlock(_, _) => 0 case FixedBlock(_) => 1 case DynamicBlock(_, _) => 2
  }

  function BodyBits(b: Block, p: nat, out: seq<byte>): seq<bool>
    requires ValidBlock(b, p, out)
  {
    match b
    case StoredBlock(pad, data) =>
      pad + (LowBits(|data|, 16) + (LowBits(65535 - |data|, 16) + ToBits(data)))
    case FixedBlock(ts) => TokensBits(ts, FixedLiterals(), FixedDistances())
    case DynamicBlock(h, ts) => HeaderBits(h) + TokensBits(ts, LitLengths(h), DistLengths(h))
  }

  function BlockBits(b: Block, final: bool, p: nat, out: seq<byte>): seq<bool>
    requires ValidBlock(b, p, out)
  {
    [final] + (LowBits(TypeOf(b), 2) + BodyBits(b, p, out))
  }

  function ApplyBlock(b: Block, p: nat, out: seq<byte>): (r: seq<byte>)
    requires ValidBlock(b, p, out)
    ensures |r| >= |out|
  {
    match b
    case StoredBlock(pad, data) => out + data
    case FixedBlock(ts) => ApplyAll(ts, out)
    case DynamicBlock(h, ts) => ApplyAll(ts, out)
  }

  ghost predicate ValidStream(blocks: seq<Block>, p: nat, out: seq<byte>) {
    && blocks != []
    && ValidBlock(blocks[0], p, out)
    && (|blocks| > 1 ==>
         ValidStream(blocks[1..], p + |BlockBits(blocks[0], false, p, out)|, ApplyBlock(blocks[0], p, out)))
  }

  // Only the last block is marked final.
  function StreamBits(blocks: seq<Block>, p: nat, out: seq<byte>): seq<bool>
    requires ValidStream(blocks, p, out)
  {
    hide ValidBlock, BlockBits, ApplyBlock;
    var b := blocks[0];
    if |blocks| == 1 then BlockBits(b, true, p, out)
    else
      var bits := BlockBits(b, false, p, out);
      bits + StreamBits(blocks[1..], p + |bits|, ApplyBlock(b, p, out))
  }

  // The bytes a stream stands for.
  function StreamBytes(blocks: seq<Block>, p: nat, out: seq<byte>): (r: seq<byte>)
    requires ValidStream(blocks, p, out)
    ensures |r| >= |out|
  {
    hide ValidBlock, BlockBits, ApplyBlock;
    var b := blocks[0];
    if |blocks| == 1 then ApplyBlock(b, p, out)
    else StreamBytes(blocks[1..], p + |BlockBits(b, false, p, out)|, ApplyBlock(b, p, out))
  }
}
