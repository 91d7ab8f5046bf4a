// PNG scanline filtering (section 6 of RFC 2083) and the loop that undoes it in place.
module PngFilter {
  import opened Bits

  function Abs(x: int): nat { if x < 0 then -x else x }

  // paeth_predict
  function Paeth(a: byte, b: byte, c: byte): byte {
    var p := a + b - c;
    var pa, pb, pc := Abs(p - a), Abs(p - b), Abs(p - c);
    if pa <= pb && pa <= pc then a else if pb <= pc then b else c
  }

  // Of the left, upper and upper-left neighbours, the predictor is the one nearest to
  // left + upper - upper-left; ties go to the first in that order (section 6.6).
  lemma PaethIsNearest(a: byte, b: byte, c: byte)
    ensures var p, r := a + b - c, Paeth(a, b, c);
            && r in [a, b, c]
            && (forall v :: v in [a, b, c] ==> Abs(p - r) <= Abs(p - v))
            && (r != a ==> Abs(p - r) < Abs(p - a))
            && (r == c && c != a && c != b ==> Abs(p - c) < Abs(p - b))
  {
    var r := Paeth(a, b, c);
    assert r == [a, b, c][0] || r == [a, b, c][1] || r == [a, b, c][2];
  }

  // The prediction of filter type f from the left, upper and upper-left neighbours.
  function Predict(f: nat, a: byte, b: byte, c: byte): byte
    requires f <= 4
  {
    match f
    case 0 => 0
    case 1 => a
    case 2 => b
    case 3 => (a + b) / 2
    case _ => Paeth(a, b, c)
  }

  // The five predictors of section 6: none, left, up, the average rounded down, and the nearest neighbour.
  lemma PredictorsAre(f: nat, a: byte, b: byte, c: byte)
    requires f <= 4
    ensures var p, r := a + b - c, Predict(f, a, b, c);
            && (f == 0 ==> r == 0) && (f == 1 ==> r == a) && (f == 2 ==> r == b)
            && (f == 3 ==> 2 * r <= a + b <= 2 * r + 1)
            && (f == 4 ==> r in [a, b, c] && forall v :: v in [a, b, c] ==> Abs(p - r) <= Abs(p - v))
  {
    PaethIsNearest(a, b, c);
  }

  // The byte bpp places to the left, 0 outside the row.
  function Left(row: seq<byte>, x: nat, bpp: nat): byte
    requires x - bpp < |row| && bpp > 0
  {
    if x >= bpp then row[x - bpp] else 0
  }

  // What the encoder stores for a row (section 6: differences modulo 256).
  function FilterRow(f: nat, row: seq<byte>, prev: seq<byte>, bpp: nat): (r: seq<byte>)
    requires f <= 4 && |prev| == |row| && bpp > 0
    ensures |r| == |row|
  {
    seq(|row|, x requires 0 <= x < |row| =>
      (row[x] - Predict(f, Left(row, x, bpp), prev[x], Left(prev, x, bpp))) % 256)
  }

  // The first n bytes of the row that filtered bytes stand for, left to right.
  function UnfilterRow(f: nat, cur: seq<byte>, prev: seq<byte>, bpp: nat, n: nat): (r: seq<byte>)
    requires f <= 4 && |prev| == |cur| && bpp > 0 && n <= |cur|
    ensures |r| == n
  {
    if n == 0 then []
    else
      var r := UnfilterRow(f, cur, prev, bpp, n - 1);
      r + [(cur[n - 1] + Predict(f, Left(r, n - 1, bpp), prev[n - 1], Left(prev, n - 1, bpp))) % 256]
  }

  lemma {:induction false} UnfilterInvertsFilterRow(f: nat, row: seq<byte>, prev: seq<byte>, bpp: nat, n: nat)
    requires f <= 4 && |prev| == |row| && bpp > 0 && n <= |row|
    ensures UnfilterRow(f, FilterRow(f, row, prev, bpp), prev, bpp, n) == row[..n]
  {
    hide Predict;
    if n > 0 {
      UnfilterInvertsFilterRow(f, row, prev, bpp, n - 1);
      var p := Predict(f, Left(row, n - 1, bpp), prev[n - 1], Left(prev, n - 1, bpp));
      assert row[..n - 1] + [row[n - 1]] == row[..n];
      var v: int, d: int := row[n - 1], p;
      assert ((v - d) % 256 + d) % 256 == v;
    }
  }

  // A filtered image: per row a filter type byte and the filtered bytes.  `above` is the row
  // above, all zeros for the first.
  function FilterImage(rows: seq<seq<byte>>, filters: seq<nat>, above: seq<byte>, bpp: nat): (r: seq<byte>)
    requires Rows(rows, |above|) && Filters(filters) && |filters| == |rows| && bpp > 0
    ensures |r| == |rows| * (1 + |above|)
    decreases |rows|
  {
    if rows == [] then []
    else [filters[0]] + FilterRow(filters[0], rows[0], above, bpp) + FilterImage(rows[1..], filters[1..], rows[0], bpp)
  }

  // The same layout with the original bytes.
  function PlainImage(rows: seq<seq<byte>>, filters: seq<nat>, width: nat): (r: seq<byte>)
    requires Rows(rows, width) && Filters(filters) && |filters| == |rows|
    ensures |r| == |rows| * (1 + width)
  {
    if rows == [] then [] else [filters[0]] + rows[0] + PlainImage(rows[1..], filters[1..], width)
  }

  predicate Rows(rows: seq<seq<byte>>, width: nat) { forall y :: 0 <= y < |rows| ==> |rows[y]| == width }

  predicate Filters(filters: seq<nat>) { forall y :: 0 <= y < |filters| ==> filters[y] <= 4 }

  function Zeros(n: nat): (r: seq<byte>)
    ensures |r| == n
  {
    seq(n, _ => 0)
  }

  // What un-filtering a buffer of h rows of `width` bytes leaves in it; None when a row has a
  // filter type above 4.
  datatype Option<+T> = None | Some(value: T)

  function Unfilter(raw: seq<byte>, h: nat, above: seq<byte>, bpp: nat): (r: Option<seq<byte>>)
    requires |raw| == h * (1 + |above|) && bpp > 0
    ensures r.Some? ==> |r.value| == |raw|
    decreases h
  {
    if h == 0 then Some([])
    else
      var w := |above|;
      RowFits(h, w);
      var cur, rest := raw[1..1 + w], raw[1 + w..];
      if raw[0] > 4 then None
      else
        var row := UnfilterRow(raw[0], cur, above, bpp, w);
        var below := Unfilter(rest, h - 1, row, bpp);
        if below.None? then None else Some([raw[0]] + row + below.value)
  }

  lemma RowFits(h: nat, w: nat)
    requires h > 0
    ensures h * (1 + w) == (1 + w) + (h - 1) * (1 + w)
    ensures h * (1 + w) >= 1 + w
  {
  }

  // Un-filtering inverts filtering, for every image, pixel size and choice of filters.
  lemma {:induction false} UnfilterInvertsFilter(rows: seq<seq<byte>>, filters: seq<nat>, above: seq<byte>, bpp: nat)
    requires Rows(rows, |above|) && Filters(filters) && |filters| == |rows| && bpp > 0
    ensures Unfilter(FilterImage(rows, filters, above, bpp), |rows|, above, bpp) ==
            Some(PlainImage(rows, filters, |above|))
    decreases |rows|
  {
    hide FilterRow, UnfilterRow;
    if rows != [] {
      var w, f, row := |above|, filters[0], rows[0];
      var raw := FilterImage(rows, filters, above, bpp);
      var cur, rest := FilterRow(f, row, above, bpp), FilterImage(rows[1..], filters[1..], row, bpp);
      RowFits(|rows|, w);
      assert raw == [f] + cur + rest;
      assert raw[1..1 + w] == cur && raw[1 + w..] == rest;
      UnfilterInvertsFilterRow(f, row, above, bpp, w);
      assert row[..w] == row;
      UnfilterInvertsFilter(rows[1..], filters[1..], row, bpp);
    }
  }

  // ---------- The loop ----------

  // b is `was` with the x bytes from position s + 1 on replaced by r.
  ghost predicate RowState(b: seq<byte>, was: seq<byte>, s: nat, x: nat, r: seq<byte>) {
    && |b| == |was| && |r| == x && s + 1 + x <= |b|
    && forall i :: 0 <= i < |b| ==> b[i] == if s < i <= s + x then r[i - s - 1] else was[i]
  }

  // One row at position s, whose upper neighbour row (if any) is already restored.
  method UnfilterRowInPlace(raw: array<byte>, s: nat, w: nat, bpp: nat, first: bool, ghost above: seq<byte>)
    returns (ok: bool)
    requires s + 1 + w <= raw.Length && bpp > 0 && w > 0
    requires |above| == w && (if first then above == Zeros(w) else s >= 1 + w && raw[s - w..s] == above)
    modifies raw
    ensures ok <==> old(raw[s]) <= 4
    ensures ok ==> RowState(raw[..], old(raw[..]), s, w,
              UnfilterRow(old(raw[s]), old(raw[s + 1..s + 1 + w]), above, bpp, w))
  {
    hide Predict, Zeros, UnfilterRow, Left;
    var f := raw[s];
    ghost var was, cur, r: seq<byte> := raw[..], raw[s + 1..s + 1 + w], [];
    UnfilterNone(f, cur, above, bpp);
    var x := 0;
    while x < w
      invariant x <= w && raw[s] == f && (x > 0 ==> f <= 4)
      invariant RowState(raw[..], was, s, x, r)
      invariant f <= 4 ==> r == UnfilterRow(f, cur, above, bpp, x)
    {
      var a := if x >= bpp then raw[s + 1 + x - bpp] else 0;
      var b := if !first then raw[s - w + x] else 0;
      var c := if !first && x >= bpp then raw[s - w + x - bpp] else 0;
      if f > 4 { return false; }
      Neighbours(raw[..], was, s, w, bpp, x, first, above, r);
      UnfilterStep(f, cur, above, bpp, x);
      raw[s + 1 + x] := (raw[s + 1 + x] + Predict(f, a, b, c)) % 256;
      r := r + [raw[s + 1 + x]];
      x := x + 1;
    }
    return true;
  }

  lemma UnfilterNone(f: nat, cur: seq<byte>, prev: seq<byte>, bpp: nat)
    requires |prev| == |cur| && bpp > 0
    ensures f <= 4 ==> UnfilterRow(f, cur, prev, bpp, 0) == []
  {
  }

  lemma UnfilterStep(f: nat, cur: seq<byte>, prev: seq<byte>, bpp: nat, x: nat)
    requires f <= 4 && |prev| == |cur| && bpp > 0 && x < |cur|
    ensures var r := UnfilterRow(f, cur, prev, bpp, x);
            UnfilterRow(f, cur, prev, bpp, x + 1) ==
            r + [(cur[x] + Predict(f, Left(r, x, bpp), prev[x], Left(prev, x, bpp))) % 256]
  {
    hide Predict, Left;
  }

  lemma Neighbours(
    raw: seq<byte>, was: seq<byte>, s: nat, w: nat, bpp: nat, x: nat, first: bool, above: seq<byte>, r: seq<byte>)
    requires s + 1 + w <= |raw| && bpp > 0 && x < w && |above| == w
    requires RowState(raw, was, s, x, r)
    requires if first then above == Zeros(w) else s >= 1 + w && was[s - w..s] == above
    ensures Left(r, x, bpp) == if x >= bpp then raw[s + 1 + x - bpp] else 0
    ensures above[x] == if !first then raw[s - w + x] else 0
    ensures Left(above, x, bpp) == if !first && x >= bpp then raw[s - w + x - bpp] else 0
    ensures raw[s + 1 + x] == was[s + 1..s + 1 + w][x]
  {
  }

  lemma RowDone(b: seq<byte>, was: seq<byte>, s: nat, w: nat, r: seq<byte>)
    requires RowState(b, was, s, w, r)
    ensures b[..s + 1 + w] == was[..s] + ([was[s]] + r) && b[s + 1 + w..] == was[s + 1 + w..]
    ensures b[s + 1..s + 1 + w] == r
  {
  }

  // The whole image: h rows of w bytes, un-filtered where they stand.
  method UnfilterInPlace(raw: array<byte>, h: nat, w: nat, bpp: nat) returns (ok: bool)
    requires raw.Length == h * (1 + w) && w > 0 && bpp > 0
    modifies raw
    ensures ok <==> Unfilter(old(raw[..]), h, Zeros(w), bpp).Some?
    ensures ok ==> raw[..] == Unfilter(old(raw[..]), h, Zeros(w), bpp).value
  {
    hide UnfilterRow, Unfilter, RowState, ImageState;
    ghost var all, above, spec := raw[..], Zeros(w), Unfilter(raw[..], h, Zeros(w), bpp);
    ghost var done: seq<byte> := [];
    var s := 0;
    ImageStart(all, h, above, bpp);
    for y := 0 to h
      invariant |above| == w && s + (h - y) * (1 + w) == raw.Length
      invariant y == 0 ==> above == Zeros(w)
      invariant y > 0 ==> s >= 1 + w && raw[s - w..s] == above
      invariant ImageState(raw[..], all, s, h - y, above, done, spec, bpp)
    {
      RowFits(h - y, w);
      ghost var was := raw[..];
      ok := UnfilterRowInPlace(raw, s, w, bpp, y == 0, above);
      if !ok { ImageFails(was, all, s, h - y, above, done, spec, bpp); return; }
      ghost var row := UnfilterRow(was[s], was[s + 1..s + 1 + w], above, bpp, w);
      ImageStep(was, raw[..], all, s, h - y, above, done, spec, bpp, row);
      above, done := row, done + ([was[s]] + row);
      s := s + 1 + w;
    }
    ImageEnd(raw[..], all, s, above, done, spec, bpp);
    return true;
  }

  // The rows before position s are restored to `done`, n rows remain, and finishing them gives spec.
  ghost predicate ImageState(
    b: seq<byte>, all: seq<byte>, s: nat, n: nat, above: seq<byte>, done: seq<byte>, spec: Option<seq<byte>>, bpp: nat)
  {
    && bpp > 0 && |b| == |all| == s + n * (1 + |above|)
    && b[..s] == done && b[s..] == all[s..]
    && spec == Prepend(done, Unfilter(all[s..], n, above, bpp))
  }

  lemma ImageStart(all: seq<byte>, h: nat, above: seq<byte>, bpp: nat)
    requires |all| == h * (1 + |above|) && bpp > 0
    ensures ImageState(all, all, 0, h, above, [], Unfilter(all, h, above, bpp), bpp)
  {
    hide Unfilter, Prepend;
    assert all[0..] == all;
    PrependNothing(Unfilter(all, h, above, bpp));
  }

  lemma ImageFails(
    b: seq<byte>, all: seq<byte>, s: nat, n: nat, above: seq<byte>, done: seq<byte>, spec: Option<seq<byte>>, bpp: nat)
    requires ImageState(b, all, s, n, above, done, spec, bpp) && n > 0 && s < |b| && b[s] > 4
    ensures spec == None
  {
    hide Unfilter;
    assert b[s..][0] == all[s..][0];
    UnfilterRound(all[s..], n, above, bpp);
  }

  lemma ImageStep(
    was: seq<byte>, b: seq<byte>, all: seq<byte>, s: nat, n: nat, above: seq<byte>, done: seq<byte>,
    spec: Option<seq<byte>>, bpp: nat, row: seq<byte>)
    requires ImageState(was, all, s, n, above, done, spec, bpp) && n > 0 && s + 1 + |above| <= |was|
    requires was[s] <= 4 && row == UnfilterRow(was[s], was[s + 1..s + 1 + |above|], above, bpp, |above|)
    requires RowState(b, was, s, |above|, row)
    ensures ImageState(b, all, s + 1 + |above|, n - 1, row, done + ([was[s]] + row), spec, bpp)
    ensures b[s + 1..s + 1 + |above|] == row
  {
    hide Unfilter, UnfilterRow, RowState, Prepend;
    var w := |above|;
    RowAt(was, all, s, w);
    RowFits(n, w);
    UnfilterRound(all[s..], n, above, bpp);
    RowDone(b, was, s, w, row);
    RowStateSize(b, was, s, w, row);
    PrependMore(done, [was[s]] + row, Unfilter(all[s..][1 + w..], n - 1, row, bpp));
  }

  lemma RowStateSize(b: seq<byte>, was: seq<byte>, s: nat, x: nat, r: seq<byte>)
    requires RowState(b, was, s, x, r)
    ensures |b| == |was|
  {
  }

  lemma ImageEnd(
    b: seq<byte>, all: seq<byte>, s: nat, above: seq<byte>, done: seq<byte>, spec: Option<seq<byte>>, bpp: nat)
    requires ImageState(b, all, s, 0, above, done, spec, bpp)
    ensures spec == Some(b)
  {
    UnfilterEnd(all[s..], above, bpp);
    PrependSome(done, []);
    assert b == done + [];
  }

  lemma RowAt(b: seq<byte>, all: seq<byte>, s: nat, w: nat)
    requires s + 1 + w <= |b| == |all| && b[s..] == all[s..]
    ensures b[s] == all[s..][0] && b[s + 1..s + 1 + w] == all[s..][1..1 + w]
    ensures b[s + 1 + w..] == all[s + 1 + w..] == all[s..][1 + w..]
  {
    assert forall i :: s <= i < |b| ==> b[i] == b[s..][i - s] == all[i];
  }

  ghost function Prepend(done: seq<byte>, r: Option<seq<byte>>): Option<seq<byte>> {
    if r.None? then None else Some(done + r.value)
  }

  lemma PrependNothing(r: Option<seq<byte>>)
    ensures Prepend([], r) == r
  {
    if r.Some? { assert [] + r.value == r.value; }
  }

  lemma PrependSome(a: seq<byte>, b: seq<byte>)
    ensures Prepend(a, Some(b)) == Some(a + b)
  {
  }

  lemma PrependMore(a: seq<byte>, b: seq<byte>, r: Option<seq<byte>>)
    ensures Prepend(a, Prepend(b, r)) == Prepend(a + b, r)
  {
    if r.Some? { assert a + (b + r.value) == a + b + r.value; }
  }

  lemma UnfilterRound(raw: seq<byte>, h: nat, above: seq<byte>, bpp: nat)
    requires h > 0 && |raw| == h * (1 + |above|) && bpp > 0
    ensures (1 + |above|) + (h - 1) * (1 + |above|) == |raw|
    ensures raw[0] > 4 ==> Unfilter(raw, h, above, bpp) == None
    ensures raw[0] <= 4 ==>
              var row := UnfilterRow(raw[0], raw[1..1 + |above|], above, bpp, |above|);
              Unfilter(raw, h, above, bpp) ==
              Prepend([raw[0]] + row, Unfilter(raw[1 + |above|..], h - 1, row, bpp))
  {
    hide UnfilterRow;
    RowFits(h, |above|);
  }

  lemma UnfilterEnd(raw: seq<byte>, above: seq<byte>, bpp: nat)
    requires |raw| == 0 && bpp > 0
    ensures Unfilter(raw, 0, above, bpp) == Some([])
  {
  }
}
