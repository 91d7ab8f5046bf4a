// What a chain of clusters holds: a sequence of sectors, and the bytes in them.
module FatContent {
  import opened Bits
  import opened Counting
  import opened FatTable
  import opened Chains

  ghost predicate ClustersOk(g: Geometry, cs: seq<nat>) {
    g.Ok() && forall i :: 0 <= i < |cs| ==> g.InRange(cs[i])
  }

  // The sectors of a chain in order.
  ghost function Flat(g: Geometry, data: seq<Sector>, cs: seq<nat>): (f: seq<Sector>)
    requires ClustersOk(g, cs) && |data| == g.Clusters() * g.spc
    ensures |f| == |cs| * g.spc
  {
    seq(|cs| * g.spc, j requires 0 <= j < |cs| * g.spc =>
      FlatIndex(g, cs, j);
      data[g.DataIndex(cs[j / g.spc], j % g.spc)])
  }

  lemma FlatIndex(g: Geometry, cs: seq<nat>, j: nat)
    requires ClustersOk(g, cs) && j < |cs| * g.spc
    ensures j / g.spc < |cs| && j % g.spc < g.spc
    ensures g.DataIndex(cs[j / g.spc], j % g.spc) < g.Clusters() * g.spc
  {
    DivBelow(j, |cs|, g.spc);
    DataIndexFits(g, cs[j / g.spc], j % g.spc);
  }

  lemma DivBelow(j: nat, n: nat, d: nat)
    requires d > 0 && j < n * d
    ensures j / d < n
  {
    if j / d >= n { MulLe(n, j / d, d); }
  }

  // Sector s of the i-th cluster is sector i * spc + s of the chain.
  lemma FlatAt(g: Geometry, data: seq<Sector>, cs: seq<nat>, i: nat, s: nat)
    requires ClustersOk(g, cs) && |data| == g.Clusters() * g.spc && i < |cs| && s < g.spc
    ensures i * g.spc + s < |cs| * g.spc && g.DataIndex(cs[i], s) < |data|
    ensures Flat(g, data, cs)[i * g.spc + s] == data[g.DataIndex(cs[i], s)]
  {
    RowsApart(i, |cs|, g.spc);
    DataIndexFits(g, cs[i], s);
    DivModUnique(i * g.spc + s, g.spc, i, s);
  }

  // Every sector of the contents is a sector of one of the clusters.
  lemma FlatRead(g: Geometry, data: seq<Sector>, cs: seq<nat>, j: nat) returns (k: nat, t: nat)
    requires ClustersOk(g, cs) && |data| == g.Clusters() * g.spc && j < |cs| * g.spc
    ensures k < |cs| && t < g.spc && j == k * g.spc + t && g.DataIndex(cs[k], t) < |data|
    ensures Flat(g, data, cs)[j] == data[g.DataIndex(cs[k], t)]
  {
    FlatIndex(g, cs, j);
    k, t := j / g.spc, j % g.spc;
  }

  // Writing a sector of a chain writes the corresponding sector of its contents.
  lemma FlatWrite(g: Geometry, data: seq<Sector>, cs: seq<nat>, i: nat, s: nat, b: Sector)
    requires ClustersOk(g, cs) && |data| == g.Clusters() * g.spc && i < |cs| && s < g.spc && Distinct(cs)
    ensures i * g.spc + s < |cs| * g.spc && g.DataIndex(cs[i], s) < |data|
    ensures Flat(g, data[g.DataIndex(cs[i], s) := b], cs) == Flat(g, data, cs)[i * g.spc + s := b]
  {
    hide Flat;
    FlatAt(g, data, cs, i, s);
    var f' := Flat(g, data[g.DataIndex(cs[i], s) := b], cs);
    forall j: nat | j < |f'| ensures f'[j] == Flat(g, data, cs)[i * g.spc + s := b][j] {
      FlatWriteAt(g, data, cs, i, s, b, j);
    }
  }

  lemma FlatWriteAt(g: Geometry, data: seq<Sector>, cs: seq<nat>, i: nat, s: nat, b: Sector, j: nat)
    requires ClustersOk(g, cs) && |data| == g.Clusters() * g.spc && i < |cs| && s < g.spc && Distinct(cs)
    requires g.DataIndex(cs[i], s) < |data| && j < |cs| * g.spc
    ensures Flat(g, data[g.DataIndex(cs[i], s) := b], cs)[j] == if j == i * g.spc + s then b else Flat(g, data, cs)[j]
  {
    hide Flat;
    var k, t := FlatRead(g, data, cs, j);
    FlatAt(g, data[g.DataIndex(cs[i], s) := b], cs, k, t);
    FlatOther(g, cs, i, s, k, t, j);
  }

  lemma FlatOther(g: Geometry, cs: seq<nat>, i: nat, s: nat, k: nat, t: nat, j: nat)
    requires ClustersOk(g, cs) && Distinct(cs) && i < |cs| && s < g.spc && k < |cs| && t < g.spc && j == k * g.spc + t
    ensures g.DataIndex(cs[i], s) == g.DataIndex(cs[k], t) <==> j == i * g.spc + s
  {
    if i != k || s != t {
      DataIndexApart(g, cs[i], s, cs[k], t);
      if i < k { RowsApart(i, k, g.spc); }
      if k < i { RowsApart(k, i, g.spc); }
    }
  }

  // A longer chain holds the contents of both parts.
  lemma FlatAppend(g: Geometry, data: seq<Sector>, cs: seq<nat>, ds: seq<nat>)
    requires ClustersOk(g, cs) && ClustersOk(g, ds) && |data| == g.Clusters() * g.spc
    ensures ClustersOk(g, cs + ds) && Flat(g, data, cs + ds) == Flat(g, data, cs) + Flat(g, data, ds)
  {
    hide Flat;
    SumMul(|cs|, |ds|, g.spc);
    var a, b, e := Flat(g, data, cs), Flat(g, data, ds), Flat(g, data, cs + ds);
    forall j: nat | j < |e| ensures e[j] == (a + b)[j] {
      if j < |a| {
        var k, t := FlatRead(g, data, cs, j);
        FlatAt(g, data, cs + ds, k, t);
      } else {
        var k, t := FlatRead(g, data, ds, j - |a|);
        SumMul(|cs|, k, g.spc);
        FlatAt(g, data, cs + ds, |cs| + k, t);
      }
    }
  }

  lemma SumMul(a: nat, b: nat, n: nat)
    ensures (a + b) * n == a * n + b * n
  {
  }

  function ZeroSector(): Sector { seq(SECTOR, _ => 0) }

  function ZeroSectors(n: nat): (f: seq<Sector>)
    ensures |f| == n
  {
    seq(n, _ => ZeroSector())
  }

  // ---------- Bytes ----------

  // The bytes of a sequence of sectors.
  ghost function Contents(flat: seq<Sector>): (b: seq<byte>)
    ensures |b| == SECTOR * |flat|
  {
    seq(SECTOR * |flat|, o requires 0 <= o < SECTOR * |flat| => flat[o / SECTOR][o % SECTOR])
  }

  // b written over a from position p on.
  function Overwrite(a: seq<byte>, p: nat, b: seq<byte>): (r: seq<byte>)
    requires p + |b| <= |a|
    ensures |r| == |a|
  {
    a[..p] + b + a[p + |b|..]
  }

  lemma ContentsAt(flat: seq<Sector>, j: nat, o: nat)
    requires j < |flat| && o < SECTOR
    ensures Contents(flat)[SECTOR * j + o] == flat[j][o]
  {
    DivModUnique(SECTOR * j + o, SECTOR, j, o);
  }

  lemma ContentsSlice(flat: seq<Sector>, j: nat, o: nat, n: nat)
    requires j < |flat| && o + n <= SECTOR
    ensures Contents(flat)[SECTOR * j + o..SECTOR * j + o + n] == flat[j][o..o + n]
  {
    hide Contents;
    var a, b := Contents(flat)[SECTOR * j + o..SECTOR * j + o + n], flat[j][o..o + n];
    forall i: nat | i < n ensures a[i] == b[i] { ContentsAt(flat, j, o + i); }
  }

  lemma ContentsWrite(flat: seq<Sector>, j: nat, o: nat, b: seq<byte>)
    requires j < |flat| && o + |b| <= SECTOR
    ensures Contents(flat[j := Overwrite(flat[j], o, b)]) == Overwrite(Contents(flat), SECTOR * j + o, b)
  {
    hide Contents;
    var flat' := flat[j := Overwrite(flat[j], o, b)];
    var x, y := Contents(flat'), Overwrite(Contents(flat), SECTOR * j + o, b);
    forall p: nat | p < |x| ensures x[p] == y[p] {
      var k, q := p / SECTOR, p % SECTOR;
      ContentsAt(flat', k, q);
      ContentsAt(flat, k, q);
    }
  }

  lemma ContentsAppend(a: seq<Sector>, b: seq<Sector>)
    ensures Contents(a + b) == Contents(a) + Contents(b)
  {
    hide Contents;
    var x, y := Contents(a + b), Contents(a) + Contents(b);
    forall p: nat | p < |x| ensures x[p] == y[p] {
      var k, q := p / SECTOR, p % SECTOR;
      ContentsAt(a + b, k, q);
      if k < |a| { ContentsAt(a, k, q); } else { ContentsAt(b, k - |a|, q); }
    }
  }

  function Zeros(n: nat): (r: seq<byte>)
    ensures |r| == n
  {
    seq(n, _ => 0)
  }

  lemma ContentsZero(n: nat)
    ensures Contents(ZeroSectors(n)) == Zeros(SECTOR * n)
  {
    var x := Contents(ZeroSectors(n));
    forall p: nat | p < |x| ensures x[p] == 0 {
      assert ZeroSectors(n)[p / SECTOR] == ZeroSector();
    }
  }

  // ---------- The bytes of a chain ----------

  ghost function Bytes(g: Geometry, data: seq<Sector>, cs: seq<nat>): (b: seq<byte>)
    requires ClustersOk(g, cs) && |data| == g.Clusters() * g.spc
    ensures |b| == SECTOR * (|cs| * g.spc)
  {
    Contents(Flat(g, data, cs))
  }

  lemma BytesAppend(g: Geometry, data: seq<Sector>, cs: seq<nat>, ds: seq<nat>)
    requires ClustersOk(g, cs) && ClustersOk(g, ds) && |data| == g.Clusters() * g.spc
    ensures ClustersOk(g, cs + ds) && Bytes(g, data, cs + ds) == Bytes(g, data, cs) + Bytes(g, data, ds)
  {
    hide Flat, Contents;
    FlatAppend(g, data, cs, ds);
    ContentsAppend(Flat(g, data, cs), Flat(g, data, ds));
  }

  // A chain's bytes around those of its i-th cluster.
  lemma Around(g: Geometry, data: seq<Sector>, cs: seq<nat>, i: nat)
    requires ClustersOk(g, cs) && |data| == g.Clusters() * g.spc && i < |cs|
    ensures ClustersOk(g, cs[..i]) && ClustersOk(g, [cs[i]]) && ClustersOk(g, cs[i + 1..])
    ensures Bytes(g, data, cs) == Bytes(g, data, cs[..i]) + Bytes(g, data, [cs[i]]) + Bytes(g, data, cs[i + 1..])
  {
    hide Bytes;
    var a, b, c := cs[..i], [cs[i]], cs[i + 1..];
    BytesAppend(g, data, a, b);
    BytesAppend(g, data, a + b, c);
    assert cs == a + b + c;
  }

  // Only clusters in cs may differ.
  ghost predicate SameOutside(g: Geometry, data: seq<Sector>, data': seq<Sector>, cs: seq<nat>) {
    && g.Ok() && |data| == |data'| == g.Clusters() * g.spc
    && forall c: nat, s: nat :: g.InRange(c) && s < g.spc && c !in cs && g.DataIndex(c, s) < |data| ==>
         data'[g.DataIndex(c, s)] == data[g.DataIndex(c, s)]
  }

  lemma SameOutsideAt(g: Geometry, data: seq<Sector>, c: nat, s: nat, b: Sector)
    requires g.Ok() && |data| == g.Clusters() * g.spc && g.InRange(c) && s < g.spc && g.DataIndex(c, s) < |data|
    ensures SameOutside(g, data, data[g.DataIndex(c, s) := b], [c])
  {
    forall d: nat, t: nat | g.InRange(d) && t < g.spc && d !in [c] ensures g.DataIndex(d, t) != g.DataIndex(c, s) {
      DataIndexApart(g, c, s, d, t);
    }
  }

  lemma SameOutsideTrans(g: Geometry, a: seq<Sector>, b: seq<Sector>, c: seq<Sector>, cs: seq<nat>, ds: seq<nat>,
                         es: seq<nat>)
    requires SameOutside(g, a, b, cs) && SameOutside(g, b, c, ds)
    requires forall x :: x in cs || x in ds ==> x in es
    ensures SameOutside(g, a, c, es)
  {
  }

  lemma SameOutsideRefl(g: Geometry, a: seq<Sector>, cs: seq<nat>)
    requires g.Ok() && |a| == g.Clusters() * g.spc
    ensures SameOutside(g, a, a, cs)
  {
  }

  // A chain that shares no cluster with the changed ones keeps its bytes.
  lemma BytesFrame(g: Geometry, data: seq<Sector>, data': seq<Sector>, cs: seq<nat>, ds: seq<nat>)
    requires SameOutside(g, data, data', cs) && ClustersOk(g, ds) && forall d :: d in ds ==> d !in cs
    ensures Bytes(g, data', ds) == Bytes(g, data, ds)
  {
    hide Flat, Contents, SameOutside;
    SameSizes(g, data, data', cs);
    var f, f' := Flat(g, data, ds), Flat(g, data', ds);
    forall j: nat | j < |f| ensures f'[j] == f[j] {
      var k, t := FlatRead(g, data, ds, j);
      FlatAt(g, data', ds, k, t);
      SameOutsideUse(g, data, data', cs, ds[k], t);
    }
    assert f == f';
  }

  lemma SameSizes(g: Geometry, data: seq<Sector>, data': seq<Sector>, cs: seq<nat>)
    requires SameOutside(g, data, data', cs)
    ensures g.Ok() && |data| == |data'| == g.Clusters() * g.spc
  {
  }

  lemma SameOutsideUse(g: Geometry, data: seq<Sector>, data': seq<Sector>, cs: seq<nat>, c: nat, s: nat)
    requires SameOutside(g, data, data', cs) && g.InRange(c) && c !in cs && s < g.spc && g.DataIndex(c, s) < |data|
    ensures g.DataIndex(c, s) < |data'| && data'[g.DataIndex(c, s)] == data[g.DataIndex(c, s)]
  {
  }

  // ---------- One cluster ----------

  // Reading part of a sector reads that part of its cluster.
  lemma ClusterRead(g: Geometry, data: seq<Sector>, c: nat, s: nat, o: nat, n: nat)
    requires g.Ok() && g.InRange(c) && |data| == g.Clusters() * g.spc && s < g.spc && o + n <= SECTOR
    ensures ClustersOk(g, [c]) && g.DataIndex(c, s) < |data|
    ensures SECTOR * s + o + n <= |Bytes(g, data, [c])|
    ensures Bytes(g, data, [c])[SECTOR * s + o..SECTOR * s + o + n] == data[g.DataIndex(c, s)][o..o + n]
  {
    hide Flat, Contents;
    FlatAt(g, data, [c], 0, s);
    ContentsSlice(Flat(g, data, [c]), s, o, n);
  }

  // Rewriting part of a sector rewrites that part of its cluster and no other.
  lemma ClusterWrite(g: Geometry, data: seq<Sector>, c: nat, s: nat, o: nat, b: seq<byte>)
    requires g.Ok() && g.InRange(c) && |data| == g.Clusters() * g.spc && s < g.spc && o + |b| <= SECTOR
    ensures ClustersOk(g, [c]) && g.DataIndex(c, s) < |data|
    ensures SECTOR * s + o + |b| <= |Bytes(g, data, [c])|
    ensures var data' := data[g.DataIndex(c, s) := Overwrite(data[g.DataIndex(c, s)], o, b)];
            && SameOutside(g, data, data', [c])
            && Bytes(g, data', [c]) == Overwrite(Bytes(g, data, [c]), SECTOR * s + o, b)
  {
    hide Flat, Contents, SameOutside;
    FlatAt(g, data, [c], 0, s);
    var b' := Overwrite(data[g.DataIndex(c, s)], o, b);
    FlatWrite(g, data, [c], 0, s, b');
    ContentsWrite(Flat(g, data, [c]), s, o, b);
    SameOutsideAt(g, data, c, s, b');
  }

  // What rewriting part of the i-th cluster does to the whole chain.
  lemma ChainWrite(g: Geometry, data: seq<Sector>, data': seq<Sector>, cs: seq<nat>, i: nat, o: nat, b: seq<byte>)
    requires ClustersOk(g, cs) && Distinct(cs) && i < |cs| && SameOutside(g, data, data', [cs[i]])
    requires ClustersOk(g, [cs[i]]) && o + |b| <= |Bytes(g, data, [cs[i]])|
    requires Bytes(g, data', [cs[i]]) == Overwrite(Bytes(g, data, [cs[i]]), o, b)
    ensures SECTOR * (i * g.spc) + o + |b| <= |Bytes(g, data, cs)|
    ensures Bytes(g, data', cs) == Overwrite(Bytes(g, data, cs), SECTOR * (i * g.spc) + o, b)
  {
    hide Bytes, SameOutside;
    SameSizes(g, data, data', [cs[i]]);
    Around(g, data, cs, i);
    Around(g, data', cs, i);
    BytesFrame(g, data, data', [cs[i]], cs[..i]);
    BytesFrame(g, data, data', [cs[i]], cs[i + 1..]);
    OverwriteInside(Bytes(g, data, cs[..i]), Bytes(g, data, [cs[i]]), Bytes(g, data, cs[i + 1..]), o, b);
  }

  lemma OverwriteInside(p: seq<byte>, k: seq<byte>, s: seq<byte>, o: nat, b: seq<byte>)
    requires o + |b| <= |k|
    ensures p + Overwrite(k, o, b) + s == Overwrite(p + k + s, |p| + o, b)
  {
  }

  // Two writes in a row, the second where the first ends.
  lemma OverwriteMore(a: seq<byte>, p: nat, b: seq<byte>, i: nat, j: nat, k: nat)
    requires i <= j <= k <= |b| && p + (k - i) <= |a|
    ensures Overwrite(Overwrite(a, p, b[i..j]), p + (j - i), b[j..k]) == Overwrite(a, p, b[i..k])
  {
  }

  lemma OverwriteNothing(a: seq<byte>, p: nat)
    requires p <= |a|
    ensures Overwrite(a, p, []) == a
  {
  }

  // Reading part of the i-th cluster reads that part of the chain.
  lemma ChainRead(g: Geometry, data: seq<Sector>, cs: seq<nat>, i: nat, o: nat, n: nat)
    requires ClustersOk(g, cs) && |data| == g.Clusters() * g.spc && i < |cs| && o + n <= SECTOR * g.spc
    ensures ClustersOk(g, [cs[i]]) && |Bytes(g, data, [cs[i]])| == SECTOR * g.spc
    ensures SECTOR * (i * g.spc) + o + n <= |Bytes(g, data, cs)|
    ensures var p := SECTOR * (i * g.spc) + o;
            Bytes(g, data, cs)[p..p + n] == Bytes(g, data, [cs[i]])[o..o + n]
  {
    hide Bytes;
    Around(g, data, cs, i);
    SliceInside(Bytes(g, data, cs[..i]), Bytes(g, data, [cs[i]]), Bytes(g, data, cs[i + 1..]), o, n);
  }

  lemma SliceInside(p: seq<byte>, k: seq<byte>, s: seq<byte>, o: nat, n: nat)
    requires o + n <= |k|
    ensures (p + k + s)[|p| + o..|p| + o + n] == k[o..o + n]
  {
  }
}
