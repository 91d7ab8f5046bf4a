// Reading and writing the data of a file: walking its chain, growing it, and the bytes that
// end up in the caller's buffer or on the disk.
module FatFile {
  import opened Bits
  import opened FatTable
  import opened Chains
  import opened Volumes
  import opened FatContent

  function Min(a: int, b: int): int { if a < b then a else b }

  function ClusterSize(g: Geometry): nat { SECTOR * g.spc }

  // ---------- One cluster ----------

  // fat32_zero_cluster
  method ZeroCluster(v: Volume, c: nat)
    requires v.Valid() && v.g.InRange(c)
    modifies v.disk
    ensures v.Valid() && v.Fat() == old(v.Fat())
    ensures SameOutside(v.g, old(v.Data()), v.Data(), [c])
    ensures ClustersOk(v.g, [c]) && Bytes(v.g, v.Data(), [c]) == Zeros(ClusterSize(v.g))
  {
    hide FatOf, DataOf, Mirrored, Flat, SameOutside, Contents;
    ghost var g, was := v.g, v.Data();
    var s := 0;
    SameOutsideRefl(g, was, [c]);
    while s < v.g.spc
      invariant v.Valid() && v.Fat() == old(v.Fat()) && s <= g.spc
      invariant SameOutside(g, was, v.Data(), [c])
      invariant FirstZero(g, v.Data(), c, s)
    {
      ghost var before := v.Data();
      v.WriteSector(c, s, ZeroSector());
      SameOutsideAt(g, before, c, s, ZeroSector());
      SameOutsideTrans(g, was, before, v.Data(), [c], [c], [c]);
      NextZero(g, before, c, s);
      s := s + 1;
    }
    AllZero(g, v.Data(), c);
  }

  // The first n sectors of the cluster are zero.
  ghost predicate FirstZero(g: Geometry, data: seq<Sector>, c: nat, n: nat) {
    && g.Ok() && |data| == g.Clusters() * g.spc && g.InRange(c) && n <= g.spc
    && forall s: nat :: s < n && g.DataIndex(c, s) < |data| ==> data[g.DataIndex(c, s)] == ZeroSector()
  }

  lemma NextZero(g: Geometry, data: seq<Sector>, c: nat, n: nat)
    requires FirstZero(g, data, c, n) && n < g.spc && g.DataIndex(c, n) < |data|
    ensures FirstZero(g, data[g.DataIndex(c, n) := ZeroSector()], c, n + 1)
  {
  }

  lemma AllZero(g: Geometry, data: seq<Sector>, c: nat)
    requires FirstZero(g, data, c, g.spc)
    ensures ClustersOk(g, [c]) && Bytes(g, data, [c]) == Zeros(ClusterSize(g))
  {
    hide Flat, Contents, FirstZero;
    ZeroSizes(g, data, c);
    var f := Flat(g, data, [c]);
    forall j: nat | j < |f| ensures f[j] == ZeroSector() {
      var k, t := FlatRead(g, data, [c], j);
      ZeroAt(g, data, c, t);
    }
    assert f == ZeroSectors(g.spc);
    ContentsZero(g.spc);
  }

  lemma ZeroSizes(g: Geometry, data: seq<Sector>, c: nat)
    requires FirstZero(g, data, c, g.spc)
    ensures g.Ok() && |data| == g.Clusters() * g.spc && g.InRange(c)
  {
  }

  lemma ZeroAt(g: Geometry, data: seq<Sector>, c: nat, s: nat)
    requires FirstZero(g, data, c, g.spc) && s < g.spc && g.DataIndex(c, s) < |data|
    ensures data[g.DataIndex(c, s)] == ZeroSector()
  {
  }

  // The bytes of a sector with some of the caller's bytes copied in, one at a time.
  method Patch(s: Sector, off: nat, buf: seq<byte>, from: nat, n: nat) returns (r: Sector)
    requires off + n <= SECTOR && from + n <= |buf|
    ensures r == Overwrite(s, off, buf[from..from + n])
  {
    var a := new byte[SECTOR](i requires 0 <= i < SECTOR => s[i]);
    var i := 0;
    while i < n
      invariant i <= n
      invariant forall k :: 0 <= k < SECTOR ==> a[k] == if off <= k < off + i then buf[from + (k - off)] else s[k]
    {
      a[off + i] := buf[from + i];
      i := i + 1;
    }
    r := a[..];
  }

  // Part of one sector is rewritten: read it, copy the caller's bytes in, write it back.
  method WritePart(v: Volume, c: nat, sec: nat, o: nat, buf: seq<byte>, w: nat) returns (n: nat)
    requires v.Valid() && v.g.InRange(c) && sec < v.g.spc && o < SECTOR && w < |buf|
    modifies v.disk
    ensures v.Valid() && v.Fat() == old(v.Fat())
    ensures SameOutside(v.g, old(v.Data()), v.Data(), [c]) && ClustersOk(v.g, [c])
    ensures n == Min(SECTOR - o, |buf| - w) && SECTOR * sec + o + n <= |Bytes(v.g, v.Data(), [c])|
    ensures Bytes(v.g, v.Data(), [c]) == Overwrite(Bytes(v.g, old(v.Data()), [c]), SECTOR * sec + o, buf[w..w + n])
  {
    hide FatOf, DataOf, Mirrored, Bytes, SameOutside;
    var s := v.ReadSector(c, sec);
    n := Min(SECTOR - o, |buf| - w);
    var s' := Patch(s, o, buf, w, n);
    ghost var before := v.Data();
    v.WriteSector(c, sec, s');
    ClusterWrite(v.g, before, c, sec, o, buf[w..w + n]);
  }

  // The inner loop of fat32_file_write: what fits from off to the end of the cluster is written.
  method WriteCluster(v: Volume, c: nat, off: nat, buf: seq<byte>, written: nat) returns (w: nat)
    requires v.Valid() && v.g.InRange(c) && off < ClusterSize(v.g) && written < |buf|
    modifies v.disk
    ensures v.Valid() && v.Fat() == old(v.Fat())
    ensures SameOutside(v.g, old(v.Data()), v.Data(), [c]) && ClustersOk(v.g, [c])
    ensures written < w <= |buf| && w - written <= ClusterSize(v.g) - off
    ensures w < |buf| ==> w - written == ClusterSize(v.g) - off
    ensures off + (w - written) <= |Bytes(v.g, v.Data(), [c])|
    ensures Bytes(v.g, v.Data(), [c]) == Overwrite(Bytes(v.g, old(v.Data()), [c]), off, buf[written..w])
  {
    hide FatOf, DataOf, Mirrored, Bytes, SameOutside, Overwrite;
    ghost var g, was, size := v.g, v.Data(), ClusterSize(v.g);
    var sec: nat, o: nat := 0, off;
    w := written;
    SameOutsideRefl(g, was, [c]);
    assert buf[written..w] == [];
    OverwriteNothing(Bytes(g, was, [c]), off);
    while sec < v.g.spc && w < |buf|
      invariant v.Valid() && v.Fat() == old(v.Fat()) && SameOutside(g, was, v.Data(), [c])
      invariant sec <= g.spc && written <= w <= |buf| && off + (w - written) <= size
      invariant w < |buf| ==> SECTOR * sec + o == off + (w - written) && (o == 0 || SECTOR * sec + o < size)
      invariant Bytes(g, v.Data(), [c]) == Overwrite(Bytes(g, was, [c]), off, buf[written..w])
    {
      if o >= SECTOR {
        o := o - SECTOR;
      } else {
        ghost var before := v.Data();
        var n := WritePart(v, c, sec, o, buf, w);
        SameOutsideTrans(g, was, before, v.Data(), [c], [c], [c]);
        OverwriteMore(Bytes(g, was, [c]), off, buf, written, w, w + n);
        w := w + n;
        o := 0;
      }
      sec := sec + 1;
    }
  }

  // Bytes of a sector copied to the caller's buffer, one at a time.
  method CopyOut(s: Sector, o: nat, n: nat, buffer: array<byte>, at: nat)
    requires o + n <= SECTOR && at + n <= buffer.Length
    modifies buffer
    ensures buffer[..] == Overwrite(old(buffer[..]), at, s[o..o + n])
  {
    ghost var was := buffer[..];
    var i := 0;
    while i < n
      invariant i <= n
      invariant forall k :: 0 <= k < buffer.Length ==> buffer[k] == if at <= k < at + i then s[o + (k - at)] else was[k]
    {
      buffer[at + i] := s[o + i];
      i := i + 1;
    }
  }

  // The inner loop of fat32_file_read: what is wanted from off to the end of the cluster is copied.
  method ReadCluster(v: Volume, c: nat, off: nat, buffer: array<byte>, got: nat, want: nat) returns (r: nat)
    requires v.Valid() && v.g.InRange(c) && off < ClusterSize(v.g) && got < want <= buffer.Length
    modifies buffer
    ensures v.Valid() && v.Fat() == old(v.Fat()) && v.Data() == old(v.Data())
    ensures got < r <= want && r - got <= ClusterSize(v.g) - off && (r < want ==> r - got == ClusterSize(v.g) - off)
    ensures ClustersOk(v.g, [c])
    ensures off + (r - got) <= |Bytes(v.g, v.Data(), [c])|
    ensures buffer[..] == Overwrite(old(buffer[..]), got, Bytes(v.g, v.Data(), [c])[off..off + (r - got)])
  {
    hide FatOf, DataOf, Mirrored, Bytes, Overwrite;
    ghost var g, data, size, was := v.g, v.Data(), ClusterSize(v.g), buffer[..];
    ghost var all := Bytes(g, data, [c]);
    var sec: nat, o: nat := 0, off;
    r := got;
    assert all[off..off + (r - got)] == [];
    OverwriteNothing(was, got);
    while sec < v.g.spc && r < want
      invariant v.Valid() && v.Fat() == old(v.Fat()) && v.Data() == data
      invariant sec <= g.spc && got <= r <= want && off + (r - got) <= size
      invariant r < want ==> SECTOR * sec + o == off + (r - got) && (o == 0 || SECTOR * sec + o < size)
      invariant buffer[..] == Overwrite(was, got, all[off..off + (r - got)])
    {
      if o >= SECTOR {
        o := o - SECTOR;
      } else {
        var s := v.ReadSector(c, sec);
        var n: nat := Min(SECTOR - o, want - r);
        CopyOut(s, o, n, buffer, r);
        ClusterRead(g, data, c, sec, o, n);
        OverwriteMore(was, got, all[off..], 0, r - got, r - got + n);
        assert all[off..][0..r - got] == all[off..off + (r - got)];
        assert all[off..][r - got..r - got + n] == all[SECTOR * sec + o..SECTOR * sec + o + n];
        assert all[off..][0..r - got + n] == all[off..off + (r - got + n)];
        r := r + n;
        o := 0;
      }
      sec := sec + 1;
    }
  }

  // ---------- Reading a file ----------

  // cs is the chain of a file of size bytes that starts at cluster first; a file that has no
  // cluster yet is empty.
  ghost predicate FileOk(g: Geometry, fat: seq<nat>, first: nat, size: nat, cs: seq<nat>) {
    && g.Ok() && |fat| == g.Clusters() + 2 && size <= SECTOR * (|cs| * g.spc)
    && if cs == [] then first < 2 else IsChain(fat, cs) && cs[0] == first
  }

  lemma FileClusters(g: Geometry, fat: seq<nat>, first: nat, size: nat, cs: seq<nat>)
    requires FileOk(g, fat, first, size, cs)
    ensures ClustersOk(g, cs) && size <= SECTOR * (|cs| * g.spc) && |cs| <= g.Clusters()
    ensures size > 0 ==> IsChain(fat, cs) && cs[0] == first
  {
    if cs == [] { assert |cs| * g.spc == 0; } else { ChainLength(fat, cs); }
  }

  // The bytes of the file.
  ghost function FileBytes(g: Geometry, data: seq<Sector>, cs: seq<nat>, size: nat): (b: seq<byte>)
    requires ClustersOk(g, cs) && |data| == g.Clusters() * g.spc && size <= SECTOR * (|cs| * g.spc)
    ensures |b| == size
  {
    Bytes(g, data, cs)[..size]
  }

  // What a request for size bytes at an offset can get.
  function Window(b: seq<byte>, offset: nat, size: nat): (w: seq<byte>) {
    if offset >= |b| then [] else b[offset..offset + Min(size, |b| - offset)]
  }

  lemma WindowOf(b: seq<byte>, fsize: nat, offset: nat, size: nat)
    requires fsize <= |b|
    ensures offset >= fsize ==> Window(b[..fsize], offset, size) == []
    ensures offset < fsize ==> Window(b[..fsize], offset, size) == b[offset..offset + Min(fsize - offset, size)]
  {
  }

  // Which cluster of a chain an offset is in, and where in it.
  function ClusterIndex(g: Geometry, offset: nat): nat
    requires g.spc > 0
  {
    offset / ClusterSize(g)
  }

  function ClusterOffset(g: Geometry, offset: nat): nat
    requires g.spc > 0
  {
    offset % ClusterSize(g)
  }

  lemma Position(g: Geometry, offset: nat)
    requires g.spc > 0
    ensures ClusterOffset(g, offset) < ClusterSize(g)
    ensures offset == SECTOR * (ClusterIndex(g, offset) * g.spc) + ClusterOffset(g, offset)
  {
    Regroup(ClusterIndex(g, offset), g.spc);
  }

  lemma Regroup(k: nat, n: nat)
    ensures k * (SECTOR * n) == SECTOR * (k * n)
  {
  }

  lemma InChain(k: nat, n: nat, len: nat, p: nat)
    requires SECTOR * (k * n) + p < SECTOR * (len * n)
    ensures k < len
  {
    if k >= len { MulLe(len, k, n); }
  }

  lemma NextRow(i: nat, n: nat)
    ensures (i + 1) * n == i * n + n
  {
  }

  // One step along a chain.
  lemma FollowChain(fat: seq<nat>, cs: seq<nat>, i: nat)
    requires IsChain(fat, cs) && i < |cs|
    ensures 2 <= cs[i] < |fat|
    ensures i + 1 == |cs| ==> IsEnd(fat[cs[i]])
    ensures i + 1 < |cs| ==> fat[cs[i]] == cs[i + 1] < |fat|
  {
    if i + 1 < |cs| { assert fat[cs[i]] == cs[i + 1]; }
  }

  // The navigation loop of fat32_file_read.
  method Skip(v: Volume, first: nat, k: nat, ghost cs: seq<nat>) returns (c: nat)
    requires v.Valid() && IsChain(v.Fat(), cs) && cs[0] == first && k < |cs|
    ensures c == cs[k]
  {
    hide FatOf, DataOf, Mirrored, IsChain;
    c := first;
    var i := 0;
    while i < k
      invariant 0 <= i <= k && c == cs[i]
    {
      FollowChain(v.Fat(), cs, i);
      FollowChain(v.Fat(), cs, i + 1);
      if c >= END_OF_CHAIN { assert false; }
      c := v.ReadEntry(c);
      i := i + 1;
    }
  }

  // Byte p of the chain is byte off of cluster c, the i-th one.
  ghost predicate At(g: Geometry, cs: seq<nat>, i: nat, off: nat, p: nat, c: nat) {
    i < |cs| && c == cs[i] && off < ClusterSize(g) && SECTOR * (i * g.spc) + off == p
  }

  // At the end of a cluster that is not the last one, the table leads to the next.
  lemma NextAt(g: Geometry, fat: seq<nat>, cs: seq<nat>, i: nat, off: nat, p: nat, c: nat, n: nat)
    requires g.spc > 0 && IsChain(fat, cs) && At(g, cs, i, off, p, c) && off + n == ClusterSize(g)
    requires p + n < SECTOR * (|cs| * g.spc)
    ensures 2 <= c < |fat| && fat[c] < |fat| && At(g, cs, i + 1, 0, p + n, fat[c])
  {
    hide IsChain;
    NextRow(i, g.spc);
    InChain(i + 1, g.spc, |cs|, 0);
    FollowChain(fat, cs, i);
  }

  lemma AtCluster(g: Geometry, cs: seq<nat>, i: nat, off: nat, p: nat, c: nat)
    requires ClustersOk(g, cs) && At(g, cs, i, off, p, c)
    ensures g.Ok() && g.InRange(c) && 2 <= c < g.Clusters() + 2 < END_OF_CHAIN && off < ClusterSize(g) && i < |cs|
    ensures cs[i] == c
  {
  }

  // The bytes copied from one cluster continue those copied so far.
  lemma MoreRead(g: Geometry, data: seq<Sector>, cs: seq<nat>, i: nat, off: nat, p: nat, c: nat, was: seq<byte>,
                 n: nat, m: nat)
    requires ClustersOk(g, cs) && |data| == g.Clusters() * g.spc && At(g, cs, i, off, p + n, c)
    requires n <= m <= |was| && off + (m - n) <= SECTOR * g.spc
    ensures ClustersOk(g, [c]) && |Bytes(g, data, [c])| == SECTOR * g.spc && p + m <= |Bytes(g, data, cs)|
    ensures Overwrite(Overwrite(was, 0, Bytes(g, data, cs)[p..p + n]), n, Bytes(g, data, [c])[off..off + (m - n)])
         == Overwrite(was, 0, Bytes(g, data, cs)[p..p + m])
  {
    hide Bytes, Overwrite;
    ChainRead(g, data, cs, i, off, m - n);
    var all := Bytes(g, data, cs);
    OverwriteMore(was, 0, all[p..], 0, n, m);
    assert all[p..][0..n] == all[p..p + n];
    assert all[p..][n..m] == all[p + n..p + n + (m - n)];
    assert all[p..][0..m] == all[p..p + m];
  }

  // fat32_file_read: the bytes asked for, as far as the file reaches, land in the buffer.
  method ReadFile(v: Volume, first: nat, fsize: nat, offset: nat, size: nat, buffer: array<byte>, ghost cs: seq<nat>)
    returns (n: nat)
    requires v.Valid() && FileOk(v.g, v.Fat(), first, fsize, cs) && size <= buffer.Length
    modifies buffer
    ensures v.Valid() && v.Fat() == old(v.Fat()) && v.Data() == old(v.Data())
    ensures ClustersOk(v.g, cs) && fsize <= SECTOR * (|cs| * v.g.spc)
    ensures var w := Window(FileBytes(v.g, v.Data(), cs, fsize), offset, size);
            n == |w| <= buffer.Length && buffer[..] == Overwrite(old(buffer[..]), 0, w)
  {
    hide FatOf, DataOf, Mirrored, IsChain, Bytes, FileOk, Overwrite, At;
    FileClusters(v.g, v.Fat(), first, fsize, cs);
    OverwriteNothing(buffer[..], 0);
    WindowOf(Bytes(v.g, v.Data(), cs), fsize, offset, size);
    if offset >= fsize { return 0; }
    n := ReadFrom(v, first, fsize, offset, Min(fsize - offset, size), buffer, cs);
  }

  method ReadFrom(v: Volume, first: nat, fsize: nat, offset: nat, want: nat, buffer: array<byte>, ghost cs: seq<nat>)
    returns (n: nat)
    requires v.Valid() && IsChain(v.Fat(), cs) && cs[0] == first && ClustersOk(v.g, cs)
    requires fsize <= SECTOR * (|cs| * v.g.spc) && offset < fsize && offset + want <= fsize && want <= buffer.Length
    modifies buffer
    ensures v.Valid() && v.Fat() == old(v.Fat()) && v.Data() == old(v.Data())
    ensures n == want && buffer[..] == Overwrite(old(buffer[..]), 0, Bytes(v.g, v.Data(), cs)[offset..offset + want])
  {
    hide *;
    ghost var g, fat, data, was := v.g, v.Fat(), v.Data(), buffer[..];
    ValidFacts(v);
    var k: nat, off: nat := ClusterIndex(v.g, offset), ClusterOffset(v.g, offset);
    ghost var i: nat := k;
    StartAt(g, fat, cs, offset);
    var c: nat := Skip(v, first, k, cs);
    var limit: nat := v.Limit();
    LimitCovers(v);
    AtCluster(g, cs, k, off, offset, c);
    n := 0;
    assert Bytes(g, data, cs)[offset..offset + n] == [];
    OverwriteNothing(was, 0);
    while n < want && c < END_OF_CHAIN && limit > 0
      invariant v.Valid() && v.Fat() == fat && v.Data() == data && n <= want
      invariant buffer[..] == Overwrite(was, 0, Bytes(g, data, cs)[offset..offset + n])
      invariant n < want ==> At(g, cs, i, off, offset + n, c) && c < END_OF_CHAIN
      invariant n < want ==> i < |cs| && limit + i == v.Limit() + k
      decreases limit
    {
      limit := limit - 1;
      AtCluster(g, cs, i, off, offset + n, c);
      var m: nat := ReadCluster(v, c, off, buffer, n, want);
      MoreRead(g, data, cs, i, off, offset, c, was, n, m);
      if m < want {
        NextAt(g, fat, cs, i, off, offset + n, c, m - n);
        AtCluster(g, cs, i + 1, 0, offset + m, fat[c]);
      }
      n := m;
      off := 0;
      c := v.ReadEntry(c);
      i := i + 1;
    }
  }

  lemma ValidFacts(v: Volume)
    requires v.Valid()
    ensures v.g.Ok() && v.g.spc > 0 && |v.Fat()| == v.g.Clusters() + 2 && |v.Data()| == v.g.Clusters() * v.g.spc
  {
  }

  lemma LimitCovers(v: Volume)
    requires v.Valid()
    ensures v.g.spc > 0 && v.Limit() >= v.g.Clusters() + 2
  {
    LimitEnough(v.g);
  }

  lemma StartAt(g: Geometry, fat: seq<nat>, cs: seq<nat>, offset: nat)
    requires g.Ok() && |fat| == g.Clusters() + 2 && IsChain(fat, cs) && offset < SECTOR * (|cs| * g.spc)
    ensures ClusterIndex(g, offset) < |cs| <= g.Clusters()
    ensures At(g, cs, ClusterIndex(g, offset), ClusterOffset(g, offset), offset, cs[ClusterIndex(g, offset)])
  {
    hide IsChain, ClusterIndex, ClusterOffset;
    Position(g, offset);
    InChain(ClusterIndex(g, offset), g.spc, |cs|, ClusterOffset(g, offset));
    ChainLength(fat, cs);
  }
}
