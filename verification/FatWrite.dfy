// Writing a file's data: the chain grows as far as needed and the bytes go where they belong.
module FatWrite {
  import opened Bits
  import opened Counting
  import opened FatTable
  import opened Chains
  import opened Volumes
  import opened FatContent
  import opened FatFile

  // No cluster is free.
  ghost predicate Full(fat: seq<nat>) { forall c :: 2 <= c < |fat| ==> fat[c] != FREE }

  // ---------- Growing a chain ----------

  ghost function Last(cs: seq<nat>): nat { if cs == [] then 0 else cs[|cs| - 1] }

  // The table after r became a chain of its own and was linked behind cluster l.
  ghost function LinkedFat(fat: seq<nat>, l: nat, r: nat): seq<nat> {
    if l < |fat| && r < |fat| then fat[r := EOF_MARK][l := r] else fat
  }

  // A free cluster r is taken and linked to the end of the chain of h.
  lemma Grown(fat: seq<nat>, own: Owners, h: nat, r: nat)
    requires Owned(fat, own) && h in own && 2 <= r < |fat| && fat[r] == FREE
    ensures own[h] != [] && Last(own[h]) < |fat|
    ensures forall k :: k in own ==> r !in own[k]
    ensures r !in own && r != Last(own[h])
    ensures Owned(LinkedFat(fat, Last(own[h]), r), own[h := own[h] + [r]])
  {
    hide IsChain, Holds, Apart, AllChains, Exact;
    var own1 := own[r := [r]];
    NotHeld(fat, own, r);
    Allocated(fat, own, r);
    Linked(fat[r := EOF_MARK], own1, h, r);
    assert LinkOwners(own1, h, r) == own[h := own[h] + [r]];
    LastIn(fat, own, h);
  }

  lemma LastIn(fat: seq<nat>, own: Owners, h: nat)
    requires Owned(fat, own) && h in own
    ensures own[h] != [] && 2 <= Last(own[h]) < |fat| && Last(own[h]) in own[h]
    ensures IsChain(fat, own[h]) && own[h][0] == h && 2 <= h < |fat|
  {
  }

  lemma GrownBytes(g: Geometry, data: seq<Sector>, data': seq<Sector>, cs: seq<nat>, r: nat)
    requires ClustersOk(g, cs) && SameOutside(g, data, data', [r]) && r !in cs
    requires g.InRange(r) && ClustersOk(g, [r]) && Bytes(g, data', [r]) == Zeros(ClusterSize(g))
    ensures ClustersOk(g, cs + [r]) && Bytes(g, data', cs + [r]) == Bytes(g, data, cs) + Zeros(ClusterSize(g))
  {
    hide Bytes, SameOutside;
    SameSizes(g, data, data', [r]);
    BytesFrame(g, data, data', [r], cs);
    BytesAppend(g, data', cs, [r]);
  }

  lemma ChainOk(g: Geometry, fat: seq<nat>, cs: seq<nat>)
    requires g.Ok() && |fat| == g.Clusters() + 2 && IsChain(fat, cs)
    ensures ClustersOk(g, cs) && Distinct(cs) && |cs| <= g.Clusters()
  {
    ChainLength(fat, cs);
  }

  lemma FullIs(g: Geometry, fat: seq<nat>)
    requires g.Ok() && |fat| == g.Clusters() + 2 && forall c: nat :: g.InRange(c) ==> fat[c] != FREE
    ensures Full(fat)
  {
    assert forall c: nat :: g.InRange(c) <==> 2 <= c < |fat|;
  }

  lemma FreshIs(g: Geometry, fat: seq<nat>, l: nat, r: nat)
    requires g.Ok() && |fat| == g.Clusters() + 2 && g.InRange(r) && 2 <= l < |fat|
    ensures 2 <= r < |fat| && fat[r := EOF_MARK][l := r % LOW28] == LinkedFat(fat, l, r)
  {
  }

  // The steps of fat32_file_write that add a cluster: allocate, clear, link.
  method Grow(v: Volume, c: nat, ghost h: nat, ghost own: Owners) returns (r: nat, ghost own': Owners)
    requires v.Valid() && Owned(v.Fat(), own) && h in own && c == Last(own[h])
    modifies v.disk, v`nextFree
    ensures v.Valid() && Owned(v.Fat(), own') && ClustersOk(v.g, own[h])
    ensures r == 0 ==> own' == own && v.Fat() == old(v.Fat()) && v.Data() == old(v.Data()) && Full(v.Fat())
    ensures r != 0 ==> own' == own[h := own[h] + [r]] && v.g.InRange(r) && forall k :: k in own ==> r !in own[k]
    ensures r != 0 ==> SameOutside(v.g, old(v.Data()), v.Data(), [r])
    ensures r != 0 ==> ClustersOk(v.g, own'[h])
    ensures r != 0 ==> Bytes(v.g, v.Data(), own'[h]) == Bytes(v.g, old(v.Data()), own[h]) + Zeros(ClusterSize(v.g))
  {
    hide *;
    ghost var g, fat, data := v.g, v.Fat(), v.Data();
    own' := own;
    ValidFacts(v);
    LastIn(fat, own, h);
    ChainOk(g, fat, own[h]);
    r := v.AllocCluster();
    if r == 0 { FullIs(g, fat); return; }
    FreshIs(g, fat, c, r);
    Grown(fat, own, h, r);
    ZeroCluster(v, r);
    v.WriteEntry(c, r);
    own' := own[h := own[h] + [r]];
    GrownBytes(g, data, v.Data(), own[h], r);
  }

  // ---------- The effect of a write ----------

  // b made n bytes long with zeros, then d written over it from position p on.
  ghost function Put(b: seq<byte>, n: nat, p: nat, d: seq<byte>): (r: seq<byte>)
    requires |b| <= n && (d != [] ==> p + |d| <= n)
    ensures |r| == n
  {
    if d == [] then b + Zeros(n - |b|) else Overwrite(b + Zeros(n - |b|), p, d)
  }

  // The chain cs became cs' and d was written to it at offset; nothing else changed.
  ghost predicate Wrote(g: Geometry, data: seq<Sector>, data': seq<Sector>, cs: seq<nat>, cs': seq<nat>, offset: nat,
                        d: seq<byte>) {
    && ClustersOk(g, cs') && cs <= cs' && SameOutside(g, data, data', cs') && |cs| * g.spc <= |cs'| * g.spc
    && (d != [] ==> offset + |d| <= SECTOR * (|cs'| * g.spc))
    && Bytes(g, data', cs') == Put(Bytes(g, data, cs), SECTOR * (|cs'| * g.spc), offset, d)
  }

  lemma WroteNothing(g: Geometry, data: seq<Sector>, cs: seq<nat>, offset: nat)
    requires ClustersOk(g, cs) && |data| == g.Clusters() * g.spc
    ensures Wrote(g, data, data, cs, cs, offset, [])
  {
    hide Bytes;
    assert Bytes(g, data, cs) + Zeros(0) == Bytes(g, data, cs);
  }

  lemma WroteGrow(g: Geometry, data0: seq<Sector>, data: seq<Sector>, data': seq<Sector>, cs0: seq<nat>, cs: seq<nat>,
                  r: nat,
                  offset: nat, d: seq<byte>)
    requires Wrote(g, data0, data, cs0, cs, offset, d) && SameOutside(g, data, data', [r]) && ClustersOk(g, cs + [r])
    requires Bytes(g, data', cs + [r]) == Bytes(g, data, cs) + Zeros(ClusterSize(g))
    ensures Wrote(g, data0, data', cs0, cs + [r], offset, d)
  {
    hide Bytes, SameOutside, ClustersOk;
    WroteFacts(g, data0, data, cs0, cs, offset, d);
    NextRow(|cs|, g.spc);
    MoreZeros(Bytes(g, data0, cs0), SECTOR * (|cs| * g.spc), ClusterSize(g), offset, d);
    SameOutsideTrans(g, data0, data, data', cs, [r], cs + [r]);
  }

  lemma WroteFacts(g: Geometry, data: seq<Sector>, data': seq<Sector>, cs: seq<nat>, cs': seq<nat>, offset: nat,
                   d: seq<byte>)
    requires Wrote(g, data, data', cs, cs', offset, d)
    ensures g.Ok() && |data| == |data'| == g.Clusters() * g.spc && ClustersOk(g, cs) && ClustersOk(g, cs') && cs <= cs'
    ensures SameOutside(g, data, data', cs')
  {
  }

  lemma MoreZeros(b: seq<byte>, n: nat, m: nat, p: nat, d: seq<byte>)
    requires |b| <= n && (d != [] ==> p + |d| <= n)
    ensures Put(b, n, p, d) + Zeros(m) == Put(b, n + m, p, d)
  {
    assert b + Zeros(n - |b|) + Zeros(m) == b + Zeros(n + m - |b|);
  }

  lemma WroteMore(g: Geometry, data0: seq<Sector>, data: seq<Sector>, data': seq<Sector>, cs0: seq<nat>, cs: seq<nat>,
                  offset: nat, buf: seq<byte>, n: nat, m: nat, i: nat, off: nat, c: nat)
    requires n <= m <= |buf| && Wrote(g, data0, data, cs0, cs, offset, buf[..n]) && At(g, cs, i, off, offset + n, c)
    requires Distinct(cs) && SameOutside(g, data, data', [c]) && ClustersOk(g, [c]) && off + (m - n) <= ClusterSize(g)
    requires Bytes(g, data', [c]) == Overwrite(Bytes(g, data, [c]), off, buf[n..m])
    ensures Wrote(g, data0, data', cs0, cs, offset, buf[..m])
  {
    hide Bytes, SameOutside, ClustersOk, Overwrite;
    WroteFacts(g, data0, data, cs0, cs, offset, buf[..n]);
    ChainWrite(g, data, data', cs, i, off, buf[n..m]);
    PutMore(Bytes(g, data0, cs0), SECTOR * (|cs| * g.spc), offset, buf, n, m);
    assert c in cs;
    SameOutsideTrans(g, data0, data, data', cs, [c], cs);
  }

  lemma PutMore(b: seq<byte>, len: nat, p: nat, buf: seq<byte>, n: nat, m: nat)
    requires n <= m <= |buf| && |b| <= len && p + m <= len
    ensures Overwrite(Put(b, len, p, buf[..n]), p + n, buf[n..m]) == Put(b, len, p, buf[..m])
  {
    hide Overwrite;
    var z := b + Zeros(len - |b|);
    assert buf[0..n] == buf[..n] && buf[0..m] == buf[..m];
    if n == 0 {
      assert p + 0 == p && buf[n..m] == buf[..m];
      if m == 0 { OverwriteNothing(z, p); }
    } else {
      OverwriteMore(z, p, buf, 0, n, m);
    }
  }

  // ---------- fat32_file_write ----------

  // The navigation loop: to the k-th cluster, growing the chain on the way if it is shorter.
  method Navigate(v: Volume, h: nat, k: nat, ghost offset: nat, ghost own: Owners)
    returns (ok: bool, c: nat, ghost own': Owners)
    requires v.Valid() && Owned(v.Fat(), own) && h in own
    modifies v.disk, v`nextFree
    ensures v.Valid() && Owned(v.Fat(), own') && h in own' && own' == own[h := own'[h]]
    ensures Wrote(v.g, old(v.Data()), v.Data(), own[h], own'[h], offset, [])
    ensures ok ==> k < |own'[h]| && c == own'[h][k]
    ensures !ok ==> Full(v.Fat())
  {
    hide *;
    ghost var g, data := v.g, v.Data();
    ValidFacts(v);
    StartChain(g, v.Fat(), own, h);
    WroteNothing(g, data, own[h], offset);
    c, own' := h, own;
    var i: nat := 0;
    while i < k
      invariant v.Valid() && Owned(v.Fat(), own') && i <= k && h in own' && own' == own[h := own'[h]]
      invariant Wrote(g, data, v.Data(), own[h], own'[h], offset, [])
      invariant i < |own'[h]| && c == own'[h][i]
    {
      ValidFacts(v);
      ChainStep(g, v.Fat(), own', h, i);
      var next := v.ReadEntry(c);
      if next >= END_OF_CHAIN {
        ghost var before, was := v.Data(), own'[h];
        var r: nat;
        r, own' := Grow(v, c, h, own');
        if r == 0 { return false, 0, own'; }
        WroteGrow(g, data, before, v.Data(), own[h], was, r, offset, []);
        c := r;
      } else {
        c := next;
      }
      i := i + 1;
    }
    ok := true;
  }

  lemma StartChain(g: Geometry, fat: seq<nat>, own: Owners, h: nat)
    requires g.Ok() && |fat| == g.Clusters() + 2 && Owned(fat, own) && h in own
    ensures own[h] != [] && own[h][0] == h && ClustersOk(g, own[h])
  {
    ChainOk(g, fat, own[h]);
  }

  // What the table says about the i-th cluster of a chain.
  lemma ChainStep(g: Geometry, fat: seq<nat>, own: Owners, h: nat, i: nat)
    requires g.Ok() && |fat| == g.Clusters() + 2 && Owned(fat, own) && h in own && i < |own[h]|
    ensures var c := own[h][i];
            && 2 <= c < |fat| == g.Clusters() + 2 && c in own[h]
            && (fat[c] >= END_OF_CHAIN ==> i + 1 == |own[h]| && c == Last(own[h]))
            && (fat[c] < END_OF_CHAIN ==> i + 1 < |own[h]| && fat[c] == own[h][i + 1])
    ensures Distinct(own[h]) && ClustersOk(g, own[h]) && i < |own[h]| <= g.Clusters()
  {
    FollowChain(fat, own[h], i);
    ChainOk(g, fat, own[h]);
  }

  // The next cluster of the chain starts where a full one ends.
  lemma NextPos(g: Geometry, cs: seq<nat>, cs': seq<nat>, i: nat, off: nat, p: nat, c: nat, n: nat, c': nat)
    requires At(g, cs, i, off, p, c) && off + n == ClusterSize(g) && g.spc > 0 && i + 1 < |cs'| && c' == cs'[i + 1]
    ensures At(g, cs', i + 1, 0, p + n, c')
  {
    NextRow(i, g.spc);
  }

  // The writing loop, from byte offset, which is byte off of cluster c, the k-th of the chain.
  method WriteFrom(v: Volume, first: nat, k: nat, off: nat, buf: seq<byte>, ghost h: nat, ghost offset: nat,
                   ghost own: Owners)
    returns (written: nat, ghost own': Owners)
    requires v.Valid() && Owned(v.Fat(), own) && h in own && buf != []
    requires At(v.g, own[h], k, off, offset, first)
    modifies v.disk, v`nextFree
    ensures v.Valid() && Owned(v.Fat(), own') && h in own' && own' == own[h := own'[h]]
    ensures 0 < written <= |buf| && (written < |buf| ==> Full(v.Fat()))
    ensures Wrote(v.g, old(v.Data()), v.Data(), own[h], own'[h], offset, buf[..written])
  {
    hide *;
    ghost var g, data := v.g, v.Data();
    ValidFacts(v);
    StartChain(g, v.Fat(), own, h);
    WroteNothing(g, data, own[h], offset);
    var c, o := first, off;
    written, own' := 0, own;
    ghost var i: nat := k;
    var limit: nat := v.Limit();
    LimitCovers(v);
    AtCluster(g, own[h], i, off, offset, c);
    ChainStep(g, v.Fat(), own, h, i);
    assert buf[..written] == [];
    while written < |buf| && limit > 0
      invariant v.Valid() && Owned(v.Fat(), own') && h in own' && own' == own[h := own'[h]] && written <= |buf|
      invariant Wrote(g, data, v.Data(), own[h], own'[h], offset, buf[..written])
      invariant limit < v.Limit() ==> written > 0
      invariant written < |buf| ==> At(g, own'[h], i, o, offset + written, c) && limit > 0 && limit + i == v.Limit() + k
      decreases limit
    {
      limit := limit - 1;
      WroteFacts(g, data, v.Data(), own[h], own'[h], offset, buf[..written]);
      AtCluster(g, own'[h], i, o, offset + written, c);
      ChainStep(g, v.Fat(), own', h, i);
      ghost var before, w := v.Data(), written;
      written := WriteCluster(v, c, o, buf, written);
      WroteMore(g, data, before, v.Data(), own[h], own'[h], offset, buf, w, written, i, o, c);
      if written < |buf| {
        ghost var was, p := own'[h], o;
        var next: nat := v.ReadEntry(c);
        if next >= END_OF_CHAIN {
          before := v.Data();
          var r: nat;
          r, own' := Grow(v, c, h, own');
          if r == 0 { break; }
          WroteGrow(g, data, before, v.Data(), own[h], was, r, offset, buf[..written]);
          c := r;
        } else {
          c := next;
        }
        NextPos(g, was, own'[h], i, p, offset + w, was[i], written - w, c);
        ValidFacts(v);
        ChainStep(g, v.Fat(), own', h, i + 1);
      }
      o := 0;
      i := i + 1;
    }
  }

  // The chain of a file that starts at cluster first; none if it has no cluster yet.
  ghost function ChainAt(own: Owners, first: nat): seq<nat> { if first in own then own[first] else [] }

  // fat32_file_write up to the directory entry. A file without a cluster gets one first.
  method WriteData(v: Volume, first: nat, offset: nat, buf: seq<byte>, ghost own: Owners)
    returns (written: int, first': nat, ghost own': Owners)
    requires v.Valid() && Owned(v.Fat(), own) && (first >= 2 ==> first in own)
    modifies v.disk, v`nextFree
    ensures v.Valid() && Owned(v.Fat(), own')
    ensures first >= 2 ==> first' == first
    ensures buf == [] || first' < 2 ==>
              written == -1 && first' == first && own' == own && v.Fat() == old(v.Fat()) && v.Data() == old(v.Data())
    ensures buf != [] && first' < 2 ==> Full(v.Fat())
    ensures buf != [] && first' >= 2 ==>
              && 0 <= written <= |buf| && first' in own' && own' == own[first' := own'[first']]
              && (first < 2 ==> first' !in own)
              && Wrote(v.g, old(v.Data()), v.Data(), ChainAt(own, first), own'[first'], offset, buf[..written])
    ensures buf != [] && written < |buf| ==> Full(v.Fat())
  {
    hide *;
    first', own' := first, own;
    if buf == [] { return -1, first', own'; }
    ghost var g, fat, data := v.g, v.Fat(), v.Data();
    ValidFacts(v);
    NoLowHead(fat, own, first);
    if first < 2 {
      var r := v.AllocCluster();
      if r == 0 { FullIs(g, fat); return -1, first', own'; }
      NewChain(g, fat, own, r);
      ZeroCluster(v, r);
      first', own' := r, own[r := [r]];
      WroteNew(g, data, v.Data(), r, offset);
    } else {
      StartChain(g, fat, own, first);
      WroteNothing(g, data, own[first], offset);
    }
    ghost var cs, data1 := own'[first'], v.Data();
    var ok, c;
    ok, c, own' := Navigate(v, first', ClusterIndex(v.g, offset), offset, own');
    assert buf[..0] == [];
    if !ok {
      WroteOn(g, data, data1, v.Data(), ChainAt(own, first), cs, own'[first'], offset, []);
      return 0, first', own';
    }
    ghost var cs2, data2 := own'[first'], v.Data();
    WroteOn(g, data, data1, data2, ChainAt(own, first), cs, cs2, offset, []);
    PositionAt(g, cs2, offset, c);
    written, own' := WriteFrom(v, c, ClusterIndex(v.g, offset), ClusterOffset(v.g, offset), buf, first', offset, own');
    WroteOn(g, data, data2, v.Data(), ChainAt(own, first), cs2, own'[first'], offset, buf[..written]);
  }

  lemma NoLowHead(fat: seq<nat>, own: Owners, first: nat)
    requires Owned(fat, own)
    ensures first < 2 ==> first !in own && ChainAt(own, first) == []
    ensures first in own ==> ChainAt(own, first) == own[first]
  {
    if first in own { LastIn(fat, own, first); }
  }

  lemma NewChain(g: Geometry, fat: seq<nat>, own: Owners, r: nat)
    requires g.Ok() && |fat| == g.Clusters() + 2 && Owned(fat, own) && g.InRange(r) && fat[r] == FREE
    ensures r >= 2 && r !in own && Owned(fat[r := EOF_MARK], own[r := [r]]) && forall k :: k in own ==> r !in own[k]
  {
    hide Owned;
    Allocated(fat, own, r);
    NotHeld(fat, own, r);
  }

  lemma WroteNew(g: Geometry, data: seq<Sector>, data': seq<Sector>, r: nat, offset: nat)
    requires SameOutside(g, data, data', [r]) && ClustersOk(g, [r]) && Bytes(g, data', [r]) == Zeros(ClusterSize(g))
    ensures Wrote(g, data, data', [], [r], offset, [])
  {
    hide Bytes, SameOutside;
    SameSizes(g, data, data', [r]);
    assert 0 * g.spc == 0 && 1 * g.spc == g.spc;
    assert Bytes(g, data, []) == [];
  }

  lemma PositionAt(g: Geometry, cs: seq<nat>, offset: nat, c: nat)
    requires g.Ok() && ClusterIndex(g, offset) < |cs| && c == cs[ClusterIndex(g, offset)]
    ensures At(g, cs, ClusterIndex(g, offset), ClusterOffset(g, offset), offset, c)
  {
    hide ClusterIndex, ClusterOffset;
    Position(g, offset);
  }

  // A chain that only grew and was then written.
  lemma WroteOn(g: Geometry, data0: seq<Sector>, data: seq<Sector>, data': seq<Sector>, cs0: seq<nat>, cs: seq<nat>,
                cs': seq<nat>,
                offset: nat, d: seq<byte>)
    requires Wrote(g, data0, data, cs0, cs, offset, []) && Wrote(g, data, data', cs, cs', offset, d)
    ensures Wrote(g, data0, data', cs0, cs', offset, d)
  {
    hide Bytes, SameOutside, ClustersOk;
    WroteFacts(g, data0, data, cs0, cs, offset, []);
    WroteFacts(g, data, data', cs, cs', offset, d);
    SameOutsideTrans(g, data0, data, data', cs, cs', cs');
    var b, n, m := Bytes(g, data0, cs0), SECTOR * (|cs| * g.spc), SECTOR * (|cs'| * g.spc);
    assert b + Zeros(n - |b|) + Zeros(m - n) == b + Zeros(m - |b|);
  }

  // ---------- A file is a sequence of bytes ----------

  // What the file holds after d was written at an offset: the gap up to it is filled with zeros.
  function Written(b: seq<byte>, offset: nat, d: seq<byte>): (r: seq<byte>)
    ensures |r| == if d != [] && offset + |d| > |b| then offset + |d| else |b|
  {
    if d == [] then b
    else if offset + |d| > |b| then (b + Zeros(offset + |d| - |b|))[..offset] + d
    else Overwrite(b, offset, d)
  }

  // Past the end of the file the chain holds zeros.
  ghost predicate ZeroTail(b: seq<byte>, size: nat) { forall i :: size <= i < |b| ==> b[i] == 0 }

  // The size that fat32_file_write leaves.
  function SizeAfter(size: nat, offset: nat, written: nat): nat {
    if written > 0 && offset + written > size then offset + written else size
  }

  // Growing the chain and writing to it is writing to the file as a byte sequence.
  lemma FileWritten(g: Geometry, data: seq<Sector>, data': seq<Sector>, cs: seq<nat>, cs': seq<nat>, size: nat,
                    offset: nat, d: seq<byte>)
    requires Wrote(g, data, data', cs, cs', offset, d) && ClustersOk(g, cs) && size <= SECTOR * (|cs| * g.spc)
    requires |data| == |data'| == g.Clusters() * g.spc && ZeroTail(Bytes(g, data, cs), size)
    ensures ClustersOk(g, cs') && SizeAfter(size, offset, |d|) <= SECTOR * (|cs'| * g.spc)
    ensures FileBytes(g, data', cs', SizeAfter(size, offset, |d|)) == Written(FileBytes(g, data, cs, size), offset, d)
    ensures ZeroTail(Bytes(g, data', cs'), SizeAfter(size, offset, |d|))
  {
    hide Bytes, SameOutside, ClustersOk;
    PutFile(Bytes(g, data, cs), size, SECTOR * (|cs'| * g.spc), offset, d);
  }

  lemma PutFile(b: seq<byte>, size: nat, n: nat, offset: nat, d: seq<byte>)
    requires size <= |b| <= n && ZeroTail(b, size) && (d != [] ==> offset + |d| <= n)
    ensures SizeAfter(size, offset, |d|) <= n && ZeroTail(Put(b, n, offset, d), SizeAfter(size, offset, |d|))
    ensures Put(b, n, offset, d)[..SizeAfter(size, offset, |d|)] == Written(b[..size], offset, d)
  {
    var x, y := Put(b, n, offset, d)[..SizeAfter(size, offset, |d|)], Written(b[..size], offset, d);
    assert forall i :: 0 <= i < |x| ==> x[i] == y[i];
  }

  // Reading back what was written gives it; around it the file is as it was, with zeros in a gap.
  lemma ReadBack(b: seq<byte>, offset: nat, d: seq<byte>)
    ensures d != [] ==> Window(Written(b, offset, d), offset, |d|) == d
    ensures forall i :: 0 <= i < |Written(b, offset, d)| && !(offset <= i < offset + |d|) ==>
              Written(b, offset, d)[i] == if i < |b| then b[i] else 0
  {
  }
}
