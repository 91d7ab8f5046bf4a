// The file system operations on a mounted volume: create, mkdir, unlink, opening, reading and writing.
module FatFs {
  import opened Bits
  import opened FatTable
  import opened Chains
  import opened Volumes
  import opened FatContent
  import opened FatFile
  import opened FatWrite
  import opened FatName
  import opened FatSlots
  import opened FatWalk
  import opened FatTree

  // ---------- Entries made by the driver ----------

  // The names the driver supports: what fits 8.3, and does not look like a deleted entry.
  predicate GoodName(name: seq<byte>) {
    CString(name) && Fits83(name) && (name != [] ==> name[0] != DELETED)
  }

  lemma NamedEntry(name: seq<byte>, attr: byte, c: nat)
    requires GoodName(name) && c < 0x1_0000_0000 && attr in {ATTR_DIRECTORY, ATTR_ARCHIVE}
    ensures var e := Entry83(To83(name), attr, c);
            && Refers(e) && NameOf(e) == Upper(name) && ClusterOf(e) == c && SizeOf(e) == 0
            && (IsDirectory(e) <==> attr == ATTR_DIRECTORY) && ATTR_ARCHIVE != ATTR_DIRECTORY
  {
    hide NameOf, ClusterOf, SizeOf, Entry83, To83, Upper, Fits83;
    var e := Entry83(To83(name), attr, c);
    FirstByte(name);
    assert e[0] == e[..11][0];
    EntryName(e, name);
  }

  lemma {:induction false} FirstByte(name: seq<byte>)
    requires CString(name) && (name != [] ==> name[0] != DELETED)
    ensures To83(name)[0] !in {0, DELETED, DOT}
  {
    if Base(name) != [] { assert name[0] in name && name[0] != DOT; }
  }

  lemma EntryName(e: Slot, name: seq<byte>)
    requires e[..11] == To83(name) && CString(name) && Fits83(name)
    ensures NameOf(e) == Upper(name)
  {
    hide UpToNul, Upper, To83, Fits83, Parse83, NonSpace;
    NameRoundTrip(name);
    UpperTwice(name);
    NoNul(Upper(name));
  }

  lemma UpperTwice(s: seq<byte>)
    requires CString(s)
    ensures Upper(Upper(s)) == Upper(s) && CString(Upper(s))
  {
    assert forall i :: 0 <= i < |s| ==> s[i] in s;
  }

  lemma {:induction false} NoNul(s: seq<byte>)
    requires CString(s)
    ensures UpToNul(s) == s
  {
    if s != [] {
      assert s[0] in s && forall x :: x in s[1..] ==> x in s;
      NoNul(s[1..]);
    }
  }

  // ---------- "." and ".." ----------

  function DotName(n: nat): (r: seq<byte>)
    requires n <= 2
    ensures |r| == 11
  {
    seq(n, _ => DOT) + Spaces(11 - n)
  }

  lemma DotParsed(n: nat)
    requires 1 <= n <= 2
    ensures Upper(UpToNul(Parse83(DotName(n)))) == seq(n, _ => DOT)
  {
    hide Upper, UpToNul, NonSpace;
    var d := seq(n, _ => DOT);
    assert DotName(n)[..8] == d + Spaces(8 - n) && DotName(n)[8] == SPACE;
    NonSpaceAppend(d, Spaces(8 - n));
    NonSpaceSpaces(Spaces(8 - n));
    NonSpaceKeeps(d);
    assert d + [] == d;
    NoNul(d);
    UpperDots(d);
  }

  lemma UpperDots(s: seq<byte>)
    requires forall i :: 0 <= i < |s| ==> s[i] == DOT
    ensures Upper(s) == s
  {
  }

  // The slots of a new directory.
  ghost function NewSlots(n: nat, c: nat, parent: nat): (r: seq<Slot>)
    requires n >= 2 && c < 0x1_0000_0000 && parent < 0x1_0000_0000
    ensures |r| == n
  {
    ZeroSlots(n)[0 := Entry83(DotName(1), ATTR_DIRECTORY, c)][1 := Entry83(DotName(2), ATTR_DIRECTORY, parent)]
  }

  lemma DotEntry(n: nat, c: nat)
    requires 1 <= n <= 2 && c < 0x1_0000_0000
    ensures var e := Entry83(DotName(n), ATTR_DIRECTORY, c);
            && Live(e) && Dots(e) && IsDirectory(e) && ClusterOf(e) == c && NameOf(e) == seq(n, _ => DOT)
  {
    hide NameOf, ClusterOf, Entry83, Upper, UpToNul, Parse83;
    var e := Entry83(DotName(n), ATTR_DIRECTORY, c);
    assert e[0] == e[..11][0] == DotName(n)[0];
    DotParsed(n);
    NameIs(e);
  }

  lemma NameIs(e: Slot)
    ensures NameOf(e) == Upper(UpToNul(Parse83(e[..11])))
  {
  }

  lemma NewSlotsOk(n: nat, c: nat, parent: nat, e: Slot)
    requires n >= 2 && c < 0x1_0000_0000 && parent < 0x1_0000_0000 && IsDirectory(e)
    ensures NewBody(Dir(NewSlots(n, c, parent)), e, parent, c)
  {
    hide NameOf, ClusterOf, Entry83, IsDirectory;
    var s := NewSlots(n, c, parent);
    DotEntry(1, c);
    DotEntry(2, parent);
    assert |NameOf(s[0])| == 1 && |NameOf(s[1])| == 2;
    assert forall i :: 2 <= i < n ==> EndMark(s[i]);
  }

  // ---------- A new chain ----------

  lemma NewFileStored(g: Geometry, data: seq<Sector>, c: nat)
    requires ClustersOk(g, [c]) && |data| == g.Clusters() * g.spc && Bytes(g, data, [c]) == Zeros(ClusterSize(g))
    ensures HeadStored(g, data, [c], File([]))
  {
    hide Bytes;
    assert FileBytes(g, data, [c], 0) == [];
  }

  lemma NewDirStored(g: Geometry, data: seq<Sector>, c: nat)
    requires ClustersOk(g, [c]) && |data| == g.Clusters() * g.spc && Bytes(g, data, [c]) == Zeros(ClusterSize(g))
    ensures DirSlots(g, data, [c]) == ZeroSlots(PER_SECTOR * g.spc) && PER_SECTOR * g.spc >= 2
  {
    hide Bytes, Slots;
    SlotsZero(PER_SECTOR * g.spc);
  }

  // The first sector of a directory's only cluster, written with its first two entries.
  lemma DotsStored(g: Geometry, data: seq<Sector>, c: nat, a: Slot, b: Slot)
    requires ClustersOk(g, [c]) && g.Ok() && g.InRange(c) && |data| == g.Clusters() * g.spc
    ensures g.DataIndex(c, 0) < |data| && |DirSlots(g, data, [c])| >= 2
    ensures var data' := data[g.DataIndex(c, 0) := Overwrite(Overwrite(data[g.DataIndex(c, 0)], 0, a), SLOT, b)];
            && SameOutside(g, data, data', [c]) && |data'| == |data|
            && DirSlots(g, data', [c]) == DirSlots(g, data, [c])[0 := a][1 := b]
  {
    hide Bytes, SameOutside, Overwrite, DirSlots;
    var i := g.DataIndex(c, 0);
    ClusterWrite(g, data, c, 0, 0, a);
    var data1 := data[i := Overwrite(data[i], 0, a)];
    ClusterWrite(g, data1, c, 0, SLOT, b);
    var data2 := data1[i := Overwrite(data1[i], SLOT, b)];
    SlotReplaced(g, data, data1, [c], 0, 0, 0, a);
    SlotReplaced(g, data1, data2, [c], 0, 0, 1, b);
    SameOutsideTrans(g, data, data1, data2, [c], [c], [c]);
    assert data2 == data[i := Overwrite(Overwrite(data[i], 0, a), SLOT, b)];
  }

  lemma ClearedSector(g: Geometry, data: seq<Sector>, c: nat)
    requires ClustersOk(g, [c]) && g.Ok() && g.InRange(c) && |data| == g.Clusters() * g.spc
    requires Bytes(g, data, [c]) == Zeros(ClusterSize(g))
    ensures g.DataIndex(c, 0) < |data| && data[g.DataIndex(c, 0)] == ZeroSector()
  {
    hide Bytes;
    ClusterRead(g, data, c, 0, 0, SECTOR);
    var s := data[g.DataIndex(c, 0)];
    assert s == s[0..SECTOR] == Zeros(ClusterSize(g))[0..SECTOR] == ZeroSector();
  }

  // A new directory on the disk.
  lemma NewDirectory(g: Geometry, data0: seq<Sector>, data: seq<Sector>, c: nat, parent: nat, a: Slot, b: Slot,
                     sec: Sector)
    requires g.Ok() && g.InRange(c) && ClustersOk(g, [c]) && SameOutside(g, data0, data, [c])
    requires Bytes(g, data, [c]) == Zeros(ClusterSize(g)) && parent < 0x1_0000_0000 && c < 0x1_0000_0000
    requires a == Entry83(DotName(1), ATTR_DIRECTORY, c) && b == Entry83(DotName(2), ATTR_DIRECTORY, parent)
    requires sec == Overwrite(Overwrite(ZeroSector(), 0, a), SLOT, b)
    ensures |data| == g.Clusters() * g.spc && g.DataIndex(c, 0) < |data| && PER_SECTOR * g.spc >= 2
    ensures var data' := data[g.DataIndex(c, 0) := sec];
            SameOutside(g, data0, data', [c]) && HeadStored(g, data', [c], Dir(NewSlots(PER_SECTOR * g.spc, c, parent)))
  {
    hide Bytes, SameOutside, Overwrite, DirSlots, Entry83, DotName, ClustersOk;
    SameSizes(g, data0, data, [c]);
    ClearedSector(g, data, c);
    NewDirStored(g, data, c);
    DotsStored(g, data, c, a, b);
    SameOutsideTrans(g, data0, data, data[g.DataIndex(c, 0) := sec], [c], [c], [c]);
  }

  // The volume with one more chain, so far without an entry.
  lemma ChainAdded(g: Geometry, fat: seq<nat>, data: seq<Sector>, data': seq<Sector>, own: Owners,
                   body: map<nat, Body>, c: nat, b: Body)
    requires g.Ok() && |fat| == g.Clusters() + 2 && Stored(g, fat, data, own, body) && g.InRange(c) && fat[c] == FREE
    requires SameOutside(g, data, data', [c]) && HeadStored(g, data', [c], b)
    ensures c !in own && Stored(g, fat[c := EOF_MARK], data', own[c := [c]], body[c := b])
  {
    hide HeadStored, SameOutside, Owned;
    StoredOwned(g, fat, data, own, body);
    NewChain(g, fat, own, c);
    StoredStep(g, fat, fat[c := EOF_MARK], data, data', own, own[c := [c]], body, c, b);
  }

  lemma StoredOwned(g: Geometry, fat: seq<nat>, data: seq<Sector>, own: Owners, body: map<nat, Body>)
    requires Stored(g, fat, data, own, body)
    ensures Owned(fat, own) && body.Keys == own.Keys
  {
  }

  // Taking the chain back restores the table.
  lemma RolledBack(g: Geometry, fat: seq<nat>, data: seq<Sector>, own: Owners, body: map<nat, Body>, c: nat, b: Body)
    requires c !in own && c < |fat| && fat[c] == FREE && Owned(fat, own)
    requires Stored(g, fat[c := EOF_MARK], data, own[c := [c]], body[c := b]) && body.Keys == own.Keys
    ensures fat[c := EOF_MARK][c := FREE] == fat && Stored(g, fat, data, own, body)
  {
    hide HeadStored, Owned;
    assert own[c := [c]] - {c} == own && body[c := b] - {c} == body;
    StoredRemove(g, fat[c := EOF_MARK], fat, data, own[c := [c]], body[c := b], c);
  }

  // A free cluster taken leaves none: there was only that one.
  ghost predicate AtMostOneFree(fat: seq<nat>) {
    forall a, b :: 2 <= a < |fat| && 2 <= b < |fat| && fat[a] == FREE && fat[b] == FREE ==> a == b
  }

  lemma OneFree(fat: seq<nat>, c: nat)
    requires c < |fat| && Full(fat[c := EOF_MARK])
    ensures AtMostOneFree(fat)
  {
    assert forall a :: 2 <= a < |fat| && a != c ==> fat[c := EOF_MARK][a] == fat[a];
  }

  lemma FullOneFree(fat: seq<nat>)
    requires Full(fat)
    ensures AtMostOneFree(fat)
  {
  }
}
