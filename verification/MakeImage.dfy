// The disk image builder: boot sector, tables, two directories, and files laid out one after the other.
module MakeImage {
  import opened Bits
  import opened Counting
  import opened FatTable
  import opened Chains
  import opened Volumes
  import opened FatContent
  import opened FatFile
  import opened FatWrite
  import opened FatName
  import opened FatSlots
  import opened FatWalk
  import opened FatTree
  import opened FatFs
  import opened FatSystem

  // One sector per cluster, two tables of 512 sectors, 65536 sectors in all, root at cluster 2.
  const G: Geometry := Geometry(1, 32, 2, 512, 65536, 2)
  const CLUSTERS: nat := 64480
  const ROOT: nat := 2
  const BIN: nat := 3
  const DIR_SLOTS: nat := 16

  lemma GeometryOk()
    ensures G.Ok() && G.Clusters() == CLUSTERS && G.FirstFat() == 544 && G.FirstData() == 1568
  {
  }

  // ---------- Laying out a file ----------

  // Sector i of a file's data, padded with zeros.
  function Chunk(data: seq<byte>, i: nat): (s: Sector) {
    var rest := if SECTOR * i < |data| then data[SECTOR * i..] else [];
    if |rest| >= SECTOR then rest[..SECTOR] else rest + Zeros(SECTOR - |rest|)
  }

  // How many clusters a file takes: at least one.
  function ClustersFor(size: nat): (n: nat)
    ensures n >= 1 && size <= SECTOR * n
  {
    if size == 0 then 1 else (size + SECTOR - 1) / SECTOR
  }

  // No fewer would do, but for an empty file.
  lemma ClustersNeeded(size: nat)
    ensures ClustersFor(size) == 1 || 512 * (ClustersFor(size) - 1) < size <= 512 * ClustersFor(size)
    ensures size == 0 ==> ClustersFor(size) == 1
  {
  }

  // The table and the data area after the first i clusters of n, from cluster c on.
  ghost function FatLaid(fat: seq<nat>, c: nat, n: nat, i: nat): (r: seq<nat>)
    requires c + i <= |fat|
    ensures |r| == |fat|
  {
    if i == 0 then fat else FatLaid(fat, c, n, i - 1)[c + i - 1 := if i < n then c + i else 0x0FFF_FFFF]
  }

  ghost function DataLaid(d: seq<Sector>, c: nat, data: seq<byte>, i: nat): (r: seq<Sector>)
    requires 2 <= c && c - 2 + i <= |d|
    ensures |r| == |d|
  {
    if i == 0 then d else DataLaid(d, c, data, i - 1)[c - 2 + i - 1 := Chunk(data, i - 1)]
  }

  lemma {:induction false} FatLaidAt(fat: seq<nat>, c: nat, n: nat, i: nat, x: nat)
    requires c + i <= |fat| && i <= n && x < |fat|
    ensures FatLaid(fat, c, n, i)[x] == if c <= x < c + i then (if x + 1 < c + n then x + 1 else EOF_MARK) else fat[x]
  {
    if i > 0 { FatLaidAt(fat, c, n, i - 1, x); }
  }

  lemma {:induction false} DataLaidAt(d: seq<Sector>, c: nat, data: seq<byte>, i: nat, x: nat)
    requires 2 <= c && c - 2 + i <= |d| && x < |d|
    ensures DataLaid(d, c, data, i)[x] == if c - 2 <= x < c - 2 + i then Chunk(data, x - (c - 2)) else d[x]
  {
    if i > 0 { DataLaidAt(d, c, data, i - 1, x); }
  }

  // n clusters in a row.
  ghost function Row(c: nat, n: nat): (cs: seq<nat>)
    ensures |cs| == n
  {
    seq(n, i requires 0 <= i < n => c + i)
  }

  lemma RowHas(c: nat, n: nat, x: nat)
    ensures x in Row(c, n) <==> c <= x < c + n
  {
    if c <= x < c + n { assert Row(c, n)[x - c] == x; }
  }

  // Laying out a file makes one more chain and leaves the others alone.
  lemma RowOwned(fat: seq<nat>, own: Owners, c: nat, n: nat)
    requires Owned(fat, own) && n >= 1 && 2 <= c && c + n <= |fat| <= END_OF_CHAIN
    requires forall x :: c <= x < c + n ==> fat[x] == FREE
    ensures c !in own && Owned(FatLaid(fat, c, n, n), own[c := Row(c, n)])
  {
    hide IsChain, Holds, FatLaid;
    var fat', own' := FatLaid(fat, c, n, n), own[c := Row(c, n)];
    forall x: nat | x < |fat|
      ensures fat'[x] == if c <= x < c + n then (if x + 1 < c + n then x + 1 else EOF_MARK) else fat[x]
    {
      FatLaidAt(fat, c, n, n, x);
    }
    NotHeld(fat, own, c);
    RowChain(fat', c, n);
    forall h | h in own ensures IsChain(fat', own[h]) && forall x :: x in own[h] ==> !(c <= x < c + n) {
      RowApart(fat, own, h, c, n);
      ChainKept(fat, fat', own[h], c, n);
    }
    forall x: nat | 2 <= x < |fat'| ensures fat'[x] != FREE <==> Holds(own', x) { RowHolds(fat, own, c, n, x); }
  }

  lemma RowChain(fat: seq<nat>, c: nat, n: nat)
    requires n >= 1 && 2 <= c && c + n <= |fat|
    requires forall x :: c <= x < c + n ==> fat[x] == if x + 1 < c + n then x + 1 else EOF_MARK
    ensures IsChain(fat, Row(c, n))
  {
  }

  lemma RowApart(fat: seq<nat>, own: Owners, h: nat, c: nat, n: nat)
    requires Owned(fat, own) && h in own && 2 <= c && c + n <= |fat| && forall x :: c <= x < c + n ==> fat[x] == FREE
    ensures forall x :: x in own[h] ==> !(c <= x < c + n)
  {
    forall x | x in own[h] ensures !(c <= x < c + n) { ChainNonzero(fat, own[h], x); }
  }

  lemma ChainKept(fat: seq<nat>, fat': seq<nat>, cs: seq<nat>, c: nat, n: nat)
    requires IsChain(fat, cs) && |fat'| == |fat| && forall x :: x in cs ==> !(c <= x < c + n)
    requires forall x :: 0 <= x < |fat| && !(c <= x < c + n) ==> fat'[x] == fat[x]
    ensures IsChain(fat', cs)
  {
    assert forall i :: 0 <= i < |cs| ==> cs[i] in cs;
  }

  lemma RowHolds(fat: seq<nat>, own: Owners, c: nat, n: nat, x: nat)
    requires Owned(fat, own) && c !in own && 2 <= x < |fat|
    ensures Holds(own[c := Row(c, n)], x) <==> (c <= x < c + n) || fat[x] != FREE
  {
    hide IsChain, AllChains, Apart;
    var own' := own[c := Row(c, n)];
    if c <= x < c + n { assert Row(c, n)[x - c] == x; HoldsAt(own', c, x); }
    if Holds(own, x) { var h :| h in own && x in own[h]; HoldsAt(own', h, x); }
    if Holds(own', x) && !(c <= x < c + n) { var h :| h in own' && x in own'[h]; HoldsAt(own, h, x); }
  }

  // ---------- The bytes of the file ----------

  lemma RowOk(c: nat, n: nat)
    requires 2 <= c && c + n <= CLUSTERS + 2
    ensures ClustersOk(G, Row(c, n)) && G.Clusters() * G.spc == CLUSTERS && n * G.spc == n
  {
    GeometryOk();
  }

  lemma RowBytes(d: seq<Sector>, c: nat, n: nat, data: seq<byte>)
    requires |d| == CLUSTERS && 2 <= c && c + n <= CLUSTERS + 2 && |data| <= SECTOR * n
    ensures ClustersOk(G, Row(c, n)) && G.Clusters() * G.spc == CLUSTERS
    ensures Bytes(G, DataLaid(d, c, data, n), Row(c, n)) == data + Zeros(SECTOR * n - |data|)
  {
    hide Contents, DataLaid, Chunk, Flat;
    RowOk(c, n);
    var d' := DataLaid(d, c, data, n);
    var f := Flat(G, d', Row(c, n));
    forall j: nat | j < n ensures f[j] == Chunk(data, j) {
      FlatAt(G, d', Row(c, n), j, 0);
      DataLaidAt(d, c, data, n, c - 2 + j);
    }
    var x, y := Contents(f), data + Zeros(SECTOR * n - |data|);
    forall p: nat | p < |x| ensures x[p] == y[p] {
      ContentsAt(f, p / SECTOR, p % SECTOR);
      ChunkAt(data, p / SECTOR, p % SECTOR, p);
    }
    assert x == y;
  }

  lemma ChunkAt(data: seq<byte>, j: nat, o: nat, p: nat)
    requires o < SECTOR && p == SECTOR * j + o
    ensures Chunk(data, j)[o] == if p < |data| then data[p] else 0
  {
  }

  lemma RowFile(d: seq<Sector>, c: nat, n: nat, data: seq<byte>)
    requires |d| == CLUSTERS && 2 <= c && c + n <= CLUSTERS + 2 && |data| <= SECTOR * n && |data| < 0x1_0000_0000
    ensures HeadStored(G, DataLaid(d, c, data, n), Row(c, n), File(data))
  {
    hide Bytes, DataLaid;
    RowOk(c, n);
    RowBytes(d, c, n, data);
  }

  // Clusters before the row keep their bytes.
  lemma LaidOutside(d: seq<Sector>, c: nat, n: nat, data: seq<byte>)
    requires |d| == CLUSTERS && 2 <= c && c + n <= CLUSTERS + 2
    ensures SameOutside(G, d, DataLaid(d, c, data, n), Row(c, n))
  {
    hide DataLaid;
    GeometryOk();
    forall x: nat, s: nat | G.InRange(x) && s < G.spc && x !in Row(c, n) && G.DataIndex(x, s) < |d|
      ensures DataLaid(d, c, data, n)[G.DataIndex(x, s)] == d[G.DataIndex(x, s)]
    {
      RowHas(c, n, x);
      DataLaidAt(d, c, data, n, G.DataIndex(x, s));
    }
  }

  // ---------- The image being built ----------

  // The boot sector: the fields that describe the layout, then labels and the signature.
  function BootHead(): (h: seq<byte>)
    ensures |h| == 48
  {
    [ 0xEB, 0x58, 0x90, 0x5A, 0x45, 0x52, 0x55, 0x58, 0x4F, 0x53, 0x20, 0 ] + [ 2, 1, 32, 0 ] +
    [ 2, 0, 0, 0, 0, 0xF8, 0, 0, 63, 0, 255, 0, 0, 1, 0, 0 ] +
    [ 0, 0, 1, 0, 0, 2, 0, 0, 0, 0, 0, 0, 2, 0, 0, 0 ]
  }

  function BootTail(): (r: seq<byte>)
    ensures |r| == 464
  {
    [ 1, 0, 6, 0 ] + Zeros(14) +
    [ 0x29, 0x78, 0x56, 0x34, 0x12, 0x5A, 0x45, 0x52, 0x55, 0x58, 0x20, 0x44, 0x49, 0x53, 0x4B, 0x20,
      0x46, 0x41, 0x54, 0x33, 0x32, 0x20, 0x20, 0x20 ] + Zeros(420) + [ 0x55, 0xAA ]
  }

  function BootSector(): Sector { BootHead() + BootTail() }

  // A number of two bytes in a sector, lowest first, and a label.
  ghost function Get16(s: seq<byte>, o: nat): nat
    requires o + 2 <= |s|
  {
    s[o] as int + 0x100 * s[o + 1] as int
  }

  ghost predicate Label(s: seq<byte>, o: nat, w: string) {
    o + |w| <= |s| && forall i :: 0 <= i < |w| ==> s[o + i] as int == w[i] as int
  }

  // The fields of the BIOS parameter block, by offset and width, up to the root directory's cluster ...
  lemma BootFields()
    ensures var s := BootSector();
            && s[0] == 0xEB && s[1] == 0x58 && s[2] == 0x90 && Label(s, 3, "ZERUXOS ")
            && Get16(s, 11) == 512 && s[13] == 1 && Get16(s, 14) == 32 && s[16] == 2
            && Get16(s, 17) == 0 && Get16(s, 19) == 0 && s[21] == 0xF8 && Get16(s, 22) == 0
            && Get16(s, 24) == 63 && Get16(s, 26) == 255 && Get32(s, 28) == 256
            && Get32(s, 32) == 65536 && Get32(s, 36) == 512 && Get16(s, 40) == 0 && Get16(s, 42) == 0
            && Get32(s, 44) == 2
  {
    hide BootHead, BootTail;
    HeadFields();
    HeadLabel();
    assert forall i :: 0 <= i < 48 ==> BootSector()[i] == BootHead()[i];
  }

  lemma HeadFields()
    ensures var h := BootHead();
            && h[0] == 0xEB && h[1] == 0x58 && h[2] == 0x90
            && Get16(h, 11) == 512 && h[13] == 1 && Get16(h, 14) == 32 && h[16] == 2
            && Get16(h, 17) == 0 && Get16(h, 19) == 0 && h[21] == 0xF8 && Get16(h, 22) == 0
            && Get16(h, 24) == 63 && Get16(h, 26) == 255 && Get32(h, 28) == 256
            && Get32(h, 32) == 65536 && Get32(h, 36) == 512 && Get16(h, 40) == 0 && Get16(h, 42) == 0
            && Get32(h, 44) == 2
  {
  }

  lemma HeadLabel()
    ensures Label(BootHead(), 3, "ZERUXOS ")
  {
  }

  // ... and from there on: information sector, backup, labels and signature, and zeros between them.
  lemma BootLabels()
    ensures var s := BootSector();
            && Get16(s, 48) == 1 && Get16(s, 50) == 6 && (forall i :: 52 <= i < 66 ==> s[i] == 0)
            && s[66] == 0x29 && Get32(s, 67) == 0x1234_5678 && Label(s, 71, "ZERUX DISK ") && Label(s, 82, "FAT32   ")
            && (forall i :: 90 <= i < 510 ==> s[i] == 0) && s[510] == 0x55 && s[511] == 0xAA
  {
    hide BootHead, BootTail;
    TailFields();
    TailLabels();
    assert forall i :: 48 <= i < 512 ==> BootSector()[i] == BootTail()[i - 48];
  }

  lemma TailFields()
    ensures var r := BootTail();
            && Get16(r, 0) == 1 && Get16(r, 2) == 6 && (forall i :: 4 <= i < 18 ==> r[i] == 0)
            && r[18] == 0x29 && Get32(r, 19) == 0x1234_5678
            && (forall i :: 42 <= i < 462 ==> r[i] == 0) && r[462] == 0x55 && r[463] == 0xAA
  {
  }

  lemma TailLabels()
    ensures Label(BootTail(), 23, "ZERUX DISK ") && Label(BootTail(), 34, "FAT32   ")
  {
  }

  // Reading it back gives the layout.
  lemma BootParses()
    ensures BootGeometry(BootSector()) == G
  {
    hide BootTail, BootHead, Get32;
    var s, h := BootSector(), BootHead();
    HeadParses();
    assert forall i :: 0 <= i < 48 ==> s[i] == h[i];
    Get32Same(s[..48], h, 32);
    Get32Same(s[..48], h, 36);
    Get32Same(s[..48], h, 44);
    SlicePrefix(s, 32);
    SlicePrefix(s, 36);
    SlicePrefix(s, 44);
  }

  lemma HeadParses()
    ensures var h := BootHead();
            && h[13] == 1 && h[14] == 32 && h[15] == 0 && h[16] == 2
            && Get32(h, 36) == 512 && Get32(h, 32) == 65536 && Get32(h, 44) == 2
  {
  }

  lemma SlicePrefix(s: Sector, o: nat)
    requires o + 4 <= 48
    ensures Get32(s, o) == Get32(s[..48], o)
  {
  }

  // The fields fat32_init reads from the boot sector.
  function BootGeometry(s: Sector): Geometry {
    Geometry(s[13] as nat, s[14] as nat + 0x100 * s[15] as nat, s[16] as nat, Get32(s, 36), Get32(s, 32), Get32(s, 44))
  }

  // Each field of the layout comes from its own bytes, whatever the boot sector.
  lemma GeometryFields(s: Sector)
    ensures var g := BootGeometry(s);
            && g.spc == s[13] as int && g.reserved == Get16(s, 14) && g.numFats == s[16] as int
            && g.fatSize == Get32(s, 36) && g.totalSectors == Get32(s, 32) && g.root == Get32(s, 44)
  {
  }

  ghost predicate Boots(disk: seq<Sector>) { VOLUME_START < |disk| && disk[VOLUME_START] == BootSector() }

  // The boot sector is there, and from cluster c on nothing is used: table entries and data are zero.
  ghost predicate Untouched(disk: seq<Sector>, c: nat) {
    && OnDisk(G, disk) && Boots(disk) && |DataOf(G, disk)| == CLUSTERS
    && (forall x: nat :: c <= x < CLUSTERS + 2 ==> RawZero(disk, x))
    && (forall x: nat :: c <= x + 2 && x < CLUSTERS ==> DataOf(G, disk)[x] == ZeroSector())
  }

  ghost predicate RawZero(disk: seq<Sector>, x: nat) {
    G.FirstFat() + EntrySector(x) < |disk| && RawEntry(G, disk, x) == 0
  }

  // The two calls of pack_into that write an entry to both tables.
  method PutEntry(disk: array<Sector>, c: nat, v: nat)
    requires OnDisk(G, disk[..]) && Mirrored(G, disk[..]) && c < CLUSTERS + 2 && v < LOW28 && RawZero(disk[..], c)
    modifies disk
    ensures G.Ok() && c < G.Clusters() + 2 && OnDisk(G, old(disk[..]))
    ensures disk[..] == DiskWithEntry(G, old(disk[..]), c, v)
  {
    hide Mirrored;
    ghost var was := disk[..];
    GeometryOk();
    EntryInTable(G, was, c);
    MirrorFits(G, was);
    SameCopy(was, G.FirstFat() + EntrySector(c));
    var i, o := G.FirstFat() + EntrySector(c), EntryOffset(c);
    RawSet(was[i], o, v);
    disk[i] := Put32(disk[i], o, v);
    disk[i + G.fatSize] := Put32(disk[i + G.fatSize], o, v);
  }

  lemma SameCopy(disk: seq<Sector>, i: nat)
    requires OnDisk(G, disk) && Mirrored(G, disk) && G.FirstFat() <= i < G.FirstFat() + G.fatSize
    ensures i + G.fatSize < |disk| && disk[i + G.fatSize] == disk[i]
  {
  }

  // On an entry that is zero, replacing its low 28 bits is writing all of it.
  lemma RawSet(s: Sector, o: nat, v: nat)
    requires o + 4 <= SECTOR && v < LOW28 && Get32(s, o) == 0
    ensures SetEntry(s, o, v) == Put32(s, o, v)
  {
  }

  lemma LowKept(disk: seq<Sector>, c: nat, v: nat)
    requires OnDisk(G, disk) && c < CLUSTERS + 2
    ensures G.Ok() && G.Clusters() == CLUSTERS && |DiskWithEntry(G, disk, c, v)| == |disk| && VOLUME_START < |disk|
    ensures DiskWithEntry(G, disk, c, v)[VOLUME_START] == disk[VOLUME_START]
  {
    hide SetEntry, EntrySector, EntryOffset;
    GeometryOk();
    EntryInTable(G, disk, c);
    MirrorFits(G, disk);
  }

  // What writing an entry does to the image.
  lemma EntryPut(disk: seq<Sector>, c: nat, v: nat)
    requires OnDisk(G, disk) && Mirrored(G, disk) && c < CLUSTERS + 2 && v < LOW28 && Untouched(disk, c)
    ensures G.Ok() && G.Clusters() == CLUSTERS
    ensures var disk' := DiskWithEntry(G, disk, c, v);
            && OnDisk(G, disk') && Mirrored(G, disk') && FatOf(G, disk') == FatOf(G, disk)[c := v]
            && DataOf(G, disk') == DataOf(G, disk) && Boots(disk')
            && forall x: nat :: c < x < CLUSTERS + 2 ==> RawZero(disk', x)
  {
    hide DiskWithEntry, RawEntry, EntrySector, Mirrored, FatOf, DataOf, BootSector;
    GeometryOk();
    LowKept(disk, c, v);
    EntryWritten(G, disk, c, v);
    forall x: nat | c < x < CLUSTERS + 2 ensures RawZero(DiskWithEntry(G, disk, c, v), x) {
      assert RawZero(disk, x);
      RawEntryWritten(G, disk, c, v, x);
    }
  }

  // The first i of n clusters of a file are on the disk.
  ghost predicate Laid(was: seq<Sector>, disk: seq<Sector>, c: nat, n: nat, data: seq<byte>, i: nat) {
    && OnDisk(G, was) && OnDisk(G, disk) && Mirrored(G, disk)
    && |FatOf(G, was)| == CLUSTERS + 2 && |DataOf(G, was)| == CLUSTERS
    && 2 <= c && i <= n && c + n <= CLUSTERS + 2 && Untouched(disk, c + i)
    && FatOf(G, disk) == FatLaid(FatOf(G, was), c, n, i)
    && DataOf(G, disk) == DataLaid(DataOf(G, was), c, data, i)
  }

  lemma LaidStart(disk: seq<Sector>, c: nat, n: nat, data: seq<byte>)
    requires OnDisk(G, disk) && Mirrored(G, disk) && Untouched(disk, c) && 2 <= c && c + n <= CLUSTERS + 2
    ensures Laid(disk, disk, c, n, data, 0)
  {
    hide Mirrored, FatOf, DataOf, Untouched;
    GeometryOk();
  }

  lemma LaidStep(was: seq<Sector>, disk: seq<Sector>, c: nat, n: nat, data: seq<byte>, i: nat)
    requires Laid(was, disk, c, n, data, i) && i < n
    ensures G.Ok() && OnDisk(G, disk) && c + i < CLUSTERS + 2 == G.Clusters() + 2
    ensures G.FirstData() + (c + i - 2) < |disk|
    ensures var v := if i < n - 1 then c + i + 1 else EOF_MARK;
            var disk1 := DiskWithEntry(G, disk, c + i, v);
            && |disk1| == |disk| && disk1[G.FirstData() + (c + i - 2)] == ZeroSector()
            && Laid(was, disk1[G.FirstData() + (c + i - 2) := Chunk(data, i)], c, n, data, i + 1)
  {
    hide DiskWithEntry, Mirrored, FatOf, DataOf, Chunk, RawZero, EntrySector, BootSector;
    GeometryOk();
    var v := if i < n - 1 then c + i + 1 else EOF_MARK;
    UntouchedPart(disk, c + i);
    EntryPut(disk, c + i, v);
    var disk1 := DiskWithEntry(G, disk, c + i, v);
    DiskSize(G, disk, c + i, v);
    DataWritten(G, disk1, c + i - 2, Chunk(data, i));
    DataIs(G, disk1);
    assert DataOf(G, disk1)[c + i - 2] == disk1[G.FirstData() + (c + i - 2)];
    var disk2 := disk1[G.FirstData() + (c + i - 2) := Chunk(data, i)];
    forall x: nat | c + i < x < CLUSTERS + 2 ensures RawZero(disk2, x) {
      RawKept(disk1, G.FirstData() + (c + i - 2), Chunk(data, i), x);
    }
  }

  lemma UntouchedPart(disk: seq<Sector>, c: nat)
    requires Untouched(disk, c) && 2 <= c < CLUSTERS + 2
    ensures OnDisk(G, disk) && |DataOf(G, disk)| == CLUSTERS && DataOf(G, disk)[c - 2] == ZeroSector()
    ensures RawZero(disk, c)
  {
    hide DataOf;
    var x := c - 2;
    assert c <= x + 2 && x < CLUSTERS;
  }

  lemma RawKept(disk: seq<Sector>, k: nat, b: Sector, x: nat)
    requires OnDisk(G, disk) && G.FirstData() <= k < |disk| && x < CLUSTERS + 2 && RawZero(disk, x)
    ensures RawZero(disk[k := b], x)
  {
    hide EntrySector, EntryOffset, Get32;
    GeometryOk();
    EntryInTable(G, disk, x);
  }

  // The loop of add_file: table entries and data, cluster by cluster.
  method LayFile(disk: array<Sector>, c: nat, n: nat, data: seq<byte>)
    requires OnDisk(G, disk[..]) && Mirrored(G, disk[..]) && Untouched(disk[..], c) && 2 <= c && c + n <= CLUSTERS + 2
    modifies disk
    ensures Laid(old(disk[..]), disk[..], c, n, data, n)
  {
    hide *;
    ghost var was := disk[..];
    LayoutIs();
    MarksFit();
    LaidStart(was, c, n, data);
    var i := 0;
    while i < n
      invariant 0 <= i <= n && Laid(was, disk[..], c, n, data, i)
    {
      ghost var now := disk[..];
      LaidStep(was, now, c, n, data, i);
      LaidFacts(was, now, c, n, data, i);
      PutEntry(disk, c + i, if i < n - 1 then c + i + 1 else EOF_MARK);
      var k := VOLUME_START + DATA_START + (c + i - 2);
      ChunkWritten(data, i);
      var chunk := data[Clamp(SECTOR * i, |data|)..Clamp(SECTOR * i + SECTOR, |data|)];
      disk[k] := Overwrite(disk[k], 0, chunk);
      assert disk[..] == DiskWithEntry(G, now, c + i, if i < n - 1 then c + i + 1 else EOF_MARK)[k := Chunk(data, i)];
      i := i + 1;
    }
  }

  // A slice bound beyond the end means the end.
  function Clamp(i: nat, n: nat): (r: nat)
    ensures r <= n && r <= i
  {
    if i < n then i else n
  }

  lemma ChunkWritten(data: seq<byte>, i: nat)
    ensures Clamp(SECTOR * i, |data|) <= Clamp(SECTOR * i + SECTOR, |data|)
    ensures var b := data[Clamp(SECTOR * i, |data|)..Clamp(SECTOR * i + SECTOR, |data|)];
            |b| <= SECTOR && Overwrite(ZeroSector(), 0, b) == Chunk(data, i)
  {
  }

  lemma LaidFacts(was: seq<Sector>, disk: seq<Sector>, c: nat, n: nat, data: seq<byte>, i: nat)
    requires Laid(was, disk, c, n, data, i)
    ensures OnDisk(G, disk) && Mirrored(G, disk) && c + n <= CLUSTERS + 2 && 2 <= c
    ensures i < n ==> RawZero(disk, c + i)
    ensures Untouched(disk, c + i)
  {
  }

  // ---------- Directory entries ----------

  // The entry the builder writes; unlike the driver's it carries no dates.
  function ImageEntry(name: seq<byte>, attr: byte, c: nat, size: nat): (s: Slot)
    requires |name| == 11 && c < 0x1_0000_0000 && size < 0x1_0000_0000
    ensures s[..11] == name && Attr(s) == attr && ClusterOf(s) == c && SizeOf(s) == size
  {
    Resized(name + [attr] + Zeros(20), size, c)
  }

  // What a directory of the image calls a padded name.
  function Shown(name: seq<byte>): seq<byte>
    requires |name| == 11
  {
    Upper(UpToNul(Parse83(name)))
  }

  predicate PlainName(name: seq<byte>) { |name| == 11 && name[0] !in {0, DELETED, DOT} }

  lemma ImageEntryIs(name: seq<byte>, attr: byte, c: nat, size: nat)
    requires PlainName(name) && c < 0x1_0000_0000 && size < 0x1_0000_0000 && attr in {ATTR_DIRECTORY, ATTR_ARCHIVE}
    ensures var e := ImageEntry(name, attr, c, size);
            && Refers(e) && NameOf(e) == Shown(name) && (IsDirectory(e) <==> attr == ATTR_DIRECTORY)
            && ATTR_DIRECTORY != ATTR_ARCHIVE
  {
    hide NameOf, ImageEntry, ClusterOf, SizeOf, UpToNul, Parse83, Upper;
    var e := ImageEntry(name, attr, c, size);
    assert e[0] == e[..11][0];
    NameIs(e);
  }

  // The first n slots are taken, the rest are zero.
  ghost predicate Filled(slots: seq<Slot>, n: nat) {
    && |slots| == DIR_SLOTS && n <= DIR_SLOTS
    && (forall i :: 0 <= i < n ==> !Free(slots[i]))
    && (forall i :: n <= i < DIR_SLOTS ==> slots[i] == Zeros(SLOT))
  }

  lemma FilledPlaced(slots: seq<Slot>, n: nat, e: Slot)
    requires Filled(slots, n) && n < DIR_SLOTS && !Free(e)
    ensures Placed(slots, slots[n := e], n, e) && Filled(slots[n := e], n + 1)
  {
    assert slots + ZeroSlots(0) == slots;
  }

  // A directory of one cluster whose first n slots are taken.
  ghost predicate DirPart(t: Tree, d: nat, n: nat) {
    d in t.own && t.own[d] == [d] && IsDir(t, d) && d in t.depth && Filled(t.body[d].slots, n)
  }

  // ---------- The invariant of the builder ----------

  // These chains are on the disk, and from cluster c on nothing is.
  ghost predicate Ready(disk: seq<Sector>, own: Owners, body: map<nat, Body>, c: nat) {
    && OnDisk(G, disk) && Mirrored(G, disk) && Untouched(disk, c) && 4 <= c <= CLUSTERS + 2
    && Stored(G, FatOf(G, disk), DataOf(G, disk), own, body)
  }

  lemma ReadyFacts(disk: seq<Sector>, own: Owners, body: map<nat, Body>, c: nat)
    requires Ready(disk, own, body, c)
    ensures OnDisk(G, disk) && Mirrored(G, disk) && Untouched(disk, c) && 4 <= c <= CLUSTERS + 2
    ensures Stored(G, FatOf(G, disk), DataOf(G, disk), own, body)
  {
  }

  lemma MakeReady(disk: seq<Sector>, own: Owners, body: map<nat, Body>, c: nat)
    requires OnDisk(G, disk) && Mirrored(G, disk) && Untouched(disk, c) && 4 <= c <= CLUSTERS + 2
    requires Stored(G, FatOf(G, disk), DataOf(G, disk), own, body)
    ensures Ready(disk, own, body, c)
  {
  }

  ghost predicate Built(disk: seq<Sector>, t: Tree, current: nat, rootIdx: nat, binIdx: nat) {
    && Ready(disk, t.own, t.body, current) && Shape(ROOT, t)
    && DirPart(t, ROOT, rootIdx) && DirPart(t, BIN, binIdx) && 1 <= rootIdx && 2 <= binIdx && Starts(t)
  }

  // The entries of the empty image are in their places.
  ghost predicate Starts(t: Tree) {
    && IsDir(t, ROOT) && IsDir(t, BIN) && |t.body[ROOT].slots| == |t.body[BIN].slots| == DIR_SLOTS
    && t.body[ROOT].slots[0] == BinEntry() && t.body[BIN].slots[0] == DotIn(1) && t.body[BIN].slots[1] == DotIn(2)
  }

  // The invariant that does not depend on room in the directories: each is one cluster long, and as
  // every entry came with a cluster at least, the next entry goes to a cluster already in use.
  ghost predicate Tidy(disk: seq<Sector>, current: nat, rootIdx: nat, binIdx: nat) {
    && Orderly(disk, current) && 1 <= rootIdx && 2 <= binIdx && rootIdx + binIdx < current
    && |FatOf(G, disk)| == CLUSTERS + 2 && IsEnd(FatOf(G, disk)[ROOT]) && IsEnd(FatOf(G, disk)[BIN])
  }

  lemma FreeAbove(disk: seq<Sector>, c: nat)
    requires Untouched(disk, c)
    ensures |FatOf(G, disk)| == CLUSTERS + 2 && forall x :: c <= x < CLUSTERS + 2 ==> FatOf(G, disk)[x] == FREE
  {
    hide DataOf, EntrySector, EntryOffset, Get32;
    GeometryOk();
    forall x: nat | c <= x < CLUSTERS + 2 ensures FatOf(G, disk)[x] == FREE {
      assert RawZero(disk, x); EntryInTable(G, disk, x);
    }
  }

  // The data and the chain of the new file are on the disk, its entry not yet.
  lemma FileLaid(was: seq<Sector>, disk: seq<Sector>, own: Owners, body: map<nat, Body>, c: nat, n: nat,
                 data: seq<byte>)
    requires Laid(was, disk, c, n, data, n) && Untouched(was, c) && n >= 1 && |data| <= SECTOR * n
    requires |data| < 0x1_0000_0000
    requires Stored(G, FatOf(G, was), DataOf(G, was), own, body)
    ensures OnDisk(G, disk) && Mirrored(G, disk) && Untouched(disk, c + n) && c !in own
    ensures Stored(G, FatOf(G, disk), DataOf(G, disk), own[c := Row(c, n)], body[c := File(data)])
  {
    hide Stored, FatOf, DataOf, Mirrored, Untouched, HeadStored, FatLaid, DataLaid, Row, Owned, SameOutside;
    var fat, d := FatOf(G, was), DataOf(G, was);
    StoredOwned(G, fat, d, own, body);
    FreeAbove(was, c);
    EndIs();
    RowOwned(fat, own, c, n);
    RowFile(d, c, n, data);
    LaidOutside(d, c, n, data);
    StoredStep(G, fat, FatOf(G, disk), d, DataOf(G, disk), own, own[c := Row(c, n)], body, c, File(data));
  }

  lemma EndIs()
    ensures CLUSTERS + 2 <= END_OF_CHAIN
  {
  }

  // A slot of a one-cluster directory overwritten on the disk.
  lemma SlotWritten(disk: seq<Sector>, own: Owners, body: map<nat, Body>, d: nat, k: nat, e: Slot)
    requires OnDisk(G, disk) && Mirrored(G, disk) && Stored(G, FatOf(G, disk), DataOf(G, disk), own, body)
    requires d in own && own[d] == [d] && d in body && body[d].Dir? && k < DIR_SLOTS && |body[d].slots| == DIR_SLOTS
    ensures 2 <= d < CLUSTERS + 2 && G.FirstData() + (d - 2) < |disk|
    ensures Keeps(SlotDisk(disk, d, k, e), own, WithEntry(body, d, k, e))
  {
    hide Stored, FatOf, DataOf, Mirrored, HeadStored, Owned, SameOutside, Overwrite, DirSlots, Bytes, ClustersOk;
    GeometryOk();
    var data := DataOf(G, disk);
    StoredDir(G, FatOf(G, disk), data, own, body, d);
    OneCluster(d);
    var j := G.DataIndex(d, 0);
    DataIs(G, disk);
    assert data[j] == disk[G.FirstData() + j];
    DataWritten(G, disk, j, Overwrite(data[j], SLOT * k, e));
    ClusterWrite(G, data, d, 0, SLOT * k, e);
    var data' := data[j := Overwrite(data[j], SLOT * k, e)];
    DistinctOne(d);
    SlotReplaced(G, data, data', [d], 0, 0, k, e);
    DirStored(G, data', [d], body[d].slots[k := e]);
    SameOwner(own, d);
    StoredStep(G, FatOf(G, disk), FatOf(G, disk), data, data', own, own, body, d, Dir(body[d].slots[k := e]));
    WithEntryIs(body, d, k, e);
  }

  // The disk holds these chains, and its tables agree.
  ghost predicate Keeps(disk: seq<Sector>, own: Owners, body: map<nat, Body>) {
    OnDisk(G, disk) && Mirrored(G, disk) && Stored(G, FatOf(G, disk), DataOf(G, disk), own, body)
  }

  lemma KeepsFacts(disk: seq<Sector>, own: Owners, body: map<nat, Body>)
    requires Keeps(disk, own, body)
    ensures OnDisk(G, disk) && Mirrored(G, disk) && Stored(G, FatOf(G, disk), DataOf(G, disk), own, body)
  {
  }

  // Where entry k of directory d goes: sixteen entries to a sector, and the sectors of the clusters
  // from d on.
  function EntryCluster(d: nat, k: nat): nat { d + k / DIR_SLOTS }

  // The disk with entry e put there.
  ghost function SlotDisk(disk: seq<Sector>, d: nat, k: nat, e: Slot): seq<Sector> {
    var i := VOLUME_START + DATA_START + EntryCluster(d, k) - 2;
    if d >= 2 && i < |disk| then disk[i := Overwrite(disk[i], SLOT * (k % DIR_SLOTS), e)] else disk
  }

  ghost function WithSlot(data: seq<Sector>, d: nat, k: nat, e: Slot): (r: seq<Sector>)
    requires d >= 2
    ensures |r| == |data|
  {
    var i := EntryCluster(d, k) - 2;
    if i < |data| then data[i := Overwrite(data[i], SLOT * (k % DIR_SLOTS), e)] else data
  }

  lemma OneCluster(d: nat)
    requires ClustersOk(G, [d])
    ensures G.Ok() && G.InRange(d) && 2 <= d < CLUSTERS + 2 && G.DataIndex(d, 0) == d - 2
  {
    GeometryOk();
    assert [d][0] == d;
  }

  lemma DistinctOne(d: nat)
    ensures Distinct([d])
  {
  }

  // Only the sector of directory d differs.
  ghost predicate SlotPut(was: seq<Sector>, disk: seq<Sector>, d: nat) {
    && OnDisk(G, was) && OnDisk(G, disk) && |disk| == |was| && 2 <= d < CLUSTERS + 2
    && |DataOf(G, was)| == |DataOf(G, disk)| == CLUSTERS
    && (forall j :: 0 <= j < G.FirstData() ==> disk[j] == was[j])
    && (forall x :: 0 <= x < CLUSTERS && x != d - 2 ==> DataOf(G, disk)[x] == DataOf(G, was)[x])
  }

  lemma UntouchedLater(was: seq<Sector>, disk: seq<Sector>, c: nat, d: nat)
    requires Untouched(was, c) && SlotPut(was, disk, d) && d < c
    ensures Untouched(disk, c)
  {
    hide DataOf, RawZero;
    forall x: nat | c <= x < CLUSTERS + 2 ensures RawZero(disk, x) { RawSame(was, disk, x); }
  }

  lemma RawSame(was: seq<Sector>, disk: seq<Sector>, x: nat)
    requires OnDisk(G, was) && OnDisk(G, disk) && |disk| == |was| && x < CLUSTERS + 2 && RawZero(was, x)
    requires forall j :: 0 <= j < G.FirstData() ==> disk[j] == was[j]
    ensures RawZero(disk, x)
  {
    hide EntrySector, EntryOffset, Get32;
    GeometryOk();
    EntryInTable(G, was, x);
  }

  const TOTAL: nat := 65536
  const DATA_START: nat := 1056

  lemma LayoutIs()
    ensures CLUSTERS + 2 < LOW28 && SECTOR == 512
    ensures TOTAL - DATA_START == CLUSTERS && VOLUME_START + DATA_START == G.FirstData() && G.Ok()
    ensures G.Clusters() == CLUSTERS
    ensures ROOT == 2 && BIN == 3 && CLUSTERS + 2 < 0x1_0000_0000 && DIR_SLOTS == 16 && ROOT != BIN
  {
    GeometryOk();
  }

  lemma MakeBuilt(disk: seq<Sector>, t: Tree, current: nat, rootIdx: nat, binIdx: nat)
    requires Ready(disk, t.own, t.body, current) && Shape(ROOT, t)
    requires DirPart(t, ROOT, rootIdx) && DirPart(t, BIN, binIdx) && 1 <= rootIdx && 2 <= binIdx && Starts(t)
    ensures Built(disk, t, current, rootIdx, binIdx)
  {
  }

  // Where the next entry of directory d goes.
  lemma DirPartFacts(t: Tree, d: nat, n: nat)
    requires DirPart(t, d, n)
    ensures d in t.own && t.own[d] == [d] && IsDir(t, d) && d in t.depth && d in t.body && t.body[d].Dir?
    ensures |t.body[d].slots| == DIR_SLOTS && Filled(t.body[d].slots, n) && n <= DIR_SLOTS
  {
  }

  // The tree with the new file's entry in slot k of directory d; o is the other directory.
  lemma AddedTree(t: Tree, d: nat, k: nat, o: nat, m: nat, e: Slot, c: nat, row: seq<nat>, data: seq<byte>)
    requires Shape(ROOT, t) && DirPart(t, d, k) && DirPart(t, o, m) && d != o && k < DIR_SLOTS && c !in t.own
    requires Refers(e) && ClusterOf(e) == c && !IsDirectory(e) && SizeOf(e) == |data| && NameOf(e) !in MapAt(t, d)
    ensures var slots' := t.body[d].slots[k := e];
            var t' := Entered(t, d, slots', k, c, t.own[c := row], File(data));
            && Shape(ROOT, t') && DirPart(t', d, k + 1) && DirPart(t', o, m)
            && IsDir(t', d) && MapAt(t', d) == MapAt(t, d)[NameOf(e) := c]
            && t'.own == t.own[c := row] && t'.body == t.body[d := t'.body[d]][c := File(data)]
            && t'.body == WithEntry(t.body[c := File(data)], d, k, e) && c !in t.body
  {
    hide *;
    DirPartFacts(t, d, k);
    DirPartFacts(t, o, m);
    var slots := t.body[d].slots;
    RefersLive(e);
    LiveNotFree(e);
    FilledPlaced(slots, k, e);
    ShapeDir(ROOT, t, d);
    ShapeKeys(ROOT, t);
    MapFresh(ROOT, t, d, e);
    FileEntry(e, data, d, c);
    EnteredShape(ROOT, t, d, slots[k := e], k, e, c, t.own[c := row], File(data));
    EnteredMap(ROOT, t, d, slots[k := e], k, e, c, t.own[c := row], File(data));
    NotNew(t.own, c, d);
    WithEntryIs(t.body[c := File(data)], d, k, e);
    AddedParts(t, d, slots[k := e], k, o, m, c, row, data);
  }

  lemma LiveNotFree(e: Slot)
    requires Live(e)
    ensures !Free(e)
  {
  }

  lemma FileEntry(e: Slot, data: seq<byte>, d: nat, c: nat)
    requires !IsDirectory(e) && SizeOf(e) == |data|
    ensures NewBody(File(data), e, d, c)
  {
  }

  lemma MapFresh(root: nat, t: Tree, d: nat, e: Slot)
    requires Shape(root, t) && IsDir(t, d) && NameOf(e) !in MapAt(t, d)
    ensures forall j :: 0 <= j < |t.body[d].slots| && Live(t.body[d].slots[j]) ==>
              NameOf(t.body[d].slots[j]) != NameOf(e)
  {
    hide Live, NameOf;
    ShapeDir(root, t, d);
    MapHas(t.body[d].slots);
  }

  lemma AddedParts(t: Tree, d: nat, slots': seq<Slot>, k: nat, o: nat, m: nat, c: nat, row: seq<nat>, data: seq<byte>)
    requires DirPart(t, d, k) && DirPart(t, o, m) && d != o && Filled(slots', k + 1) && c !in t.own
    ensures var t' := Entered(t, d, slots', k, c, t.own[c := row], File(data));
            DirPart(t', d, k + 1) && DirPart(t', o, m)
  {
    hide Filled;
  }

  // ---------- Adding files ----------

  // What add_file did to the image: chain and data in clusters c to c + n - 1, the entry as entry k of
  // directory d, wherever that goes.
  ghost predicate FilePut(
    was: seq<Sector>, disk: seq<Sector>, d: nat, k: nat, e: Slot, c: nat, n: nat, data: seq<byte>)
  {
    && Orderly(was, c) && Orderly(disk, c + n) && 2 <= d && 4 <= c && c + n <= CLUSTERS + 2
    && |FatOf(G, was)| == CLUSTERS + 2 && |DataOf(G, was)| == CLUSTERS
    && FatOf(G, disk) == FatLaid(FatOf(G, was), c, n, n)
    && DataOf(G, disk) == WithSlot(DataLaid(DataOf(G, was), c, data, n), d, k, e)
  }

  lemma FilePutTidy(was: seq<Sector>, mid: seq<Sector>, d: nat, k: nat, e: Slot, c: nat, n: nat, data: seq<byte>,
                  rootIdx: nat, binIdx: nat)
    requires Tidy(was, c, rootIdx, binIdx) && n >= 1 && c + n <= CLUSTERS + 2 && Laid(was, mid, c, n, data, n)
    requires (d == ROOT && k == rootIdx) || (d == BIN && k == binIdx)
    ensures 2 <= d && EntryCluster(d, k) < c && Orderly(mid, c + n)
    ensures var disk := SlotDisk(mid, d, k, e);
            && FilePut(was, disk, d, k, e, c, n, data)
            && Tidy(disk, c + n, rootIdx + (if d == ROOT then 1 else 0), binIdx + (if d == BIN then 1 else 0))
  {
    hide FatOf, DataOf, FatLaid, DataLaid, Orderly, SlotDisk, WithSlot, Mirrored, Untouched;
    OrderlyFacts(was, c);
    MakeOrderly(mid, c + n);
    SlotOrderly(mid, d, k, e, c + n);
    OrderlyFacts(SlotDisk(mid, d, k, e), c + n);
    FatLaidAt(FatOf(G, was), c, n, n, ROOT);
    FatLaidAt(FatOf(G, was), c, n, n, BIN);
  }

  // What a file in a directory with room does to the tree.
  ghost predicate Grew(t: Tree, t': Tree, name: seq<byte>, data: seq<byte>, d: nat, c: nat) {
    && |name| == 11 && IsDir(t', d) && MapAt(t', d) == MapAt(t, d)[Shown(name) := c]
    && c !in t.body && t'.body == t.body[d := t'.body[d]][c := File(data)]
  }

  // The directory has room, and the name is a new one.
  ghost predicate CanTake(t: Tree, name: seq<byte>, d: nat, k: nat) {
    k < DIR_SLOTS && PlainName(name) && Shown(name) !in MapAt(t, d)
  }

  // Chain and data, then the entry; mid is the disk between the two.
  method WriteFile(disk: array<Sector>, d: nat, k: nat, e: Slot, c: nat, n: nat, data: seq<byte>,
                 ghost rootIdx: nat, ghost binIdx: nat) returns (ghost mid: seq<Sector>)
    requires Tidy(disk[..], c, rootIdx, binIdx) && n >= 1 && c + n <= CLUSTERS + 2
    requires (d == ROOT && k == rootIdx) || (d == BIN && k == binIdx)
    modifies disk
    ensures Laid(old(disk[..]), mid, c, n, data, n) && disk[..] == SlotDisk(mid, d, k, e)
    ensures FilePut(old(disk[..]), disk[..], d, k, e, c, n, data)
    ensures Tidy(disk[..], c + n, rootIdx + (if d == ROOT then 1 else 0), binIdx + (if d == BIN then 1 else 0))
  {
    hide *;
    ghost var was := disk[..];
    TidyFacts(was, c, rootIdx, binIdx);
    LayFile(disk, c, n, data);
    mid := disk[..];
    FilePutTidy(was, mid, d, k, e, c, n, data, rootIdx, binIdx);
    PutSlot(disk, d, k, e, c + n);
  }

  class Builder {
    const disk: array<Sector>
    var current: nat
    var rootIdx: nat
    var binIdx: nat
    ghost var t: Tree

    ghost predicate Sane()
      reads this, disk
    {
      Tidy(disk[..], current, rootIdx, binIdx)
    }

    // No directory has got too many entries yet, and the image holds the tree.
    ghost predicate Valid()
      reads this, disk
    {
      Sane() && Built(disk[..], t, current, rootIdx, binIdx)
    }

    // The number of the next entry of a directory.
    function NextIndex(isBin: bool): nat
      reads this
    {
      if isBin then binIdx else rootIdx
    }

    // The empty image: boot sector, reserved entries, root, and the BIN directory in it.
    constructor ()
      ensures Valid() && fresh(disk) && current == 4 && rootIdx == 1 && binIdx == 2
      ensures t == StartTree() && t.body.Keys == {ROOT, BIN} && IsDir(t, ROOT) && IsDir(t, BIN)
      ensures MapAt(t, ROOT) == map[Shown(BinName()) := BIN] && MapAt(t, BIN) == map[[DOT] := BIN, [DOT, DOT] := 0]
    {
      hide *;
      disk := new Sector[VOLUME_START + TOTAL](_ => ZeroSector());
      current, rootIdx, binIdx := 4, 1, 2;
      t := StartTree();
      new;
      LayoutIs();
      disk[VOLUME_START] := BootSector();
      BlankIs(disk[..]);
      Reserve(disk);
      StartNames();
      PutReady(disk, ROOT, 0, BinEntry(), StartOwners(), StartBodies(0));
      PutReady(disk, BIN, 0, DotIn(1), StartOwners(), StartBodies(1));
      PutReady(disk, BIN, 1, DotIn(2), StartOwners(), StartBodies(2));
      StartShape();
      StartsAtStart();
      MakeBuilt(disk[..], t, current, rootIdx, binIdx);
      MakeTidy(disk[..], t, current, rootIdx, binIdx);
      MakeValid();
    }

    // add_file: chain, data and entry are written; false, with nothing changed, if the image has not
    // enough clusters.  Whether the directory has room is not looked at.
    method AddFile(name: seq<byte>, data: seq<byte>, isBin: bool) returns (ok: bool)
      requires Sane() && |name| == 11
      modifies this, disk
      ensures Sane()
      ensures ok <==> old(current) - 2 + ClustersFor(|data|) <= CLUSTERS
      ensures !ok ==> t == old(t) && disk[..] == old(disk[..]) && (old(Valid()) ==> Valid())
      ensures !ok ==> current == old(current) && rootIdx == old(rootIdx) && binIdx == old(binIdx)
      ensures ok ==>
                && current == old(current) + ClustersFor(|data|)
                && rootIdx == old(rootIdx) + (if isBin then 0 else 1)
                && binIdx == old(binIdx) + (if isBin then 1 else 0)
                && FilePut(old(disk[..]), disk[..], DirectoryFor(isBin), old(NextIndex(isBin)),
                     ImageEntry(name, ATTR_ARCHIVE, old(current), |data|),
                     old(current), ClustersFor(|data|), data)
      ensures ok && old(Valid() && CanTake(t, name, DirectoryFor(isBin), NextIndex(isBin))) ==>
                Valid() && Grew(old(t), t, name, data, DirectoryFor(isBin), old(current))
    {
      SaneFacts();
      hide *;
      LayoutIs();
      var c, n := current, ClustersFor(|data|);
      if c - 2 + n > TOTAL - DATA_START { return false; }
      Append(name, data, isBin, n);
      return true;
    }

    // The writes of add_file.
    method Append(name: seq<byte>, data: seq<byte>, isBin: bool, n: nat)
      requires Sane() && |name| == 11 && n == ClustersFor(|data|) && current - 2 + n <= CLUSTERS && 4 <= current
      modifies this, disk
      ensures Sane() && current == old(current) + n
      ensures rootIdx == old(rootIdx) + (if isBin then 0 else 1) && binIdx == old(binIdx) + (if isBin then 1 else 0)
      ensures FilePut(old(disk[..]), disk[..], DirectoryFor(isBin), old(NextIndex(isBin)),
                ImageEntry(name, ATTR_ARCHIVE, old(current), |data|), old(current), n, data)
      ensures old(Valid() && CanTake(t, name, DirectoryFor(isBin), NextIndex(isBin))) ==>
                Valid() && Grew(old(t), t, name, data, DirectoryFor(isBin), old(current))
    {
      hide *;
      SaneFacts();
      MakeSane();
      IndexFacts(isBin);
      LayoutIs();
      SmallFile(|data|);
      ghost var was, t0, r0, b0 := disk[..], t, rootIdx, binIdx;
      var c, d, k := current, DirectoryFor(isBin), NextIndex(isBin);
      ghost var good := Valid() && CanTake(t, name, d, k);
      var e := ImageEntry(name, ATTR_ARCHIVE, c, |data|);
      ghost var mid := WriteFile(disk, d, k, e, c, n, data, r0, b0);
      current := c + n;
      if isBin { binIdx := binIdx + 1; } else { rootIdx := rootIdx + 1; }
      t := Taken(good, was, mid, t0, c, r0, b0, name, data, isBin);
      MakeSane();
    }

    lemma SaneFacts()
      requires Sane()
      ensures Tidy(disk[..], current, rootIdx, binIdx) && 4 <= current <= CLUSTERS + 2
      ensures OnDisk(G, disk[..]) && Mirrored(G, disk[..]) && Untouched(disk[..], current)
    {
      TidyFacts(disk[..], current, rootIdx, binIdx);
    }

    lemma IndexFacts(isBin: bool)
      ensures NextIndex(isBin) == if isBin then binIdx else rootIdx
      ensures DirectoryFor(isBin) == (if isBin then BIN else ROOT) && ROOT == 2 && BIN == 3
    {
    }

    lemma ShapeOf()
      requires Valid()
      ensures Shape(ROOT, t) && IsDir(t, ROOT) && IsDir(t, BIN)
    {
    }

    lemma ValidSane()
      ensures Valid() ==> Sane()
      ensures Valid() <==> Sane() && Built(disk[..], t, current, rootIdx, binIdx)
    {
      hide Tidy, Built;
    }

    lemma MakeSane()
      requires Tidy(disk[..], current, rootIdx, binIdx)
      ensures Sane()
      ensures Valid() <==> Built(disk[..], t, current, rootIdx, binIdx)
    {
    }

    lemma MakeValid()
      requires Tidy(disk[..], current, rootIdx, binIdx) && Built(disk[..], t, current, rootIdx, binIdx)
      ensures Valid()
    {
    }
  }

  function DirectoryFor(isBin: bool): nat { if isBin then BIN else ROOT }

  lemma TidyFacts(disk: seq<Sector>, current: nat, rootIdx: nat, binIdx: nat)
    requires Tidy(disk, current, rootIdx, binIdx)
    ensures OnDisk(G, disk) && Mirrored(G, disk) && Untouched(disk, current) && 4 <= current <= CLUSTERS + 2
  {
    hide FatOf, DataOf, Mirrored, Untouched;
  }

  lemma MakeTidy(disk: seq<Sector>, t: Tree, current: nat, rootIdx: nat, binIdx: nat)
    requires Built(disk, t, current, rootIdx, binIdx) && rootIdx + binIdx < current
    ensures Tidy(disk, current, rootIdx, binIdx)
  {
    hide FatOf, DataOf, Mirrored, Untouched, Stored, Shape, Starts;
    ReadyOrderly(disk, t.own, t.body, current);
    OrderlyFacts(disk, current);
    StoredOwned(G, FatOf(G, disk), DataOf(G, disk), t.own, t.body);
    OneClusterEnds(FatOf(G, disk), t.own, ROOT);
    OneClusterEnds(FatOf(G, disk), t.own, BIN);
  }

  lemma SmallFile(size: nat)
    requires 2 + ClustersFor(size) <= CLUSTERS + 2
    ensures size < 0x1_0000_0000 && ClustersFor(size) >= 1 && size <= SECTOR * ClustersFor(size)
  {
  }

  // The tree after a file has been added, if its directory had room.
  lemma Taken(good: bool, was: seq<Sector>, mid: seq<Sector>, t: Tree, c: nat, rootIdx: nat, binIdx: nat,
              name: seq<byte>, data: seq<byte>, isBin: bool) returns (t': Tree)
    requires |name| == 11 && |data| < 0x1_0000_0000 && c < 0x1_0000_0000
    requires good ==> Built(was, t, c, rootIdx, binIdx)
    requires good ==> CanTake(t, name, DirectoryFor(isBin), if isBin then binIdx else rootIdx)
    requires 2 + ClustersFor(|data|) <= CLUSTERS + 2
    requires c + ClustersFor(|data|) <= CLUSTERS + 2
    requires Laid(was, mid, c, ClustersFor(|data|), data, ClustersFor(|data|))
    ensures good ==>
              var d, k, n := DirectoryFor(isBin), if isBin then binIdx else rootIdx, ClustersFor(|data|);
              && Built(SlotDisk(mid, d, k, ImageEntry(name, ATTR_ARCHIVE, c, |data|)), t', c + n,
                   rootIdx + (if isBin then 0 else 1), binIdx + (if isBin then 1 else 0))
              && Grew(t, t', name, data, d, c)
  {
    hide *;
    t' := t;
    if good {
      LayoutIs();
      IndexIs(isBin);
      t' := BuiltMore(was, mid, t, c, rootIdx, binIdx, name, data, DirectoryFor(isBin),
        if isBin then binIdx else rootIdx);
    }
  }

  lemma IndexIs(isBin: bool)
    ensures DirectoryFor(isBin) == (if isBin then BIN else ROOT) && ROOT == 2 && BIN == 3
  {
  }

  // The tree after a file has been added to a directory with room.
  lemma BuiltMore(was: seq<Sector>, mid: seq<Sector>, t: Tree, c: nat, rootIdx: nat, binIdx: nat,
                  name: seq<byte>, data: seq<byte>, d: nat, k: nat) returns (t': Tree)
    requires Built(was, t, c, rootIdx, binIdx) && CanTake(t, name, d, k)
    requires (d == ROOT && k == rootIdx) || (d == BIN && k == binIdx)
    requires 2 + ClustersFor(|data|) <= CLUSTERS + 2
    requires c + ClustersFor(|data|) <= CLUSTERS + 2
    requires Laid(was, mid, c, ClustersFor(|data|), data, ClustersFor(|data|))
    ensures |name| == 11 && |data| < 0x1_0000_0000 && c < 0x1_0000_0000
    ensures var e, n := ImageEntry(name, ATTR_ARCHIVE, c, |data|), ClustersFor(|data|);
            Built(SlotDisk(mid, d, k, e), t', c + n,
              rootIdx + (if d == ROOT then 1 else 0), binIdx + (if d == BIN then 1 else 0))
    ensures Grew(t, t', name, data, d, c)
  {
    hide *;
    LayoutIs();
    SmallFile(|data|);
    TakeFacts(t, name, d, k);
    var n, o, m := ClustersFor(|data|), if d == ROOT then BIN else ROOT, if d == ROOT then binIdx else rootIdx;
    var e := ImageEntry(name, ATTR_ARCHIVE, c, |data|);
    BuiltParts(was, t, c, rootIdx, binIdx, d, k, o, m);
    ImageEntryIs(name, ATTR_ARCHIVE, c, |data|);
    LaidReady(was, mid, d, k, e, c, n, data, t.own, t.body);
    AddedTree(t, d, k, o, m, e, c, Row(c, n), data);
    t' := Entered(t, d, t.body[d].slots[k := e], k, c, t.own[c := Row(c, n)], File(data));
    StartsStay(t, t', d, k, e, c, data);
    MakeBuilt(SlotDisk(mid, d, k, e), t', c + n,
      rootIdx + (if d == ROOT then 1 else 0), binIdx + (if d == BIN then 1 else 0));
    MakeGrew(t, t', name, data, d, c);
  }

  lemma TakeFacts(t: Tree, name: seq<byte>, d: nat, k: nat)
    requires CanTake(t, name, d, k)
    ensures k < DIR_SLOTS && PlainName(name) && |name| == 11 && Shown(name) !in MapAt(t, d)
  {
  }

  lemma MakeGrew(t: Tree, t': Tree, name: seq<byte>, data: seq<byte>, d: nat, c: nat)
    requires |name| == 11 && IsDir(t', d) && MapAt(t', d) == MapAt(t, d)[Shown(name) := c]
    requires c !in t.body && t'.body == t.body[d := t'.body[d]][c := File(data)]
    ensures Grew(t, t', name, data, d, c)
  {
  }

  lemma BuiltParts(disk: seq<Sector>, t: Tree, current: nat, rootIdx: nat, binIdx: nat, d: nat, k: nat, o: nat, m: nat)
    requires Built(disk, t, current, rootIdx, binIdx)
    requires || (d == ROOT && k == rootIdx && o == BIN && m == binIdx)
             || (d == BIN && k == binIdx && o == ROOT && m == rootIdx)
    ensures Ready(disk, t.own, t.body, current) && 4 <= current && Shape(ROOT, t) && DirPart(t, d, k)
    ensures DirPart(t, o, m)
    ensures d in t.depth && d < 4 && d in t.own && t.own[d] == [d] && d in t.body && t.body[d].Dir?
    ensures |t.body[d].slots| == DIR_SLOTS && 1 <= rootIdx && 2 <= binIdx && Starts(t) && d != o
  {
    hide Shape, Stored, Untouched, Mirrored, FatOf, DataOf, Filled, Starts;
    DirPartFacts(t, d, k);
  }

  lemma StartsStay(t: Tree, t': Tree, d: nat, k: nat, e: Slot, c: nat, data: seq<byte>)
    requires Starts(t) && c !in t.body && d in {ROOT, BIN} && k < DIR_SLOTS && (if d == ROOT then 1 else 2) <= k
    requires IsDir(t', d) && t'.body == t.body[d := t'.body[d]][c := File(data)]
    requires t'.body == WithEntry(t.body[c := File(data)], d, k, e)
    ensures Starts(t')
  {
    hide BinEntry, DotIn;
  }

  // Writing an entry of the empty image.
  method PutReady(disk: array<Sector>, d: nat, k: nat, e: Slot, ghost own: Owners, ghost body: map<nat, Body>)
    requires Ready(disk[..], own, body, 4) && d < 4 && k < DIR_SLOTS
    requires d in own && own[d] == [d] && d in body && body[d].Dir? && |body[d].slots| == DIR_SLOTS
    modifies disk
    ensures Ready(disk[..], own, WithEntry(body, d, k, e), 4)
  {
    hide *;
    ReadyOrderly(disk[..], own, body, 4);
    SlotReady(disk[..], own, body, d, k, e, 4);
    PutSlot(disk, d, k, e, 4);
  }

  // The bodies with entry e in slot k of directory d.
  ghost function WithEntry(body: map<nat, Body>, d: nat, k: nat, e: Slot): map<nat, Body> {
    if d in body && body[d].Dir? && k < |body[d].slots| then body[d := Dir(body[d].slots[k := e])] else body
  }

  lemma WithEntryIs(body: map<nat, Body>, d: nat, k: nat, e: Slot)
    requires d in body && body[d].Dir? && k < |body[d].slots|
    ensures WithEntry(body, d, k, e) == body[d := Dir(body[d].slots[k := e])]
  {
  }

  // Disk and tables are in order, and from cluster c on nothing is used.
  ghost predicate Orderly(disk: seq<Sector>, c: nat) {
    OnDisk(G, disk) && Mirrored(G, disk) && Untouched(disk, c) && c <= CLUSTERS + 2
  }

  lemma OrderlyFacts(disk: seq<Sector>, c: nat)
    requires Orderly(disk, c)
    ensures OnDisk(G, disk) && Mirrored(G, disk) && Untouched(disk, c) && c <= CLUSTERS + 2
    ensures |FatOf(G, disk)| == CLUSTERS + 2 && |DataOf(G, disk)| == CLUSTERS
  {
    hide FatOf, DataOf, Mirrored, RawZero;
    GeometryOk();
  }

  lemma MakeOrderly(disk: seq<Sector>, c: nat)
    requires OnDisk(G, disk) && Mirrored(G, disk) && Untouched(disk, c) && c <= CLUSTERS + 2
    ensures Orderly(disk, c)
  {
  }

  lemma ReadyOrderly(disk: seq<Sector>, own: Owners, body: map<nat, Body>, c: nat)
    requires Ready(disk, own, body, c)
    ensures Orderly(disk, c)
  {
  }

  // The 32 bytes of an entry copied to where entry k of directory d goes.
  method PutSlot(disk: array<Sector>, d: nat, k: nat, e: Slot, c: nat)
    requires Orderly(disk[..], c) && 2 <= d && EntryCluster(d, k) < c
    modifies disk
    ensures Orderly(disk[..], c) && disk[..] == SlotDisk(old(disk[..]), d, k, e)
    ensures OnDisk(G, old(disk[..])) && OnDisk(G, disk[..]) && FatOf(G, disk[..]) == FatOf(G, old(disk[..]))
    ensures DataOf(G, disk[..]) == WithSlot(DataOf(G, old(disk[..])), d, k, e)
  {
    hide *;
    ghost var was := disk[..];
    SlotOrderly(was, d, k, e, c);
    LayoutIs();
    SlotFits(d, k);
    var i := VOLUME_START + DATA_START + (EntryCluster(d, k) - 2);
    disk[i] := Overwrite(disk[i], SLOT * (k % DIR_SLOTS), e);
    assert disk[..] == was[i := Overwrite(was[i], SLOT * (k % DIR_SLOTS), e)];
    SlotDiskIs(was, d, k, e, i);
  }

  lemma SlotOrderly(disk: seq<Sector>, d: nat, k: nat, e: Slot, c: nat)
    requires Orderly(disk, c) && 2 <= d && EntryCluster(d, k) < c
    ensures OnDisk(G, disk) && VOLUME_START + DATA_START + (EntryCluster(d, k) - 2) < |disk|
    ensures var disk' := SlotDisk(disk, d, k, e);
            && Orderly(disk', c) && OnDisk(G, disk') && FatOf(G, disk') == FatOf(G, disk)
            && DataOf(G, disk') == WithSlot(DataOf(G, disk), d, k, e)
  {
    hide Mirrored, FatOf, DataOf, Untouched, Overwrite;
    OrderlyFacts(disk, c);
    GeometryOk();
    LayoutIs();
    DataIs(G, disk);
    var x := EntryCluster(d, k);
    SlotFits(d, k);
    var b := Overwrite(disk[G.FirstData() + (x - 2)], SLOT * (k % DIR_SLOTS), e);
    assert DataOf(G, disk)[x - 2] == disk[G.FirstData() + (x - 2)];
    DataWritten(G, disk, x - 2, b);
    MakeSlotPut(disk, x, b);
    UntouchedLater(disk, disk[G.FirstData() + (x - 2) := b], c, x);
  }

  // For one of the sixteen slots of a directory's only cluster that is writing this slot.
  lemma SlotReady(disk: seq<Sector>, own: Owners, body: map<nat, Body>, d: nat, k: nat, e: Slot, c: nat)
    requires Ready(disk, own, body, c) && d < c && k < DIR_SLOTS
    requires d in own && own[d] == [d] && d in body && body[d].Dir? && |body[d].slots| == DIR_SLOTS
    ensures 2 <= d && EntryCluster(d, k) < c && Ready(SlotDisk(disk, d, k, e), own, WithEntry(body, d, k, e), c)
  {
    hide SlotDisk, WithEntry, Stored, FatOf, DataOf, Mirrored, Untouched;
    ReadyFacts(disk, own, body, c);
    SlotWritten(disk, own, body, d, k, e);
    KeepsFacts(SlotDisk(disk, d, k, e), own, WithEntry(body, d, k, e));
    SlotOrderly(disk, d, k, e, c);
  }

  // The file's chain and data, then its entry, for a directory that has room.
  lemma LaidReady(was: seq<Sector>, mid: seq<Sector>, d: nat, k: nat, e: Slot, c: nat, n: nat, data: seq<byte>,
                  own: Owners, body: map<nat, Body>)
    requires Ready(was, own, body, c) && Laid(was, mid, c, n, data, n)
    requires c + n <= CLUSTERS + 2 && n >= 1 && |data| <= SECTOR * n && |data| < 0x1_0000_0000
    requires d < 4 && d in own && own[d] == [d] && d in body && body[d].Dir? && k < DIR_SLOTS
    requires |body[d].slots| == DIR_SLOTS
    ensures c !in own
    ensures Ready(SlotDisk(mid, d, k, e), own[c := Row(c, n)], WithEntry(body[c := File(data)], d, k, e), c + n)
  {
    hide *;
    ReadyFacts(was, own, body, c);
    FileLaid(was, mid, own, body, c, n, data);
    NotNew(own, c, d);
    MakeReady(mid, own[c := Row(c, n)], body[c := File(data)], c + n);
    SlotReady(mid, own[c := Row(c, n)], body[c := File(data)], d, k, e, c + n);
  }

  lemma NotNew(own: Owners, c: nat, d: nat)
    requires c !in own && d in own
    ensures c != d
  {
  }

  lemma SlotDiskIs(disk: seq<Sector>, d: nat, k: nat, e: Slot, i: nat)
    requires d >= 2 && i == VOLUME_START + DATA_START + (EntryCluster(d, k) - 2) < |disk|
    ensures SLOT * (k % DIR_SLOTS) + 32 <= 512
    ensures SlotDisk(disk, d, k, e) == disk[i := Overwrite(disk[i], SLOT * (k % DIR_SLOTS), e)]
  {
  }

  lemma SlotFits(d: nat, k: nat)
    ensures SLOT * (k % DIR_SLOTS) + 32 <= 512 && EntryCluster(d, k) >= d
  {
  }

  lemma MakeSlotPut(was: seq<Sector>, d: nat, b: Sector)
    requires OnDisk(G, was) && 2 <= d < CLUSTERS + 2 && G.FirstData() + (d - 2) < |was|
    requires OnDisk(G, was[G.FirstData() + (d - 2) := b])
    ensures SlotPut(was, was[G.FirstData() + (d - 2) := b], d)
  {
    GeometryOk();
    DataIs(G, was);
    DataIs(G, was[G.FirstData() + (d - 2) := b]);
  }

  // ---------- The empty image ----------

  function BinName(): (r: seq<byte>)
    ensures |r| == 11
  {
    [0x42, 0x49, 0x4E] + Spaces(8)
  }

  function BinEntry(): Slot { ImageEntry(BinName(), ATTR_DIRECTORY, BIN, 0) }

  // BIN, and in it "." and "..".
  lemma StartEntries()
    ensures Label(BinEntry(), 0, "BIN        ") && BinEntry()[11] == 0x10 && ClusterOf(BinEntry()) == 3
    ensures Label(DotIn(1), 0, ".          ") && DotIn(1)[11] == 0x10 && ClusterOf(DotIn(1)) == 3
    ensures Label(DotIn(2), 0, "..         ") && DotIn(2)[11] == 0x10 && ClusterOf(DotIn(2)) == 0
    ensures SizeOf(BinEntry()) == SizeOf(DotIn(1)) == SizeOf(DotIn(2)) == 0
  {
    hide ImageEntry, ClusterOf, SizeOf;
    LabelOf(BinEntry(), BinName(), "BIN        ");
    LabelOf(DotIn(1), DotName(1), ".          ");
    LabelOf(DotIn(2), DotName(2), "..         ");
  }

  lemma LabelOf(s: Slot, n: seq<byte>, w: string)
    requires |n| == |w| == 11 && s[..11] == n && forall i :: 0 <= i < 11 ==> n[i] as int == w[i] as int
    ensures Label(s, 0, w)
  {
    assert forall i :: 0 <= i < 11 ==> s[i] == s[..11][i];
  }

  // "." leads to BIN itself; ".." has cluster 0 for the root.
  function DotIn(n: nat): Slot
    requires n <= 2
  {
    ImageEntry(DotName(n), ATTR_DIRECTORY, if n == 1 then BIN else 0, 0)
  }

  ghost function StartOwners(): Owners { map[ROOT := [ROOT], BIN := [BIN]] }

  // The directories after n of the three entries have been written.
  ghost function StartBodies(n: nat): map<nat, Body> {
    var z := ZeroSlots(DIR_SLOTS);
    map[ROOT := Dir(if n >= 1 then z[0 := BinEntry()] else z),
        BIN := Dir(if n >= 3 then z[0 := DotIn(1)][1 := DotIn(2)] else if n >= 2 then z[0 := DotIn(1)] else z)]
  }

  ghost function StartTree(): Tree {
    Tree(StartOwners(), StartBodies(3), map[BIN := Place(ROOT, 0)], map[ROOT := 0, BIN := 1])
  }

  lemma StartNames()
    ensures StartTree().own == StartOwners() && StartTree().body == StartBodies(3) && StartBodies(3).Keys == {ROOT, BIN}
    ensures IsDir(StartTree(), ROOT) && IsDir(StartTree(), BIN)
    ensures ROOT in StartOwners() && StartOwners()[ROOT] == [ROOT] && BIN in StartOwners()
    ensures StartOwners()[BIN] == [BIN]
    ensures forall n: nat :: ROOT in StartBodies(n) && BIN in StartBodies(n)
                             && StartBodies(n)[ROOT].Dir? && |StartBodies(n)[ROOT].slots| == DIR_SLOTS
                             && StartBodies(n)[BIN].Dir? && |StartBodies(n)[BIN].slots| == DIR_SLOTS
    ensures WithEntry(StartBodies(0), ROOT, 0, BinEntry()) == StartBodies(1)
    ensures WithEntry(StartBodies(1), BIN, 0, DotIn(1)) == StartBodies(2)
    ensures WithEntry(StartBodies(2), BIN, 1, DotIn(2)) == StartBodies(3)
  {
    hide BinEntry, DotIn, ZeroSlots;
  }

  lemma StartsAtStart()
    ensures Starts(StartTree())
  {
    hide BinEntry, DotIn, ZeroSlots;
    StartNames();
  }

  lemma OneClusterEnds(fat: seq<nat>, own: Owners, d: nat)
    requires Owned(fat, own) && d in own && own[d] == [d] && d < |fat|
    ensures IsEnd(fat[d])
  {
  }

  // All zeros but for the boot sector.
  ghost predicate Blank(disk: seq<Sector>) {
    |disk| == VOLUME_START + TOTAL && disk[VOLUME_START] == BootSector()
    && forall i :: 0 <= i < |disk| && i != VOLUME_START ==> disk[i] == ZeroSector()
  }

  lemma BlankIs(disk: seq<Sector>)
    requires |disk| == VOLUME_START + TOTAL && disk[VOLUME_START] == BootSector()
    requires forall i :: 0 <= i < |disk| && i != VOLUME_START ==> disk[i] == ZeroSector()
    ensures Blank(disk)
  {
  }

  lemma BlankUntouched(disk: seq<Sector>)
    requires Blank(disk)
    ensures OnDisk(G, disk) && Mirrored(G, disk) && Untouched(disk, 0)
    ensures G.Clusters() == CLUSTERS && FatOf(G, disk) == seq(CLUSTERS + 2, _ => 0) && |DataOf(G, disk)| == CLUSTERS
    ensures forall x :: 0 <= x < CLUSTERS ==> DataOf(G, disk)[x] == ZeroSector()
  {
    hide EntrySector, EntryOffset, BootSector, DataOf;
    GeometryOk();
    DataIs(G, disk);
    forall x: nat | x < CLUSTERS + 2 ensures RawZero(disk, x) { EntryInTable(G, disk, x); }
    forall x: nat | x < CLUSTERS + 2 ensures FatOf(G, disk)[x] == 0 {
      assert RawZero(disk, x); EntryInTable(G, disk, x);
    }
  }

  // The table entries of the two reserved numbers, the root and BIN.
  method Reserve(disk: array<Sector>)
    requires Blank(disk[..])
    modifies disk
    ensures Ready(disk[..], StartOwners(), StartBodies(0), 4)
  {
    hide *;
    BlankUntouched(disk[..]);
    ghost var fat, data := FatOf(G, disk[..]), DataOf(G, disk[..]);
    MarksFit();
    PutFresh(disk, 0, END_OF_CHAIN);
    PutFresh(disk, 1, EOF_MARK);
    PutFresh(disk, ROOT, EOF_MARK);
    PutFresh(disk, BIN, EOF_MARK);
    StartStored(fat, data);
    MakeReady(disk[..], StartOwners(), StartBodies(0), 4);
  }

  lemma MarksFit()
    ensures END_OF_CHAIN < LOW28 && EOF_MARK < LOW28 && ROOT == 2 && BIN == 3 && 4 <= CLUSTERS
  {
  }

  method PutFresh(disk: array<Sector>, c: nat, v: nat)
    requires OnDisk(G, disk[..]) && Mirrored(G, disk[..]) && Untouched(disk[..], c) && c < CLUSTERS && v < LOW28
    modifies disk
    ensures OnDisk(G, disk[..]) && Mirrored(G, disk[..]) && Untouched(disk[..], c + 1)
    ensures c < |FatOf(G, old(disk[..]))|
    ensures FatOf(G, disk[..]) == FatOf(G, old(disk[..]))[c := v] && DataOf(G, disk[..]) == DataOf(G, old(disk[..]))
  {
    hide *;
    FreshEntry(disk[..], c, v);
    PutEntry(disk, c, v);
  }

  lemma FreshEntry(disk: seq<Sector>, c: nat, v: nat)
    requires OnDisk(G, disk) && Mirrored(G, disk) && Untouched(disk, c) && c < CLUSTERS && v < LOW28
    ensures G.Ok() && G.Clusters() == CLUSTERS && RawZero(disk, c) && |FatOf(G, disk)| == CLUSTERS + 2
    ensures var disk' := DiskWithEntry(G, disk, c, v);
            && OnDisk(G, disk') && Mirrored(G, disk') && Untouched(disk', c + 1)
            && FatOf(G, disk') == FatOf(G, disk)[c := v] && DataOf(G, disk') == DataOf(G, disk)
  {
    hide DiskWithEntry, Mirrored, FatOf, DataOf, RawZero, BootSector;
    GeometryOk();
    EntryPut(disk, c, v);
  }

  lemma StartStored(fat: seq<nat>, data: seq<Sector>)
    requires fat == seq(CLUSTERS + 2, _ => 0) && |data| == CLUSTERS
    requires forall x :: 0 <= x < CLUSTERS ==> data[x] == ZeroSector()
    ensures Stored(G, fat[0 := END_OF_CHAIN][1 := EOF_MARK][ROOT := EOF_MARK][BIN := EOF_MARK], data,
              StartOwners(), StartBodies(0))
  {
    hide HeadStored, ZeroSector, Owned;
    var fat', own := fat[0 := END_OF_CHAIN][1 := EOF_MARK][ROOT := EOF_MARK][BIN := EOF_MARK], StartOwners();
    BlankCluster(data, ROOT);
    BlankCluster(data, BIN);
    StartOwned(fat');
  }

  lemma StartOwned(fat: seq<nat>)
    requires |fat| == CLUSTERS + 2 && fat[ROOT] == EOF_MARK && fat[BIN] == EOF_MARK
    requires forall c :: BIN < c < |fat| ==> fat[c] == FREE
    ensures Owned(fat, StartOwners())
  {
    hide IsChain;
    var own := StartOwners();
    Singleton(fat, ROOT);
    Singleton(fat, BIN);
    forall c | 2 <= c < |fat| ensures fat[c] != FREE <==> Holds(own, c) {
      if c == ROOT { HoldsAt(own, ROOT, c); }
      if c == BIN { HoldsAt(own, BIN, c); }
    }
  }

  lemma BlankCluster(data: seq<Sector>, c: nat)
    requires |data| == CLUSTERS && 2 <= c < CLUSTERS + 2 && forall x :: 0 <= x < CLUSTERS ==> data[x] == ZeroSector()
    ensures HeadStored(G, data, [c], Dir(ZeroSlots(DIR_SLOTS)))
  {
    hide Bytes, Slots, ZeroSector;
    GeometryOk();
    assert FirstZero(G, data, c, G.spc);
    AllZero(G, data, c);
    NewDirStored(G, data, c);
  }

  // The tree of the empty image: the BIN entry entered into a bare root.
  lemma StartShape()
    ensures Shape(ROOT, StartTree()) && DirPart(StartTree(), ROOT, 1) && DirPart(StartTree(), BIN, 2)
    ensures MapAt(StartTree(), ROOT) == map[Shown(BinName()) := BIN]
    ensures MapAt(StartTree(), BIN) == map[[DOT] := BIN, [DOT, DOT] := 0]
  {
    hide *;
    var t, e := BareTree(), BinEntry();
    BareShape();
    BinEntries();
    LayoutIs();
    FilledPlaced(ZeroSlots(DIR_SLOTS), 0, e);
    RefersLive(e);
    var slots', b := ZeroSlots(DIR_SLOTS)[0 := e], Dir(ZeroSlots(DIR_SLOTS)[0 := DotIn(1)][1 := DotIn(2)]);
    MapFresh(ROOT, t, ROOT, e);
    EnteredShape(ROOT, t, ROOT, slots', 0, e, BIN, StartOwners(), b);
    EnteredMap(ROOT, t, ROOT, slots', 0, e, BIN, StartOwners(), b);
    StartIs(slots', b);
    BinMap();
  }

  lemma BinMap()
    ensures MapAt(StartTree(), BIN) == map[[DOT] := BIN, [DOT, DOT] := 0]
  {
    hide NameOf, ClusterOf, MapOf, Live, DotIn;
    var s, m := ZeroSlots(DIR_SLOTS)[0 := DotIn(1)][1 := DotIn(2)], map[[DOT] := BIN, [DOT, DOT] := 0];
    DotIs(1);
    DotIs(2);
    assert seq(1, _ => DOT) == [DOT] && seq(2, _ => DOT) == [DOT, DOT];
    ZeroNotLive();
    assert Maps(s, [DOT], BIN, 0) && Maps(s, [DOT, DOT], 0, 1);
    assert |NameOf(s[0])| == 1 && |NameOf(s[1])| == 2;
    forall x | x in m ensures exists k: nat :: Maps(s, x, m[x], k) {
      if x == [DOT] { assert Maps(s, x, m[x], 0); } else { assert Maps(s, x, m[x], 1); }
    }
    MapIs(s, m);
  }

  ghost function BareTree(): Tree {
    Tree(map[ROOT := [ROOT]], map[ROOT := Dir(ZeroSlots(DIR_SLOTS))], map[], map[ROOT := 0])
  }

  lemma BareShape()
    ensures Shape(ROOT, BareTree()) && IsDir(BareTree(), ROOT) && ROOT in BareTree().depth
    ensures BareTree().body[ROOT] == Dir(ZeroSlots(DIR_SLOTS))
    ensures MapAt(BareTree(), ROOT) == map[] && Filled(ZeroSlots(DIR_SLOTS), 0) && BIN !in BareTree().own
    ensures StartOwners().Keys == BareTree().own.Keys + {BIN}
  {
    hide NameOf, ClusterOf, MapOf;
    ZeroNotLive();
    MapIs(ZeroSlots(DIR_SLOTS), map[]);
  }

  lemma BinEntries()
    ensures var e := BinEntry();
            Refers(e) && Live(e) && !Free(e) && ClusterOf(e) == BIN && NameOf(e) == Shown(BinName())
            && NewBody(Dir(ZeroSlots(DIR_SLOTS)[0 := DotIn(1)][1 := DotIn(2)]), e, ROOT, BIN)
    ensures Filled(ZeroSlots(DIR_SLOTS)[0 := DotIn(1)][1 := DotIn(2)], 2)
  {
    hide NameOf, ClusterOf, SizeOf, ImageEntry, IsDirectory, DotName;
    assert BinName()[0] == 0x42;
    ImageEntryIs(BinName(), ATTR_DIRECTORY, BIN, 0);
    DotIs(1);
    DotIs(2);
    var s := ZeroSlots(DIR_SLOTS)[0 := DotIn(1)][1 := DotIn(2)];
    assert |NameOf(s[0])| == 1 && |NameOf(s[1])| == 2;
    assert forall i :: 2 <= i < DIR_SLOTS ==> EndMark(s[i]);
  }

  lemma DotIs(n: nat)
    requires 1 <= n <= 2
    ensures var e := DotIn(n);
            && Live(e) && !Free(e) && Dots(e) && IsDirectory(e)
            && ClusterOf(e) == (if n == 1 then BIN else 0) && NameOf(e) == seq(n, _ => DOT)
  {
    hide NameOf, ClusterOf, SizeOf, ImageEntry, Upper, UpToNul, Parse83;
    var e := DotIn(n);
    assert e[0] == e[..11][0] == DotName(n)[0];
    DotParsed(n);
    NameIs(e);
  }

  lemma StartIs(slots': seq<Slot>, b: Body)
    requires slots' == ZeroSlots(DIR_SLOTS)[0 := BinEntry()]
    requires b == Dir(ZeroSlots(DIR_SLOTS)[0 := DotIn(1)][1 := DotIn(2)])
    requires Filled(slots', 1) && b.Dir? && Filled(b.slots, 2)
    ensures ROOT in BareTree().depth && Entered(BareTree(), ROOT, slots', 0, BIN, StartOwners(), b) == StartTree()
    ensures DirPart(StartTree(), ROOT, 1) && DirPart(StartTree(), BIN, 2)
  {
    hide BinEntry, DotIn, ZeroSlots, Filled;
  }
}
