// The layout of a FAT32 volume on a disk of 512-byte sectors, and the file allocation table
// as a sequence of cluster numbers.
module FatTable {
  import opened Bits

  const SECTOR: nat := 512
  const VOLUME_START: nat := 512
  const FREE: nat := 0
  const EOF_MARK: nat := 0x0FFFFFFF
  const END_OF_CHAIN: nat := 0x0FFFFFF8
  const LOW28: nat := 0x10000000

  type Sector = s: seq<byte> | |s| == 512 witness seq(512, _ => 0)

  // The fields of the BIOS parameter block that the driver uses.
  datatype Geometry = Geometry(spc: nat, reserved: nat, numFats: nat, fatSize: nat, totalSectors: nat, root: nat) {
    function FirstFat(): nat { VOLUME_START + reserved }

    function FirstData(): nat { FirstFat() + numFats * fatSize }

    // Everything in the volume lies where the driver expects it.
    predicate Ok() {
      && spc > 0 && numFats >= 1
      && FirstData() - VOLUME_START <= totalSectors
      && 4 * (Clusters() + 2) <= SECTOR * fatSize
      && Clusters() + 2 < END_OF_CHAIN
      && 2 <= root < Clusters() + 2
    }

    // g_total_clusters
    function Clusters(): nat
      requires spc > 0 && FirstData() - VOLUME_START <= totalSectors
    {
      (totalSectors - (FirstData() - VOLUME_START)) / spc
    }

    predicate InRange(c: nat)
      requires Ok()
    {
      2 <= c < Clusters() + 2
    }

    // The index of sector s of cluster c in the data area (fat32_cluster_to_lba).
    function DataIndex(c: nat, s: nat): nat
      requires c >= 2
    {
      (c - 2) * spc + s
    }
  }

  // ---------- Little-endian fields of a sector ----------

  function Get32(s: seq<byte>, o: nat): (r: nat)
    requires o + 4 <= |s|
    ensures r < 0x1_0000_0000
  {
    s[o] as int + 0x100 * s[o + 1] as int + 0x1_0000 * s[o + 2] as int + 0x100_0000 * s[o + 3] as int
  }

  function Bytes32(v: nat): (r: seq<byte>)
    requires v < 0x1_0000_0000
    ensures |r| == 4 && Get32(r, 0) == v
  {
    var lo, hi := v % 0x1_0000, v / 0x1_0000;
    [lo % 0x100, lo / 0x100, hi % 0x100, hi / 0x100]
  }

  function Put32(s: seq<byte>, o: nat, v: nat): (r: seq<byte>)
    requires o + 4 <= |s| && v < 0x1_0000_0000
    ensures |r| == |s| && Get32(r, o) == v
    ensures forall i :: 0 <= i < |s| && !(o <= i < o + 4) ==> r[i] == s[i]
  {
    var b := Bytes32(v);
    var r := s[..o] + b + s[o + 4..];
    assert r[o] == b[0] && r[o + 1] == b[1] && r[o + 2] == b[2] && r[o + 3] == b[3];
    r
  }

  lemma Get32Same(a: seq<byte>, b: seq<byte>, o: nat)
    requires o + 4 <= |a| == |b| && forall i :: o <= i < o + 4 ==> a[i] == b[i]
    ensures Get32(a, o) == Get32(b, o)
  {
  }

  // ---------- Table entries ----------

  // Where the entry of cluster c is: sector of the table and byte offset in it.
  function EntrySector(c: nat): nat { c * 4 / SECTOR }

  function EntryOffset(c: nat): (o: nat)
    ensures o + 4 <= SECTOR && o % 4 == 0
  {
    c * 4 % SECTOR
  }

  // Entries follow each other without gaps, four bytes each.
  lemma EntryPlace(c: nat)
    ensures EntrySector(c) * 512 + EntryOffset(c) == 4 * c && EntryOffset(c) < 512
  {
  }

  // The volume is the reserved sectors, the tables, the sectors of the clusters, and less than one
  // cluster left over.
  lemma VolumeParts(g: Geometry)
    requires g.Ok()
    ensures g.FirstData() == 512 + g.reserved + g.numFats * g.fatSize
    ensures g.FirstData() + g.Clusters() * g.spc <= 512 + g.totalSectors < g.FirstData() + g.Clusters() * g.spc + g.spc
    ensures g.DataIndex(2, 0) == 0
    ensures forall c: nat, s: nat :: c >= 2 ==> g.DataIndex(c, s + 1) == g.DataIndex(c, s) + 1
    ensures forall c: nat :: c >= 2 ==> g.DataIndex(c + 1, 0) == g.DataIndex(c, g.spc)
  {
    DataFits(g);
    var n := g.totalSectors - (g.FirstData() - 512);
    assert n < n / g.spc * g.spc + g.spc;
    forall c: nat | c >= 2 ensures g.DataIndex(c + 1, 0) == g.DataIndex(c, g.spc) {
      assert (c - 1) * g.spc == (c - 2) * g.spc + g.spc;
    }
  }

  lemma EntriesApart(c: nat, d: nat)
    requires c != d
    ensures || EntrySector(c) != EntrySector(d)
            || EntryOffset(c) + 4 <= EntryOffset(d) || EntryOffset(d) + 4 <= EntryOffset(c)
  {
  }

  // The entry with its four reserved top bits.
  ghost function RawEntry(g: Geometry, disk: seq<Sector>, c: nat): nat
    requires g.FirstFat() + EntrySector(c) < |disk|
  {
    Get32(disk[g.FirstFat() + EntrySector(c)], EntryOffset(c))
  }

  ghost function Entry(g: Geometry, disk: seq<Sector>, c: nat): nat
    requires g.FirstFat() + EntrySector(c) < |disk|
  {
    RawEntry(g, disk, c) % 0x1000_0000
  }

  ghost predicate OnDisk(g: Geometry, disk: seq<Sector>) {
    g.Ok() && VOLUME_START + g.totalSectors <= |disk|
  }

  lemma EntryInTable(g: Geometry, disk: seq<Sector>, c: nat)
    requires OnDisk(g, disk) && c < g.Clusters() + 2
    ensures EntrySector(c) < g.fatSize
    ensures g.FirstFat() + EntrySector(c) < g.FirstData() <= |disk|
  {
    assert g.numFats * g.fatSize >= g.fatSize;
  }

  // The table: the next cluster, FREE or an end mark for every cluster number.
  ghost function FatOf(g: Geometry, disk: seq<Sector>): (f: seq<nat>)
    requires OnDisk(g, disk)
    ensures |f| == g.Clusters() + 2
  {
    seq(g.Clusters() + 2, c requires 0 <= c < g.Clusters() + 2 => EntryInTable(g, disk, c); Entry(g, disk, c))
  }

  // The data area.
  ghost function DataOf(g: Geometry, disk: seq<Sector>): (d: seq<Sector>)
    requires OnDisk(g, disk)
    ensures |d| == g.Clusters() * g.spc
  {
    DataFits(g);
    disk[g.FirstData()..g.FirstData() + g.Clusters() * g.spc]
  }

  lemma DataFits(g: Geometry)
    requires g.Ok()
    ensures g.FirstData() + g.Clusters() * g.spc <= VOLUME_START + g.totalSectors
  {
    var n := g.totalSectors - (g.FirstData() - VOLUME_START);
    assert n / g.spc * g.spc <= n;
  }

  // The second copy of the table equals the first.
  ghost predicate Mirrored(g: Geometry, disk: seq<Sector>)
    requires OnDisk(g, disk)
  {
    g.numFats >= 2 ==>
      g.FirstFat() + 2 * g.fatSize <= |disk| &&
      forall i :: g.FirstFat() <= i < g.FirstFat() + g.fatSize ==> disk[i] == disk[i + g.fatSize]
  }

  lemma MirrorFits(g: Geometry, disk: seq<Sector>)
    requires OnDisk(g, disk) && g.numFats >= 2
    ensures g.FirstFat() + 2 * g.fatSize <= g.FirstData() <= |disk|
  {
    assert g.numFats * g.fatSize >= 2 * g.fatSize;
  }

  lemma DataIndexFits(g: Geometry, c: nat, s: nat)
    requires g.Ok() && g.InRange(c) && s < g.spc
    ensures g.DataIndex(c, s) < g.Clusters() * g.spc
  {
    var n := g.Clusters();
    assert (c - 2) * g.spc + g.spc == (c - 1) * g.spc <= n * g.spc by { MulLe(c - 1, n, g.spc); }
  }

  lemma MulLe(a: nat, b: nat, c: nat)
    requires a <= b
    ensures a * c <= b * c
  {
  }

  // Different clusters have different sectors.
  lemma DataIndexApart(g: Geometry, c: nat, s: nat, d: nat, t: nat)
    requires c >= 2 && d >= 2 && s < g.spc && t < g.spc && (c != d || s != t)
    ensures g.DataIndex(c, s) != g.DataIndex(d, t)
  {
    if c < d { RowsApart(c - 2, d - 2, g.spc); }
    if d < c { RowsApart(d - 2, c - 2, g.spc); }
  }

  lemma RowsApart(a: nat, b: nat, n: nat)
    requires a < b
    ensures a * n + n <= b * n
  {
    MulLe(a + 1, b, n);
  }

  // ---------- Writing an entry ----------

  // A sector of the table with one entry's low 28 bits replaced.
  function SetEntry(s: Sector, o: nat, v: nat): (r: Sector)
    requires o + 4 <= SECTOR
    ensures Get32(r, o) == Get32(s, o) / LOW28 * LOW28 + v % LOW28
    ensures forall i :: 0 <= i < SECTOR && !(o <= i < o + 4) ==> r[i] == s[i]
  {
    Put32(s, o, Get32(s, o) / LOW28 * LOW28 + v % LOW28)
  }

  ghost function DiskWithEntry(g: Geometry, disk: seq<Sector>, c: nat, v: nat): seq<Sector>
    requires OnDisk(g, disk) && c < g.Clusters() + 2
  {
    EntryInTable(g, disk, c);
    var i := g.FirstFat() + EntrySector(c);
    var s := SetEntry(disk[i], EntryOffset(c), v);
    if g.numFats >= 2 then
      MirrorFits(g, disk);
      disk[i := s][i + g.fatSize := s]
    else disk[i := s]
  }

  // Writing an entry changes that entry's low 28 bits and nothing else: not its top bits,
  // no other entry, no data, and the copies of the table stay equal.
  lemma EntryWritten(g: Geometry, disk: seq<Sector>, c: nat, v: nat)
    requires OnDisk(g, disk) && c < g.Clusters() + 2 && Mirrored(g, disk)
    ensures var disk' := DiskWithEntry(g, disk, c, v);
            && OnDisk(g, disk')
            && FatOf(g, disk') == FatOf(g, disk)[c := v % LOW28]
            && DataOf(g, disk') == DataOf(g, disk)
            && Mirrored(g, disk')
  {
    hide DiskWithEntry, RawEntry, EntrySector, Mirrored, DataOf, SetEntry;
    var disk' := DiskWithEntry(g, disk, c, v);
    DiskSize(g, disk, c, v);
    DataUntouched(g, disk, c, v);
    MirrorKept(g, disk, c, v);
    forall d: nat | d < g.Clusters() + 2
      ensures FatOf(g, disk')[d] == if d == c then v % LOW28 else FatOf(g, disk)[d]
    {
      RawEntryWritten(g, disk, c, v, d);
    }
  }

  lemma DiskSize(g: Geometry, disk: seq<Sector>, c: nat, v: nat)
    requires OnDisk(g, disk) && c < g.Clusters() + 2
    ensures |DiskWithEntry(g, disk, c, v)| == |disk|
    ensures forall i :: g.FirstData() <= i < |disk| ==> DiskWithEntry(g, disk, c, v)[i] == disk[i]
  {
    hide SetEntry, EntrySector, EntryOffset;
    EntryInTable(g, disk, c);
    if g.numFats >= 2 { MirrorFits(g, disk); }
  }

  lemma DataUntouched(g: Geometry, disk: seq<Sector>, c: nat, v: nat)
    requires OnDisk(g, disk) && c < g.Clusters() + 2
    ensures OnDisk(g, DiskWithEntry(g, disk, c, v)) && DataOf(g, DiskWithEntry(g, disk, c, v)) == DataOf(g, disk)
  {
    hide DiskWithEntry;
    DiskSize(g, disk, c, v);
    DataFits(g);
    SliceSame(disk, DiskWithEntry(g, disk, c, v), g.FirstData(), g.FirstData() + g.Clusters() * g.spc);
  }

  lemma SliceSame(a: seq<Sector>, b: seq<Sector>, lo: nat, hi: nat)
    requires lo <= hi <= |a| == |b| && forall i :: lo <= i < hi ==> a[i] == b[i]
    ensures a[lo..hi] == b[lo..hi]
  {
  }

  lemma MirrorKept(g: Geometry, disk: seq<Sector>, c: nat, v: nat)
    requires OnDisk(g, disk) && c < g.Clusters() + 2 && Mirrored(g, disk)
    ensures OnDisk(g, DiskWithEntry(g, disk, c, v)) && Mirrored(g, DiskWithEntry(g, disk, c, v))
  {
    hide SetEntry, EntrySector, EntryOffset;
    EntryInTable(g, disk, c);
    if g.numFats >= 2 { MirrorFits(g, disk); }
  }

  lemma RawEntryWritten(g: Geometry, disk: seq<Sector>, c: nat, v: nat, d: nat)
    requires OnDisk(g, disk) && c < g.Clusters() + 2 && d < g.Clusters() + 2
    ensures g.FirstFat() + EntrySector(d) < |disk| && |DiskWithEntry(g, disk, c, v)| == |disk|
    ensures var r, r' := RawEntry(g, disk, d), RawEntry(g, DiskWithEntry(g, disk, c, v), d);
            if d == c then r' % LOW28 == v % LOW28 && r' / LOW28 == r / LOW28 else r' == r
  {
    hide SetEntry, Get32, EntrySector, EntryOffset;
    EntryInTable(g, disk, c);
    EntryInTable(g, disk, d);
    if g.numFats >= 2 { MirrorFits(g, disk); }
    var i := g.FirstFat() + EntrySector(c);
    var s, s' := disk[i], SetEntry(disk[i], EntryOffset(c), v);
    if d == c {
      HighAndLow(Get32(s, EntryOffset(c)) / LOW28, v % LOW28);
    } else {
      EntriesApart(c, d);
      if EntrySector(d) == EntrySector(c) { Get32Same(s, s', EntryOffset(d)); }
    }
  }

  lemma HighAndLow(h: nat, l: nat)
    requires l < LOW28
    ensures (h * LOW28 + l) / LOW28 == h && (h * LOW28 + l) % LOW28 == l
  {
  }
}
