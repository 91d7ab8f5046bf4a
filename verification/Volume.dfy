// The driver's lowest layer: table entries, the allocator, freeing a chain, clearing a cluster.
module Volumes {
  import opened Bits
  import opened FatTable
  import opened Chains

  class Volume {
    const g: Geometry
    const disk: array<Sector>
    var nextFree: nat

    constructor (geometry: Geometry, sectors: array<Sector>)
      requires OnDisk(geometry, sectors[..]) && Mirrored(geometry, sectors[..])
      ensures g == geometry && disk == sectors && Valid()
    {
      g, disk := geometry, sectors;
      nextFree := 2;
    }

    ghost predicate Valid()
      reads this, disk
    {
      && OnDisk(g, disk[..]) && Mirrored(g, disk[..])
      && 2 <= nextFree <= g.Clusters() + 2
    }

    // The file allocation table.
    ghost function Fat(): (f: seq<nat>)
      requires Valid()
      reads this, disk
      ensures |f| == g.Clusters() + 2
    {
      FatOf(g, disk[..])
    }

    // The data area, by sectors.
    ghost function Data(): (d: seq<Sector>)
      requires Valid()
      reads this, disk
      ensures |d| == g.Clusters() * g.spc
    {
      DataOf(g, disk[..])
    }

    // fat32_read_fat_entry
    method ReadEntry(c: nat) returns (v: nat)
      requires Valid() && c < g.Clusters() + 2
      ensures v == Fat()[c]
    {
      EntryInTable(g, disk[..], c);
      var s := disk[g.FirstFat() + EntrySector(c)];
      return Get32(s, EntryOffset(c)) % LOW28;
    }

    // fat32_write_fat_entry
    method WriteEntry(c: nat, v: nat)
      requires Valid() && c < g.Clusters() + 2
      modifies disk
      ensures Valid() && Fat() == old(Fat())[c := v % LOW28] && Data() == old(Data())
    {
      hide SetEntry, Mirrored, FatOf, DataOf;
      ghost var was := disk[..];
      EntryInTable(g, was, c);
      EntryWritten(g, was, c, v);
      var i := g.FirstFat() + EntrySector(c);
      var s := SetEntry(disk[i], EntryOffset(c), v);
      disk[i] := s;
      if g.numFats >= 2 {
        MirrorFits(g, was);
        disk[i + g.fatSize] := s;
      }
      assert disk[..] == DiskWithEntry(g, was, c, v);
    }

    // ata_read_sector on sector s of cluster c.
    method ReadSector(c: nat, s: nat) returns (b: Sector)
      requires Valid() && g.InRange(c) && s < g.spc
      ensures g.DataIndex(c, s) < |Data()| && b == Data()[g.DataIndex(c, s)]
    {
      DataIndexFits(g, c, s);
      DataFits(g);
      return disk[g.FirstData() + (c - 2) * g.spc + s];
    }

    // ata_write_sector on sector s of cluster c.
    method WriteSector(c: nat, s: nat, b: Sector)
      requires Valid() && g.InRange(c) && s < g.spc
      modifies disk
      ensures g.DataIndex(c, s) < |old(Data())|
      ensures Valid() && Fat() == old(Fat()) && Data() == old(Data())[g.DataIndex(c, s) := b]
    {
      hide FatOf, DataOf, Mirrored;
      DataIndexFits(g, c, s);
      DataFits(g);
      ghost var was := disk[..];
      DataWritten(g, was, g.DataIndex(c, s), b);
      disk[g.FirstData() + (c - 2) * g.spc + s] := b;
      assert disk[..] == was[g.FirstData() + g.DataIndex(c, s) := b];
    }

    // fat32_alloc_cluster: 0 exactly when no cluster is free; otherwise a free cluster, now
    // marked as the end of a chain.
    method AllocCluster() returns (r: nat)
      requires Valid()
      modifies disk, this`nextFree
      ensures Valid() && Data() == old(Data())
      ensures r == 0 <==> forall c: nat :: g.InRange(c) ==> old(Fat())[c] != FREE
      ensures r == 0 ==> Fat() == old(Fat()) && nextFree == old(nextFree)
      ensures r != 0 ==>
                && g.InRange(r) && old(Fat())[r] == FREE
                && Fat() == old(Fat())[r := EOF_MARK] && nextFree == r + 1
    {
      hide FatOf, DataOf, Mirrored;
      var c := nextFree;
      while c < g.Clusters() + 2
        invariant Valid() && Fat() == old(Fat()) && Data() == old(Data()) && nextFree == old(nextFree)
        invariant nextFree <= c <= g.Clusters() + 2
        invariant forall d :: nextFree <= d < c ==> Fat()[d] != FREE
      {
        var v := ReadEntry(c);
        if v == FREE {
          WriteEntry(c, EOF_MARK);
          nextFree := c + 1;
          return c;
        }
        c := c + 1;
      }
      c := 2;
      while c < nextFree
        invariant Valid() && Fat() == old(Fat()) && Data() == old(Data()) && nextFree == old(nextFree)
        invariant 2 <= c <= nextFree
        invariant forall d :: nextFree <= d < g.Clusters() + 2 || 2 <= d < c ==> Fat()[d] != FREE
      {
        var v := ReadEntry(c);
        if v == FREE {
          WriteEntry(c, EOF_MARK);
          nextFree := c + 1;
          return c;
        }
        c := c + 1;
      }
      return 0;
    }

    // The bound on the number of clusters any loop over a chain may visit.
    function Limit(): nat
      requires g.spc > 0
    {
      g.totalSectors / g.spc + 2
    }

    // fat32_free_chain
    method FreeChain(cluster: nat, ghost cs: seq<nat>)
      requires Valid() && IsChain(Fat(), cs) && cs[0] == cluster
      modifies disk
      ensures Valid() && Data() == old(Data())
      ensures forall c :: 0 <= c < |Fat()| ==> Fat()[c] == if c in cs then FREE else old(Fat())[c]
    {
      hide FatOf, DataOf, Mirrored, IsChain, Cleared;
      var c, limit := cluster, Limit();
      ghost var i, fat := 0, Fat();
      ClearStart(fat, cs);
      LimitEnough(g);
      while c >= 2 && c < END_OF_CHAIN && limit > 0
        invariant Valid() && Data() == old(Data()) && i <= |cs| <= Limit()
        invariant Cleared(fat, Fat(), cs, i) && c == Following(fat, cs, i)
        invariant limit + i == Limit()
        decreases limit
      {
        limit := limit - 1;
        ClearNext(fat, Fat(), cs, i);
        var next := ReadEntry(c);
        WriteEntry(c, FREE);
        c := next;
        i := i + 1;
      }
      ClearEnd(fat, Fat(), cs, i);
    }
  }

  // The first i clusters of the chain are cleared, the rest of the table is as it was.
  ghost predicate Cleared(fat: seq<nat>, now: seq<nat>, cs: seq<nat>, i: nat) {
    && IsChain(fat, cs) && |now| == |fat| && i <= |cs|
    && forall d :: 0 <= d < |fat| ==> now[d] == if d in cs[..i] then FREE else fat[d]
  }

  // The cluster number a walk along the chain holds after i steps.
  ghost function Following(fat: seq<nat>, cs: seq<nat>, i: nat): nat {
    if i < |cs| then cs[i] else if cs != [] && cs[|cs| - 1] < |fat| then fat[cs[|cs| - 1]] else END_OF_CHAIN
  }

  lemma ClearStart(fat: seq<nat>, cs: seq<nat>)
    requires IsChain(fat, cs)
    ensures Cleared(fat, fat, cs, 0) && cs[0] == Following(fat, cs, 0) && |cs| <= |fat| - 2
  {
    ChainLength(fat, cs);
  }

  lemma ClearNext(fat: seq<nat>, now: seq<nat>, cs: seq<nat>, i: nat)
    requires Cleared(fat, now, cs, i) && 2 <= Following(fat, cs, i) < END_OF_CHAIN
    ensures i < |cs|
    ensures var c := Following(fat, cs, i);
            c < |fat| && now[c] == Following(fat, cs, i + 1) && Cleared(fat, now[c := FREE], cs, i + 1)
  {
    assert i < |cs|;
    assert cs[..i + 1] == cs[..i] + [cs[i]];
    assert cs[i] !in cs[..i];
  }

  lemma ClearEnd(fat: seq<nat>, now: seq<nat>, cs: seq<nat>, i: nat)
    requires Cleared(fat, now, cs, i)
    requires (!(2 <= Following(fat, cs, i) < END_OF_CHAIN) && |fat| <= END_OF_CHAIN) || i == |cs|
    ensures forall c :: 0 <= c < |fat| ==> now[c] == if c in cs then FREE else fat[c]
  {
    assert forall j :: 0 <= j < |cs| ==> 2 <= cs[j] < |fat|;
    assert cs[..|cs|] == cs;
  }

  // The iteration limit never cuts a chain short.
  lemma LimitEnough(g: Geometry)
    requires g.Ok()
    ensures g.Clusters() + 2 <= g.totalSectors / g.spc + 2
  {
    DivMono(g.totalSectors - (g.FirstData() - VOLUME_START), g.totalSectors, g.spc);
  }

  lemma DivMono(a: nat, b: nat, n: nat)
    requires a <= b && n > 0
    ensures a / n <= b / n
  {
    if a / n > b / n { MulLe(b / n + 1, a / n, n); }
  }

  // Writing a sector of the data area leaves the tables alone.
  lemma DataWritten(g: Geometry, disk: seq<Sector>, k: nat, b: Sector)
    requires OnDisk(g, disk) && Mirrored(g, disk) && k < g.Clusters() * g.spc
    ensures g.FirstData() + k < |disk|
    ensures var disk' := disk[g.FirstData() + k := b];
            && OnDisk(g, disk') && Mirrored(g, disk')
            && FatOf(g, disk') == FatOf(g, disk) && DataOf(g, disk') == DataOf(g, disk)[k := b]
  {
    hide FatOf, DataOf, Mirrored;
    DataFits(g);
    TablesKept(g, disk, disk[g.FirstData() + k := b]);
    DataSlice(disk, g.FirstData(), g.Clusters() * g.spc, k, b);
    DataIs(g, disk);
    DataIs(g, disk[g.FirstData() + k := b]);
  }

  lemma DataIs(g: Geometry, disk: seq<Sector>)
    requires OnDisk(g, disk)
    ensures g.FirstData() + g.Clusters() * g.spc <= |disk|
    ensures DataOf(g, disk) == disk[g.FirstData()..g.FirstData() + g.Clusters() * g.spc]
  {
    DataFits(g);
  }

  lemma DataSlice(disk: seq<Sector>, lo: nat, n: nat, k: nat, b: Sector)
    requires lo + n <= |disk| && k < n
    ensures disk[lo + k := b][lo..lo + n] == disk[lo..lo + n][k := b]
  {
  }

  lemma TablesKept(g: Geometry, disk: seq<Sector>, disk': seq<Sector>)
    requires OnDisk(g, disk) && Mirrored(g, disk) && |disk'| == |disk|
    requires forall i :: 0 <= i < g.FirstData() && i < |disk| ==> disk'[i] == disk[i]
    ensures OnDisk(g, disk') && Mirrored(g, disk') && FatOf(g, disk') == FatOf(g, disk)
  {
    hide EntrySector, EntryOffset, Get32;
    if g.numFats >= 2 { MirrorFits(g, disk); }
    forall c: nat | c < g.Clusters() + 2 ensures FatOf(g, disk')[c] == FatOf(g, disk)[c] {
      EntryInTable(g, disk, c);
    }
  }
}
