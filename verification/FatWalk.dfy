// The directory walker and what is done at the slot it finds: rewriting it, or growing the directory.
module FatWalk {
  import opened Bits
  import opened Counting
  import opened FatTable
  import opened Chains
  import opened Volumes
  import opened FatContent
  import opened FatFile
  import opened FatWrite
  import opened FatName
  import opened FatSlots

  const PER_SECTOR: nat := 16

  // ---------- Slots on the disk ----------

  // The slots of the directory whose chain is cs.
  ghost function DirSlots(g: Geometry, data: seq<Sector>, cs: seq<nat>): (r: seq<Slot>)
    requires ClustersOk(g, cs) && |data| == g.Clusters() * g.spc
    ensures |r| == PER_SECTOR * (|cs| * g.spc)
  {
    Slots(Bytes(g, data, cs))
  }

  // Entry e of sector s of the i-th cluster, as a slot of the directory.
  function SlotNo(g: Geometry, i: nat, s: nat, e: nat): nat { PER_SECTOR * (i * g.spc + s) + e }

  lemma SectorSlots(g: Geometry, data: seq<Sector>, cs: seq<nat>, i: nat, s: nat)
    requires ClustersOk(g, cs) && |data| == g.Clusters() * g.spc && i < |cs| && s < g.spc
    ensures g.DataIndex(cs[i], s) < |data| && SlotNo(g, i, s, 0) + PER_SECTOR <= |DirSlots(g, data, cs)|
    ensures DirSlots(g, data, cs)[SlotNo(g, i, s, 0)..SlotNo(g, i, s, 0) + PER_SECTOR] ==
            Slots(data[g.DataIndex(cs[i], s)])
  {
    hide Flat, Contents, Slots;
    FlatAt(g, data, cs, i, s);
    SectorOf(Flat(g, data, cs), i * g.spc + s);
    SlotsOfPart(Bytes(g, data, cs), i * g.spc + s);
  }

  lemma SectorOf(flat: seq<Sector>, j: nat)
    requires j < |flat|
    ensures Contents(flat)[SECTOR * j..SECTOR * j + SECTOR] == flat[j]
  {
    hide Contents;
    ContentsSlice(flat, j, 0, SECTOR);
    assert flat[j][0..0 + SECTOR] == flat[j];
  }

  lemma SlotsOfPart(b: seq<byte>, j: nat)
    requires SECTOR * j + SECTOR <= |b|
    ensures PER_SECTOR * j + PER_SECTOR <= |Slots(b)|
    ensures Slots(b)[PER_SECTOR * j..PER_SECTOR * j + PER_SECTOR] == Slots(b[SECTOR * j..SECTOR * j + SECTOR])
  {
    var x, y := Slots(b)[PER_SECTOR * j..PER_SECTOR * j + PER_SECTOR], Slots(b[SECTOR * j..SECTOR * j + SECTOR]);
    forall e | 0 <= e < PER_SECTOR ensures x[e] == y[e] {
      SubSlice(b, SECTOR * j, SLOT * e, PER_SECTOR * j + e);
    }
  }

  lemma SubSlice(b: seq<byte>, p: nat, o: nat, k: nat)
    requires p + SECTOR <= |b| && o + SLOT <= SECTOR && SLOT * k == p + o
    ensures b[p..p + SECTOR][o..o + SLOT] == b[SLOT * k..SLOT * k + SLOT]
  {
  }

  // ---------- Walking ----------

  lemma {:induction false} NulFree(s: seq<byte>)
    ensures CString(UpToNul(s))
  {
    if s != [] && s[0] != 0 { NulFree(s[1..]); }
  }

  // What is still looked for after current entries have been counted.
  ghost function Left(q: Query, current: nat): Query {
    if q.Index? && current <= q.n then Index(q.n - current) else q
  }

  ghost predicate Searchable(q: Query, current: nat) {
    match q
    case Index(n) => current <= n
    case Named(name) => CString(name)
    case Room => true
  }

  datatype Scan = Hit(e: nat) | Stop | On(current: nat)

  // The innermost loop of fat32_walk_dir, over the sixteen entries of a sector.
  method ScanSector(s: Sector, q: Query, current: nat, ghost slots: seq<Slot>, ghost base: nat) returns (r: Scan)
    requires Searchable(q, current) && base + PER_SECTOR <= |slots| && slots[base..base + PER_SECTOR] == Slots(s)
    ensures match r
            case Hit(e) => e < PER_SECTOR && Search(slots, Left(q, current), base) == Found(base + e)
            case Stop => Search(slots, Left(q, current), base) == Ended
            case On(n) => Searchable(q, n) &&
                          Search(slots, Left(q, current), base) == Search(slots, Left(q, n), base + PER_SECTOR)
  {
    hide NameOf, UpToNul, Live;
    var n, e := current, 0;
    while e < PER_SECTOR
      invariant 0 <= e <= PER_SECTOR && Searchable(q, n)
      invariant Search(slots, Left(q, current), base) == Search(slots, Left(q, n), base + e)
    {
      var entry: Slot := s[SLOT * e..SLOT * e + SLOT];
      assert slots[base..base + PER_SECTOR][e] == Slots(s)[e] == entry;
      if q.Room? {
        if Free(entry) { return Hit(e); }
      } else {
        if EndMark(entry) { return Stop; }
        var live := IsLive(entry);
        if live {
          match q
          case Index(target) =>
            if n == target { return Hit(e); }
            n := n + 1;
          case Named(name) =>
            var same := SameName(entry, name);
            if same { return Hit(e); }
            n := n + 1;
        }
      }
      e := e + 1;
    }
    r := On(n);
  }

  // Deleted entries, parts of long names and the volume label are passed over.
  method IsLive(entry: Slot) returns (live: bool)
    ensures live == Live(entry) || EndMark(entry)
    ensures !EndMark(entry) ==> live == Live(entry)
  {
    if entry[0] == DELETED { return false; }
    if Attr(entry) == ATTR_LFN { return false; }
    if Attr(entry) as int / 8 % 2 == 1 { return false; }
    return true;
  }

  method SameName(entry: Slot, name: seq<byte>) returns (same: bool)
    requires CString(name)
    ensures same == (NameOf(entry) == Upper(name))
  {
    var parsed := ParseName(entry[..11]);
    NulFree(parsed);
    var d := Compare(UpToNul(parsed), name);
    return d == 0;
  }

  datatype Spot = Spot(c: nat, s: nat, e: nat)

  // The middle loop, over the sectors of a cluster.
  method ScanCluster(v: Volume, c: nat, q: Query, current: nat, ghost cs: seq<nat>, ghost i: nat)
    returns (r: Scan, s: nat)
    requires v.Valid() && ClustersOk(v.g, cs) && i < |cs| && c == cs[i] && Searchable(q, current)
    ensures var slots := DirSlots(v.g, v.Data(), cs);
            match r
            case Hit(e) => e < PER_SECTOR && s < v.g.spc &&
                           Search(slots, Left(q, current), SlotNo(v.g, i, 0, 0)) == Found(SlotNo(v.g, i, s, e))
            case Stop => Search(slots, Left(q, current), SlotNo(v.g, i, 0, 0)) == Ended
            case On(n) => Searchable(q, n) &&
                          Search(slots, Left(q, current), SlotNo(v.g, i, 0, 0)) ==
                          Search(slots, Left(q, n), SlotNo(v.g, i + 1, 0, 0))
  {
    hide FatOf, DataOf, Mirrored, Search, DirSlots, Slots, Left, Searchable;
    ghost var slots := DirSlots(v.g, v.Data(), cs);
    var n := current;
    s := 0;
    while s < v.g.spc
      invariant s <= v.g.spc && Searchable(q, n)
      invariant Search(slots, Left(q, current), SlotNo(v.g, i, 0, 0)) == Search(slots, Left(q, n), SlotNo(v.g, i, s, 0))
    {
      SectorSlots(v.g, v.Data(), cs, i, s);
      var b := v.ReadSector(c, s);
      r := ScanSector(b, q, n, slots, SlotNo(v.g, i, s, 0));
      if !r.On? { return; }
      n := r.current;
      s := s + 1;
    }
    NextRow(i, v.g.spc);
    r := On(n);
  }

  // fat32_walk_dir up to the point where the entry is found or the directory ends. When the chain
  // ends without an end mark, spot.c is its last cluster.
  method Walk(v: Volume, dir: nat, q: Query, ghost cs: seq<nat>)
    returns (found: bool, atEnd: bool, spot: Spot, ghost i: nat)
    requires v.Valid() && IsChain(v.Fat(), cs) && cs[0] == dir && ClustersOk(v.g, cs) && Searchable(q, 0)
    ensures var slots := DirSlots(v.g, v.Data(), cs);
            if found then
              && i < |cs| && spot.c == cs[i] && spot.s < v.g.spc && spot.e < PER_SECTOR
              && Search(slots, q, 0) == Found(SlotNo(v.g, i, spot.s, spot.e))
            else if atEnd then Search(slots, q, 0).Past? && spot.c == Last(cs)
            else Search(slots, q, 0) == Ended
  {
    hide *;
    ghost var slots, fat := DirSlots(v.g, v.Data(), cs), v.Fat();
    WalkChain(v, cs);
    var c, current: nat, limit: nat := dir, 0, v.Limit();
    i := 0;
    found, atEnd, spot := false, false, Spot(dir, 0, 0);
    WalkStart(v.g, slots, q);
    while c < END_OF_CHAIN && limit > 0
      invariant i < |cs| && c == cs[i] && Searchable(q, current)
      invariant Search(slots, q, 0) == Search(slots, Left(q, current), SlotNo(v.g, i, 0, 0))
      invariant v.g.spc > 0 && limit + i == v.Limit()
      decreases limit
    {
      limit := limit - 1;
      WalkNext(v, cs, i);
      var r, s := ScanCluster(v, c, q, current, cs, i);
      match r
      case Hit(e) => return true, false, Spot(c, s, e), i;
      case Stop => return;
      case On(n) =>
        current := n;
        var next := v.ReadEntry(c);
        if next >= END_OF_CHAIN {
          WalkEnd(v.g, v.Data(), cs, Left(q, n));
          return false, true, Spot(c, 0, 0), i;
        }
        c := next;
        i := i + 1;
    }
    WalkNext(v, cs, i);
  }

  lemma WalkStart(g: Geometry, slots: seq<Slot>, q: Query)
    ensures Left(q, 0) == q && SlotNo(g, 0, 0, 0) == 0
  {
  }

  lemma WalkChain(v: Volume, cs: seq<nat>)
    requires v.Valid() && IsChain(v.Fat(), cs)
    ensures v.g.spc > 0 && 0 < |cs| <= v.g.Clusters() < v.Limit()
  {
    ChainLength(v.Fat(), cs);
    LimitCovers(v);
  }

  lemma WalkNext(v: Volume, cs: seq<nat>, i: nat)
    requires v.Valid() && IsChain(v.Fat(), cs) && i < |cs|
    ensures v.g.spc > 0 && |cs| <= v.g.Clusters() < v.Limit() && |v.Fat()| == v.g.Clusters() + 2
    ensures 2 <= cs[i] < |v.Fat()| && cs[i] < END_OF_CHAIN
    ensures if v.Fat()[cs[i]] >= END_OF_CHAIN then i + 1 == |cs| && cs[i] == Last(cs)
            else i + 1 < |cs| && v.Fat()[cs[i]] == cs[i + 1]
  {
    WalkChain(v, cs);
    FollowChain(v.Fat(), cs, i);
  }

  lemma WalkEnd(g: Geometry, data: seq<Sector>, cs: seq<nat>, q: Query)
    requires ClustersOk(g, cs) && |data| == g.Clusters() * g.spc
    ensures Search(DirSlots(g, data, cs), q, SlotNo(g, |cs|, 0, 0)) == Past(q)
  {
  }

  // ---------- Acting on what was found ----------

  // The found sector is read again, 32 of its bytes are replaced, and it is written back.
  method ReplaceSlot(v: Volume, spot: Spot, e: Slot, ghost cs: seq<nat>, ghost i: nat)
    requires v.Valid() && ClustersOk(v.g, cs) && Distinct(cs) && i < |cs| && spot.c == cs[i]
    requires spot.s < v.g.spc && spot.e < PER_SECTOR
    modifies v.disk
    ensures v.Valid() && v.Fat() == old(v.Fat()) && SameOutside(v.g, old(v.Data()), v.Data(), cs)
    ensures SlotNo(v.g, i, spot.s, spot.e) < |DirSlots(v.g, old(v.Data()), cs)|
    ensures DirSlots(v.g, v.Data(), cs) == DirSlots(v.g, old(v.Data()), cs)[SlotNo(v.g, i, spot.s, spot.e) := e]
  {
    hide FatOf, DataOf, Mirrored, DirSlots, SameOutside, Overwrite, Distinct, ClustersOk, Bytes;
    ghost var data := v.Data();
    SpotRange(v.g, cs, i);
    var n := WritePart(v, spot.c, spot.s, SLOT * spot.e, e, 0);
    assert n == SLOT && e[0..0 + n] == e;
    SlotReplaced(v.g, data, v.Data(), cs, i, spot.s, spot.e, e);
  }

  lemma SpotRange(g: Geometry, cs: seq<nat>, i: nat)
    requires ClustersOk(g, cs) && i < |cs|
    ensures g.Ok() && g.InRange(cs[i])
  {
  }

  lemma SlotReplaced(g: Geometry, data: seq<Sector>, data': seq<Sector>, cs: seq<nat>, i: nat, s: nat, e: nat, b: Slot)
    requires ClustersOk(g, cs) && Distinct(cs) && i < |cs| && s < g.spc && e < PER_SECTOR && ClustersOk(g, [cs[i]])
    requires SameOutside(g, data, data', [cs[i]])
    requires SECTOR * s + SLOT * e + SLOT <= |Bytes(g, data, [cs[i]])|
    requires Bytes(g, data', [cs[i]]) == Overwrite(Bytes(g, data, [cs[i]]), SECTOR * s + SLOT * e, b)
    ensures SameOutside(g, data, data', cs) && |data| == |data'| == g.Clusters() * g.spc
    ensures SlotNo(g, i, s, e) < |DirSlots(g, data, cs)|
    ensures DirSlots(g, data', cs) == DirSlots(g, data, cs)[SlotNo(g, i, s, e) := b]
  {
    hide Bytes, SameOutside, Overwrite, Slots;
    SameSizes(g, data, data', [cs[i]]);
    ChainWrite(g, data, data', cs, i, SECTOR * s + SLOT * e, b);
    SlotsWrite(Bytes(g, data, cs), SlotNo(g, i, s, e), b);
    assert cs[i] in cs;
    SameOutsideTrans(g, data, data', data', [cs[i]], [cs[i]], cs);
  }

  // The slots of a directory that got n more, all zero, with entry e put in the first free one.
  ghost predicate Placed(slots: seq<Slot>, slots': seq<Slot>, k: nat, e: Slot) {
    && |slots| <= |slots'| && k < |slots'|
    && var room := slots + ZeroSlots(|slots'| - |slots|);
       slots' == room[k := e] && Free(room[k]) && forall j :: 0 <= j < k ==> !Free(room[j])
  }

  // Growing a directory: allocate, link, clear.
  method GrowDirectory(v: Volume, c: nat, ghost h: nat, ghost own: Owners) returns (r: nat, ghost own': Owners)
    requires v.Valid() && Owned(v.Fat(), own) && h in own && c == Last(own[h])
    modifies v.disk, v`nextFree
    ensures v.Valid() && Owned(v.Fat(), own') && ClustersOk(v.g, own[h])
    ensures r == 0 ==> own' == own && v.Fat() == old(v.Fat()) && v.Data() == old(v.Data()) && Full(v.Fat())
    ensures r != 0 ==> own' == own[h := own[h] + [r]] && v.g.InRange(r)
    ensures r != 0 ==> SameOutside(v.g, old(v.Data()), v.Data(), [r]) && ClustersOk(v.g, own'[h])
    ensures r != 0 ==> Bytes(v.g, v.Data(), own'[h]) == Bytes(v.g, old(v.Data()), own[h]) + Zeros(ClusterSize(v.g))
  {
    hide *;
    ghost var g, fat, data := v.g, v.Fat(), v.Data();
    own' := own;
    ValidFacts(v);
    LastIn(fat, own, h);
    ChainOk(g, fat, own[h]);
    r := v.AllocCluster();
    if r == 0 { FullIs(g, fat); return; }
    FreshIs(g, fat, c, r);
    Grown(fat, own, h, r);
    v.WriteEntry(c, r);
    ZeroCluster(v, r);
    own' := own[h := own[h] + [r]];
    GrownBytes(g, data, v.Data(), own[h], r);
  }

  // fat32_write_dir_entry_to_dir: mode 2 of the walk.
  method AddEntry(v: Volume, dir: nat, e: Slot, ghost own: Owners) returns (ok: bool, ghost own': Owners, ghost k: nat)
    requires v.Valid() && Owned(v.Fat(), own) && dir in own
    modifies v.disk, v`nextFree
    ensures v.Valid() && Owned(v.Fat(), own') && ClustersOk(v.g, own[dir])
    ensures !ok ==> own' == own && v.Fat() == old(v.Fat()) && v.Data() == old(v.Data()) && Full(v.Fat())
    ensures ok ==> dir in own' && own' == own[dir := own'[dir]] && own[dir] <= own'[dir] && ClustersOk(v.g, own'[dir])
    ensures ok ==> SameOutside(v.g, old(v.Data()), v.Data(), own'[dir])
    ensures ok ==> Placed(DirSlots(v.g, old(v.Data()), own[dir]), DirSlots(v.g, v.Data(), own'[dir]), k, e)
  {
    hide *;
    ghost var g, fat, data, cs := v.g, v.Fat(), v.Data(), own[dir];
    own', k := own, 0;
    ValidFacts(v);
    StartChain(g, fat, own, dir);
    LastIn(fat, own, dir);
    ChainOk(g, fat, cs);
    ghost var slots := DirSlots(g, data, cs);
    RoomQuery(slots);
    ghost var i;
    var found, atEnd, spot;
    found, atEnd, spot, i := Walk(v, dir, Room, cs);
    if found {
      ReplaceSlot(v, spot, e, cs, i);
      k := SlotNo(g, i, spot.s, spot.e);
      PlacedHere(slots, k, e);
      return true, own', k;
    }
    var r: nat;
    r, own' := GrowDirectory(v, spot.c, dir, own);
    if r == 0 { return false, own', 0; }
    ghost var cs', data1 := own'[dir], v.Data();
    ChainOfOwner(g, v.Fat(), own', dir);
    DirGrown(g, data, data1, cs, cs');
    ReplaceSlot(v, Spot(r, 0, 0), e, cs', |cs|);
    SameOutsideTrans(g, data, data1, v.Data(), [r], cs', cs');
    k := |slots|;
    PlacedNext(slots, DirSlots(g, data1, cs'), e, k);
    SlotNoAt(g, |cs|, k);
    return true, own', k;
  }

  lemma RoomQuery(slots: seq<Slot>)
    ensures Searchable(Room, 0)
    ensures var o := Search(slots, Room, 0);
            && !o.Ended? && (o.Found? ==> o.at < |slots| && Free(slots[o.at]))
            && forall j :: 0 <= j < (if o.Found? then o.at else |slots|) ==> !Free(slots[j])
  {
    SearchRoom(slots, 0);
  }

  lemma PlacedHere(slots: seq<Slot>, k: nat, e: Slot)
    requires k < |slots| && Free(slots[k]) && forall j :: 0 <= j < k ==> !Free(slots[j])
    ensures Placed(slots, slots[k := e], k, e)
  {
    assert slots + ZeroSlots(0) == slots;
  }

  lemma PlacedNext(slots: seq<Slot>, grown: seq<Slot>, e: Slot, k: nat)
    requires k == |slots| < |grown| && grown == slots + ZeroSlots(|grown| - |slots|)
    requires forall j :: 0 <= j < |slots| ==> !Free(slots[j])
    ensures Placed(slots, grown[k := e], k, e)
  {
  }

  lemma SlotNoAt(g: Geometry, i: nat, k: nat)
    requires k == PER_SECTOR * (i * g.spc)
    ensures SlotNo(g, i, 0, 0) == k
  {
  }

  lemma ChainOfOwner(g: Geometry, fat: seq<nat>, own: Owners, h: nat)
    requires g.Ok() && |fat| == g.Clusters() + 2 && Owned(fat, own) && h in own
    ensures IsChain(fat, own[h]) && own[h][0] == h && ClustersOk(g, own[h]) && Distinct(own[h])
  {
    ChainOk(g, fat, own[h]);
  }

  lemma DirGrown(g: Geometry, data: seq<Sector>, data': seq<Sector>, cs: seq<nat>, cs': seq<nat>)
    requires ClustersOk(g, cs) && ClustersOk(g, cs') && |data| == |data'| == g.Clusters() * g.spc && |cs'| == |cs| + 1
    requires Bytes(g, data', cs') == Bytes(g, data, cs) + Zeros(ClusterSize(g))
    ensures |DirSlots(g, data, cs)| < |DirSlots(g, data', cs')|
    ensures |DirSlots(g, data, cs)| == PER_SECTOR * (|cs| * g.spc)
    ensures DirSlots(g, data', cs') ==
            DirSlots(g, data, cs) + ZeroSlots(|DirSlots(g, data', cs')| - |DirSlots(g, data, cs)|)
  {
    hide Bytes, Slots;
    NextRow(|cs|, g.spc);
    SlotsAppend(Bytes(g, data, cs), Zeros(ClusterSize(g)));
    SlotsZero(PER_SECTOR * g.spc);
  }

  // Modes 0 and 1 of the walk: the entry of that index or name.
  method Lookup(v: Volume, dir: nat, q: Query, ghost own: Owners)
    returns (found: bool, spot: Spot, entry: Slot, ghost i: nat)
    requires v.Valid() && Owned(v.Fat(), own) && dir in own && Searchable(q, 0)
    ensures ClustersOk(v.g, own[dir])
    ensures found ==> i < |own[dir]| && spot.c == own[dir][i] && spot.s < v.g.spc && spot.e < PER_SECTOR
    ensures var slots := DirSlots(v.g, v.Data(), own[dir]);
            if found then Search(slots, q, 0) == Found(SlotNo(v.g, i, spot.s, spot.e))
                          && SlotNo(v.g, i, spot.s, spot.e) < |slots| && entry == slots[SlotNo(v.g, i, spot.s, spot.e)]
            else !Search(slots, q, 0).Found?
  {
    hide *;
    ghost var g, cs := v.g, own[dir];
    ValidFacts(v);
    ChainOfOwner(g, v.Fat(), own, dir);
    var atEnd;
    found, atEnd, spot, i := Walk(v, dir, q, cs);
    entry := NoSlot();
    if found {
      SpotRange(g, cs, i);
      var b := v.ReadSector(spot.c, spot.s);
      entry := SlotIn(b, spot.e);
      SlotAt(g, v.Data(), cs, i, spot.s, spot.e);
    }
  }

  lemma QueryOk(q: Query)
    requires q.Named? ==> CString(q.name)
    ensures Searchable(q, 0)
  {
  }

  function NoSlot(): Slot { Zeros(SLOT) }

  function SlotIn(b: Sector, e: nat): Slot
    requires e < PER_SECTOR
  {
    b[SLOT * e..SLOT * e + SLOT]
  }

  lemma SlotAt(g: Geometry, data: seq<Sector>, cs: seq<nat>, i: nat, s: nat, e: nat)
    requires ClustersOk(g, cs) && |data| == g.Clusters() * g.spc && i < |cs| && s < g.spc && e < PER_SECTOR
    ensures g.DataIndex(cs[i], s) < |data| && SlotNo(g, i, s, e) < |DirSlots(g, data, cs)|
    ensures DirSlots(g, data, cs)[SlotNo(g, i, s, e)] == SlotIn(data[g.DataIndex(cs[i], s)], e)
  {
    hide DirSlots;
    SectorSlots(g, data, cs, i, s);
    var k := SlotNo(g, i, s, 0);
    assert DirSlots(g, data, cs)[k..k + PER_SECTOR][e] == Slots(data[g.DataIndex(cs[i], s)])[e];
  }
}
