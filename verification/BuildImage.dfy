// Building an image from a list of files: when everything is there afterwards, and reading it back.
module BuildImage {
  import opened Bits
  import opened FatTable
  import opened Chains
  import opened Volumes
  import opened FatContent
  import opened FatFile
  import opened FatWrite
  import opened FatName
  import opened FatSlots
  import opened FatWalk
  import opened FatTree
  import opened FatAccount
  import opened FatFs
  import opened FatSystem
  import opened MakeImage
  import C = Counting

  // ---------- What is on an image ----------

  ghost predicate OnImage(disk: seq<Sector>, d: nat) { OnDisk(G, disk) && 2 <= d < CLUSTERS + 2 }

  lemma ClusterOk(d: nat)
    requires 2 <= d < CLUSTERS + 2
    ensures ClustersOk(G, [d]) && G.Clusters() * G.spc == CLUSTERS && G.DataIndex(d, 0) == d - 2 && G.spc == 1
  {
    GeometryOk();
  }

  // The slots of the one-cluster directory d.
  ghost function ImageDir(disk: seq<Sector>, d: nat): (r: seq<Slot>)
    requires OnImage(disk, d)
  {
    ClusterOk(d);
    DirSlots(G, DataOf(G, disk), [d])
  }

  lemma ImageDirIs(disk: seq<Sector>, d: nat)
    requires OnImage(disk, d)
    ensures |DataOf(G, disk)| == CLUSTERS && ImageDir(disk, d) == Slots(DataOf(G, disk)[d - 2])
    ensures |ImageDir(disk, d)| == DIR_SLOTS
  {
    hide DataOf, Slots, DirSlots;
    ClusterOk(d);
    SectorSlots(G, DataOf(G, disk), [d], 0, 0);
    var s := ImageDir(disk, d);
    assert s == s[0..16];
  }

  // What is in cluster d.
  ghost function ClusterBytes(disk: seq<Sector>, d: nat): seq<byte>
    requires OnImage(disk, d)
  {
    ClusterOk(d);
    Bytes(G, DataOf(G, disk), [d])
  }

  lemma ClusterBytesIs(disk: seq<Sector>, d: nat)
    requires OnImage(disk, d)
    ensures |DataOf(G, disk)| == CLUSTERS && ClusterBytes(disk, d) == DataOf(G, disk)[d - 2]
  {
    hide DataOf, Contents;
    ClusterOk(d);
    var f := Flat(G, DataOf(G, disk), [d]);
    FlatAt(G, DataOf(G, disk), [d], 0, 0);
    SectorOf(f, 0);
    assert Contents(f) == Contents(f)[SECTOR * 0..SECTOR * 0 + SECTOR];
  }

  // ---------- An entry for which there is no room ----------

  // The sector of a cluster that was in use already changes only if the entry goes there.
  lemma SectorAfter(was: seq<Sector>, disk: seq<Sector>, d: nat, k: nat, e: Slot, c: nat, n: nat, data: seq<byte>,
                    x: nat)
    requires FilePut(was, disk, d, k, e, c, n, data) && 2 <= x < c
    ensures OnImage(was, x) && OnImage(disk, x) && |DataOf(G, was)| == |DataOf(G, disk)| == CLUSTERS
    ensures var s, s' := DataOf(G, was)[x - 2], DataOf(G, disk)[x - 2];
            s' == if x == EntryCluster(d, k) then Overwrite(s, SLOT * (k % DIR_SLOTS), e) else s
  {
    hide DataOf, FatOf, DataLaid, FatLaid, Overwrite, Mirrored, Untouched;
    GeometryOk();
    SlotFits(d, k);
    DataLaidAt(DataOf(G, was), c, data, n, x - 2);
  }

  // What the entry does to a directory, or to the bytes of any cluster that was in use.
  lemma ClustersAfter(was: seq<Sector>, disk: seq<Sector>, d: nat, k: nat, e: Slot, c: nat, n: nat, data: seq<byte>,
                      x: nat)
    requires FilePut(was, disk, d, k, e, c, n, data) && 2 <= x < c
    ensures OnImage(was, x) && OnImage(disk, x) && |ImageDir(was, x)| == DIR_SLOTS
    ensures |ClusterBytes(was, x)| == SECTOR && SLOT * (k % DIR_SLOTS) + SLOT <= SECTOR
    ensures if x == EntryCluster(d, k) then
              && ImageDir(disk, x) == ImageDir(was, x)[k % DIR_SLOTS := e]
              && ClusterBytes(disk, x) == Overwrite(ClusterBytes(was, x), SLOT * (k % DIR_SLOTS), e)
            else ImageDir(disk, x) == ImageDir(was, x) && ClusterBytes(disk, x) == ClusterBytes(was, x)
  {
    hide FilePut, DataOf, ImageDir, ClusterBytes, Overwrite, Slots;
    SectorAfter(was, disk, d, k, e, c, n, data, x);
    ImageDirIs(was, x);
    ImageDirIs(disk, x);
    ClusterBytesIs(was, x);
    ClusterBytesIs(disk, x);
    SlotFits(d, k);
    SlotsWrite(DataOf(G, was)[x - 2], k % DIR_SLOTS, e);
  }

  // An entry past the sixteenth does not get into its directory, so its name is not found there.
  lemma PastRoom(
    was: seq<Sector>, disk: seq<Sector>, isBin: bool, k: nat, e: Slot, c: nat, n: nat, data: seq<byte>)
    requires FilePut(was, disk, DirectoryFor(isBin), k, e, c, n, data) && DIR_SLOTS <= k
    ensures OnImage(was, DirectoryFor(isBin)) && OnImage(disk, DirectoryFor(isBin))
    ensures ImageDir(disk, DirectoryFor(isBin)) == ImageDir(was, DirectoryFor(isBin))
  {
    hide FilePut, ImageDir, ClusterBytes, Overwrite;
    FilePutFrom(was, disk, DirectoryFor(isBin), k, e, c, n, data);
    ClustersAfter(was, disk, DirectoryFor(isBin), k, e, c, n, data, DirectoryFor(isBin));
  }

  lemma FilePutFrom(was: seq<Sector>, disk: seq<Sector>, d: nat, k: nat, e: Slot, c: nat, n: nat, data: seq<byte>)
    requires FilePut(was, disk, d, k, e, c, n, data)
    ensures 4 <= c
  {
  }

  // A seventeenth entry of the root goes to the first slot of BIN, which was "."; a seventeenth of BIN
  // goes to the first bytes of cluster 4, where the first file is.
  lemma SeventeenthEntry(
    was: seq<Sector>, disk: seq<Sector>, isBin: bool, e: Slot, c: nat, n: nat, data: seq<byte>)
    requires FilePut(was, disk, DirectoryFor(isBin), DIR_SLOTS, e, c, n, data) && 4 < c
    ensures OnImage(was, BIN) && OnImage(disk, BIN) && |ImageDir(was, BIN)| == DIR_SLOTS
    ensures OnImage(was, 4) && OnImage(disk, 4) && |ClusterBytes(was, 4)| == SECTOR
    ensures ImageDir(disk, BIN) == if isBin then ImageDir(was, BIN) else ImageDir(was, BIN)[0 := e]
    ensures ClusterBytes(disk, 4) == if isBin then Overwrite(ClusterBytes(was, 4), 0, e) else ClusterBytes(was, 4)
    ensures !isBin && e[0] != DOT ==> !StartsOn(disk)
  {
    hide FilePut, ImageDir, ClusterBytes, Overwrite, DotIn, BinEntry;
    DotIs(1);
    ClustersAfter(was, disk, DirectoryFor(isBin), DIR_SLOTS, e, c, n, data, BIN);
    ClustersAfter(was, disk, DirectoryFor(isBin), DIR_SLOTS, e, c, n, data, 4);
  }

  // ---------- Lists of files ----------

  datatype Item = Item(name: seq<byte>, data: seq<byte>, isBin: bool)

  function Home(x: Item): nat { DirectoryFor(x.isBin) }

  // How many of the first n items go to the BIN directory, or to the root.
  function CountTo(items: seq<Item>, n: nat, isBin: bool): nat
    requires n <= |items|
  {
    if n == 0 then 0 else CountTo(items, n - 1, isBin) + if items[n - 1].isBin == isBin then 1 else 0
  }

  // How many of those were added.
  function AddedTo(items: seq<Item>, added: seq<bool>, n: nat, isBin: bool): nat
    requires n <= |items| && n <= |added|
  {
    if n == 0 then 0
    else AddedTo(items, added, n - 1, isBin) + if added[n - 1] && items[n - 1].isBin == isBin then 1 else 0
  }

  lemma {:induction false} AllAdded(items: seq<Item>, added: seq<bool>, n: nat, isBin: bool)
    requires n <= |items| && n <= |added| && forall i :: 0 <= i < n ==> added[i]
    ensures AddedTo(items, added, n, isBin) == CountTo(items, n, isBin)
  {
    if n > 0 { AllAdded(items, added, n - 1, isBin); }
  }

  lemma {:induction false} AddedMore(items: seq<Item>, added: seq<bool>, ok: bool, n: nat, isBin: bool)
    requires n <= |items| && n <= |added|
    ensures AddedTo(items, added + [ok], n, isBin) == AddedTo(items, added, n, isBin)
  {
    if n > 0 { AddedMore(items, added, ok, n - 1, isBin); }
  }

  // How many clusters the items take in all.
  function ClustersOf(items: seq<Item>): (n: nat) {
    if items == [] then 0 else ClustersOf(items[..|items| - 1]) + ClustersFor(|items[|items| - 1].data|)
  }

  // Distinct names, none of those the empty image has.
  ghost predicate ItemsNamed(items: seq<Item>) {
    && (forall i :: 0 <= i < |items| ==> NewItem(items[i]))
    && (forall i, j :: 0 <= i < j < |items| && items[i].isBin == items[j].isBin ==>
          Shown(items[i].name) != Shown(items[j].name))
  }

  ghost predicate NewItem(x: Item) { PlainName(x.name) && Shown(x.name) !in MapAt(StartTree(), Home(x)) }

  // The item is in the tree with its data.
  ghost predicate Present(t: Tree, x: Item) {
    && PlainName(x.name) && Shown(x.name) in MapAt(t, Home(x)) && IsDir(t, Home(x))
    && var c := MapAt(t, Home(x))[Shown(x.name)];
       c in t.body && t.body[c] == File(x.data)
  }

  // Entry k is the first live one of the item's name, a file of the item's size, and its chain cs
  // holds the item's data.
  ghost predicate FileAt(disk: seq<Sector>, x: Item, k: nat, cs: seq<nat>) {
    && OnImage(disk, Home(x)) && |x.name| == 11
    && var s := ImageDir(disk, Home(x));
       && k < |s| && Live(s[k]) && NameOf(s[k]) == Shown(x.name)
       && (forall j :: 0 <= j < k && Live(s[j]) ==> NameOf(s[j]) != Shown(x.name))
       && !IsDirectory(s[k]) && SizeOf(s[k]) == |x.data| && cs != [] && cs[0] == ClusterOf(s[k])
       && IsChain(FatOf(G, disk), cs) && HeadStored(G, DataOf(G, disk), cs, File(x.data))
  }

  ghost predicate Readable(disk: seq<Sector>, x: Item) { exists k: nat, cs: seq<nat> :: FileAt(disk, x, k, cs) }

  // The entries of the empty image are still there.
  ghost predicate StartsOn(disk: seq<Sector>) {
    && OnImage(disk, ROOT) && OnImage(disk, BIN) && |ImageDir(disk, ROOT)| == |ImageDir(disk, BIN)| == DIR_SLOTS
    && ImageDir(disk, ROOT)[0] == BinEntry()
    && ImageDir(disk, BIN)[0] == DotIn(1) && ImageDir(disk, BIN)[1] == DotIn(2)
  }

  // Every file that was added can be read, and nothing of the empty image is lost.
  ghost predicate Complete(disk: seq<Sector>, items: seq<Item>, added: seq<bool>) {
    |items| == |added| && StartsOn(disk) && forall i :: 0 <= i < |items| && added[i] ==> Readable(disk, items[i])
  }

  // ---------- More than sixteen entries do not fit ----------

  // The slots that the first entries and the first n items need are all different.
  lemma {:induction false} Places(disk: seq<Sector>, items: seq<Item>, added: seq<bool>, isBin: bool, n: nat)
    returns (ks: seq<nat>)
    requires Complete(disk, items, added) && ItemsNamed(items) && n <= |items|
    ensures |ks| == (if isBin then 2 else 1) + AddedTo(items, added, n, isBin)
    ensures C.Distinct(ks) && (forall a :: 0 <= a < |ks| ==> ks[a] < DIR_SLOTS)
    ensures forall a :: 0 <= a < |ks| ==> Taken(disk, items, isBin, n, ks[a])
  {
    hide ImageDir, FileAt, MapAt, StartTree, Shown, BinEntry, DotIn, NameOf, Taken;
    if n == 0 {
      ks := if isBin then [0, 1] else [0];
      StartTaken(disk, items, added, isBin);
    } else {
      ks := Places(disk, items, added, isBin, n - 1);
      forall a | 0 <= a < |ks| ensures Taken(disk, items, isBin, n, ks[a]) {
        TakenMore(disk, items, isBin, n - 1, ks[a]);
      }
      if added[n - 1] && items[n - 1].isBin == isBin {
        var k := PlaceOf(disk, items, added, isBin, n - 1);
        ks := ks + [k];
      }
    }
  }

  // Slot k holds an entry of the empty image, or that of one of the first n items.
  ghost predicate Taken(disk: seq<Sector>, items: seq<Item>, isBin: bool, n: nat, k: nat) {
    && OnImage(disk, DirectoryFor(isBin)) && k < |ImageDir(disk, DirectoryFor(isBin))| && n <= |items|
    && var x := NameOf(ImageDir(disk, DirectoryFor(isBin))[k]);
       x in MapAt(StartTree(), DirectoryFor(isBin)) || exists j :: 0 <= j < n && Named(items, j, isBin, x)
  }

  lemma TakenMore(disk: seq<Sector>, items: seq<Item>, isBin: bool, n: nat, k: nat)
    requires Taken(disk, items, isBin, n, k) && n < |items|
    ensures Taken(disk, items, isBin, n + 1, k)
  {
    hide ImageDir, NameOf, MapAt, StartTree, Named;
  }

  lemma StartTaken(disk: seq<Sector>, items: seq<Item>, added: seq<bool>, isBin: bool)
    requires Complete(disk, items, added)
    ensures Taken(disk, items, isBin, 0, 0) && (isBin ==> Taken(disk, items, isBin, 0, 1))
  {
    hide ImageDir, NameOf, BinEntry, DotIn, MapAt, StartTree;
    StartShape();
    BinEntries();
    DotIs(1);
    DotIs(2);
    assert seq(1, _ => DOT) == [DOT] && seq(2, _ => DOT) == [DOT, DOT];
  }

  // The next item's entry is in a slot not taken so far.
  lemma PlaceOf(disk: seq<Sector>, items: seq<Item>, added: seq<bool>, isBin: bool, n: nat) returns (k: nat)
    requires Complete(disk, items, added) && ItemsNamed(items) && n < |items| && added[n] && items[n].isBin == isBin
    ensures k < DIR_SLOTS && !Taken(disk, items, isBin, n, k) && Taken(disk, items, isBin, n + 1, k)
  {
    hide ImageDir, NameOf, MapAt, StartTree, Shown, HeadStored, IsChain, Live, IsDirectory, SizeOf, ClusterOf;
    assert Readable(disk, items[n]) && NewItem(items[n]);
    var i: nat, cs :| FileAt(disk, items[n], i, cs);
    k := i;
    ImageDirIs(disk, DirectoryFor(isBin));
    assert Named(items, n, isBin, Shown(items[n].name));
    forall j | 0 <= j < n ensures !Named(items, j, isBin, Shown(items[n].name)) {
      if items[j].isBin == isBin { assert Shown(items[j].name) != Shown(items[n].name); }
    }
  }

  lemma CompleteFits(disk: seq<Sector>, items: seq<Item>, added: seq<bool>, isBin: bool)
    requires Complete(disk, items, added) && ItemsNamed(items)
    ensures (if isBin then 2 else 1) + AddedTo(items, added, |items|, isBin) <= DIR_SLOTS
  {
    hide Complete, ItemsNamed, Taken;
    CompleteSize(disk, items, added);
    var ks := Places(disk, items, added, isBin, |items|);
    C.Pigeonhole(ks, 0, DIR_SLOTS);
  }

  lemma CompleteSize(disk: seq<Sector>, items: seq<Item>, added: seq<bool>)
    requires Complete(disk, items, added)
    ensures |items| == |added|
  {
  }

  // ---------- Up to sixteen do ----------

  // On an image that holds the tree, what is in the tree can be read.
  lemma PresentReadable(disk: seq<Sector>, t: Tree, current: nat, rootIdx: nat, binIdx: nat, x: Item)
    requires Built(disk, t, current, rootIdx, binIdx) && Present(t, x)
    ensures Readable(disk, x)
  {
    hide *;
    var d, name := Home(x), x.name;
    HomeParts(disk, t, current, rootIdx, binIdx, x);
    var c := MapAt(t, d)[Shown(name)];
    HeadAbove(FatOf(G, disk), t.own, c);
    var k := EntryFound(t, d, Shown(name));
    EntryLeads(t, d, k, c, x.data);
    LastIn(FatOf(G, disk), t.own, c);
    StoredHead(G, FatOf(G, disk), DataOf(G, disk), t.own, t.body, c);
    MakeFileAt(disk, x, k, t.own[c]);
  }

  lemma HomeParts(disk: seq<Sector>, t: Tree, current: nat, rootIdx: nat, binIdx: nat, x: Item)
    requires Built(disk, t, current, rootIdx, binIdx) && Present(t, x)
    ensures |x.name| == 11 && Shape(ROOT, t) && IsDir(t, Home(x)) && Shown(x.name) in MapAt(t, Home(x))
    ensures var c := MapAt(t, Home(x))[Shown(x.name)]; c in t.body && t.body[c] == File(x.data) && c in t.own
    ensures OnDisk(G, disk) && Stored(G, FatOf(G, disk), DataOf(G, disk), t.own, t.body) && Owned(FatOf(G, disk), t.own)
    ensures OnImage(disk, Home(x)) && t.body[Home(x)].Dir? && ImageDir(disk, Home(x)) == t.body[Home(x)].slots
  {
    hide MapAt, Shown, Stored, Untouched, Mirrored, FatOf, DataOf, DirSlots, Filled, Starts;
    ShapeKeys(ROOT, t);
    ShapeOnDisk(disk, t, current, rootIdx, binIdx, x.isBin);
    StoredOwned(G, FatOf(G, disk), DataOf(G, disk), t.own, t.body);
  }

  lemma ShapeOnDisk(disk: seq<Sector>, t: Tree, current: nat, rootIdx: nat, binIdx: nat, isBin: bool)
    requires Built(disk, t, current, rootIdx, binIdx)
    ensures var d := DirectoryFor(isBin);
            && OnImage(disk, d) && d in t.body && t.body[d].Dir? && |t.body[d].slots| == DIR_SLOTS
            && ImageDir(disk, d) == t.body[d].slots
  {
    hide Stored, Untouched, Mirrored, FatOf, DataOf, DirSlots, Filled, Starts, Shape;
    var d := DirectoryFor(isBin);
    DirPartFacts(t, d, if isBin then binIdx else rootIdx);
    StoredDir(G, FatOf(G, disk), DataOf(G, disk), t.own, t.body, d);
    ClusterOk(d);
  }

  // The first live entry of a name in the tree.
  lemma EntryFound(t: Tree, d: nat, n: seq<byte>) returns (k: nat)
    requires Shape(ROOT, t) && IsDir(t, d) && n in MapAt(t, d)
    ensures k < |t.body[d].slots| && Live(t.body[d].slots[k]) && NameOf(t.body[d].slots[k]) == n
    ensures ClusterOf(t.body[d].slots[k]) == MapAt(t, d)[n]
    ensures forall j :: 0 <= j < k && Live(t.body[d].slots[j]) ==> NameOf(t.body[d].slots[j]) != n
  {
    hide NameOf, Live, ClusterOf, MapOf;
    ShapeDir(ROOT, t, d);
    MapHas(t.body[d].slots);
    var i: nat :| Maps(t.body[d].slots, n, MapOf(t.body[d].slots)[n], i);
    k := i;
  }

  // An entry that leads to a file is the file's own.
  lemma EntryLeads(t: Tree, d: nat, k: nat, c: nat, data: seq<byte>)
    requires Shape(ROOT, t) && IsDir(t, d) && k < |t.body[d].slots| && Live(t.body[d].slots[k])
    requires ClusterOf(t.body[d].slots[k]) == c >= 2 && c in t.body && t.body[c] == File(data)
    ensures !IsDirectory(t.body[d].slots[k]) && SizeOf(t.body[d].slots[k]) == |data|
  {
    hide Live, Dots, IsDirectory, SizeOf, ClusterOf;
    ShapeChain(ROOT, t, d, k);
  }

  lemma MakeFileAt(disk: seq<Sector>, x: Item, k: nat, cs: seq<nat>)
    requires OnImage(disk, Home(x)) && |x.name| == 11 && k < |ImageDir(disk, Home(x))|
    requires var s := ImageDir(disk, Home(x));
             && Live(s[k]) && NameOf(s[k]) == Shown(x.name)
             && (forall j :: 0 <= j < k && Live(s[j]) ==> NameOf(s[j]) != Shown(x.name))
             && !IsDirectory(s[k]) && SizeOf(s[k]) == |x.data| && cs != [] && cs[0] == ClusterOf(s[k])
             && IsChain(FatOf(G, disk), cs) && HeadStored(G, DataOf(G, disk), cs, File(x.data))
    ensures Readable(disk, x)
  {
    assert FileAt(disk, x, k, cs);
  }

  lemma BuiltComplete(disk: seq<Sector>, t: Tree, current: nat, rootIdx: nat, binIdx: nat,
                      items: seq<Item>, added: seq<bool>)
    requires Built(disk, t, current, rootIdx, binIdx) && |items| == |added|
    requires forall i :: 0 <= i < |items| && added[i] ==> Present(t, items[i])
    ensures Complete(disk, items, added)
  {
    hide Present, Readable, ImageDir, Ready, Shape, DirPart, BinEntry, DotIn;
    ShapeOnDisk(disk, t, current, rootIdx, binIdx, true);
    ShapeOnDisk(disk, t, current, rootIdx, binIdx, false);
    forall i | 0 <= i < |items| && added[i] ensures Readable(disk, items[i]) {
      PresentReadable(disk, t, current, rootIdx, binIdx, items[i]);
    }
  }

  // ---------- Building ----------

  // The names of a directory after the first i items.
  ghost predicate NamesFrom(t: Tree, items: seq<Item>, i: nat, isBin: bool) {
    i <= |items| &&
    forall n :: n in MapAt(t, DirectoryFor(isBin)) ==>
      n in MapAt(StartTree(), DirectoryFor(isBin)) || exists j :: 0 <= j < i && Named(items, j, isBin, n)
  }

  ghost predicate Named(items: seq<Item>, j: int, isBin: bool, n: seq<byte>) {
    0 <= j < |items| && items[j].isBin == isBin && |items[j].name| == 11 && Shown(items[j].name) == n
  }

  // The tree after i items, if no directory has too many entries.
  ghost predicate AllIn(t: Tree, items: seq<Item>, added: seq<bool>, i: nat) {
    && i <= |items| && i <= |added| && NamesFrom(t, items, i, true) && NamesFrom(t, items, i, false)
    && forall j :: 0 <= j < i && added[j] ==> Present(t, items[j])
  }

  // The whole builder: every item that fits is laid out, one that does not is skipped.  Everything can
  // be found afterwards exactly when no directory has got more than sixteen entries.
  method Build(items: seq<Item>) returns (b: Builder, added: seq<bool>)
    requires ItemsNamed(items)
    ensures b.Sane() && |added| == |items| && fresh(b) && fresh(b.disk)
    ensures b.rootIdx == 1 + AddedTo(items, added, |items|, false)
    ensures b.binIdx == 2 + AddedTo(items, added, |items|, true)
    ensures Complete(b.disk[..], items, added) <==> b.rootIdx <= DIR_SLOTS && b.binIdx <= DIR_SLOTS
    ensures b.rootIdx <= DIR_SLOTS && b.binIdx <= DIR_SLOTS ==>
              b.Valid() && forall i :: 0 <= i < |items| && added[i] ==> Present(b.t, items[i])
    ensures ClustersOf(items) + 2 <= CLUSTERS ==> forall i :: 0 <= i < |items| ==> added[i]
  {
    hide *;
    b := new Builder();
    added := [];
    var i := 0;
    BuildStart(b.t, items);
    b.ValidSane();
    while i < |items|
      invariant 0 <= i <= |items| && |added| == i && b.Sane() && fresh(b) && fresh(b.disk)
      invariant b.rootIdx == 1 + AddedTo(items, added, i, false) && b.binIdx == 2 + AddedTo(items, added, i, true)
      invariant b.rootIdx <= DIR_SLOTS && b.binIdx <= DIR_SLOTS ==> b.Valid() && AllIn(b.t, items, added, i)
      invariant b.current <= 4 + ClustersOf(items[..i])
      invariant ClustersOf(items) + 2 <= CLUSTERS ==> forall j :: 0 <= j < i ==> added[j]
    {
      ItemPlain(items, i);
      ClustersNext(items, i);
      b.IndexFacts(items[i].isBin);
      ghost var t, c, k := b.t, b.current, b.NextIndex(items[i].isBin);
      ghost var good := b.Valid() && AllIn(t, items, added, i);
      if good {
        ItemFits(t, items, added, i, k);
        b.ShapeOf();
      }
      var ok := b.AddFile(items[i].name, items[i].data, items[i].isBin);
      if good && (!ok || k < DIR_SLOTS) { AllInNext(t, b.t, items, added, i, c, ok); }
      AddedNext(items, added, i, ok);
      added := added + [ok];
      i := i + 1;
    }
    b.ValidSane();
    BuildEnd(b.disk[..], b.t, b.current, b.rootIdx, b.binIdx, items, added);
  }

  lemma BuildStart(t: Tree, items: seq<Item>)
    requires t == StartTree()
    ensures AllIn(t, items, [], 0) && CLUSTERS == 64480 && DIR_SLOTS == 16
    ensures AddedTo(items, [], 0, true) == 0 && AddedTo(items, [], 0, false) == 0 && ClustersOf(items[..0]) == 0
  {
    hide StartTree, MapAt;
  }

  lemma ItemPlain(items: seq<Item>, i: nat)
    requires ItemsNamed(items) && i < |items|
    ensures |items[i].name| == 11 && NewItem(items[i])
  {
  }

  lemma ClustersNext(items: seq<Item>, i: nat)
    requires i < |items|
    ensures ClustersOf(items[..i + 1]) == ClustersOf(items[..i]) + ClustersFor(|items[i].data|) <= ClustersOf(items)
  {
    hide ClustersFor;
    assert items[..i + 1][..i] == items[..i];
    ClustersLe(items, i + 1);
  }

  lemma {:induction false} ClustersLe(items: seq<Item>, i: nat)
    requires i <= |items|
    ensures ClustersOf(items[..i]) <= ClustersOf(items)
    decreases |items| - i
  {
    hide ClustersFor;
    if i == |items| {
      assert items[..i] == items;
    } else {
      assert items[..i + 1][..i] == items[..i];
      ClustersLe(items, i + 1);
    }
  }

  // The next item has a new name.
  lemma ItemFits(t: Tree, items: seq<Item>, added: seq<bool>, i: nat, k: nat)
    requires ItemsNamed(items) && i < |items| && AllIn(t, items, added, i)
    ensures PlainName(items[i].name) && |items[i].name| == 11
    ensures Shown(items[i].name) !in MapAt(t, Home(items[i])) && Home(items[i]) == DirectoryFor(items[i].isBin)
    ensures k < DIR_SLOTS ==> CanTake(t, items[i].name, DirectoryFor(items[i].isBin), k)
  {
    hide MapAt, StartTree, Shown;
    var n := Shown(items[i].name);
    assert NewItem(items[i]);
    forall j | 0 <= j < i ensures !Named(items, j, items[i].isBin, n) {
      if items[j].isBin == items[i].isBin { assert Shown(items[j].name) != Shown(items[i].name); }
    }
  }

  // What adding item x with first cluster c did.
  ghost predicate Grown(t: Tree, t': Tree, x: Item, c: nat) {
    && Grew(t, t', x.name, x.data, Home(x), c) && IsDir(t, ROOT) && IsDir(t, BIN)
    && PlainName(x.name) && Shown(x.name) !in MapAt(t, Home(x))
  }

  lemma OtherMap(t: Tree, t': Tree, x: Item, c: nat, d: nat)
    requires Grown(t, t', x, c) && d in {ROOT, BIN} && d != Home(x)
    ensures MapAt(t', d) == MapAt(t, d) && IsDir(t', d)
  {
    hide Shown, MapOf;
  }

  lemma StillPresent(t: Tree, t': Tree, x: Item, y: Item, c: nat)
    requires Grown(t, t', x, c) && Present(t, y)
    ensures Present(t', y)
  {
    hide MapAt, Shown;
    if Home(y) != Home(x) { OtherMap(t, t', x, c, Home(y)); }
  }

  lemma NamesAdded(t: Tree, t': Tree, items: seq<Item>, i: nat, c: nat, isBin: bool)
    requires i < |items| && Grown(t, t', items[i], c) && NamesFrom(t, items, i, isBin)
    ensures NamesFrom(t', items, i + 1, isBin)
  {
    hide MapAt, Shown, StartTree;
    var d := DirectoryFor(isBin);
    if d != Home(items[i]) { OtherMap(t, t', items[i], c, d); }
    forall n | n in MapAt(t', d)
      ensures n in MapAt(StartTree(), d) || exists j :: 0 <= j < i + 1 && Named(items, j, isBin, n)
    {
      if n in MapAt(t, d) {
        if n !in MapAt(StartTree(), d) {
          var j :| 0 <= j < i && Named(items, j, isBin, n); assert Named(items, j, isBin, n);
        }
      } else {
        assert Named(items, i, isBin, n);
      }
    }
  }

  lemma NamesKept(t: Tree, items: seq<Item>, i: nat)
    requires i < |items| && NamesFrom(t, items, i, true) && NamesFrom(t, items, i, false)
    ensures NamesFrom(t, items, i + 1, true) && NamesFrom(t, items, i + 1, false)
  {
    hide MapAt, StartTree;
  }

  lemma AllInNext(t: Tree, t': Tree, items: seq<Item>, added: seq<bool>, i: nat, c: nat, ok: bool)
    requires i < |items| && |added| == i && AllIn(t, items, added, i) && IsDir(t, ROOT) && IsDir(t, BIN)
    requires PlainName(items[i].name) && Shown(items[i].name) !in MapAt(t, Home(items[i]))
    requires if ok then Grew(t, t', items[i].name, items[i].data, Home(items[i]), c) else t' == t
    ensures AllIn(t', items, added + [ok], i + 1)
  {
    hide NamesFrom, Present, Grew, MapAt, Shown;
    if ok {
      NamesAdded(t, t', items, i, c, true);
      NamesAdded(t, t', items, i, c, false);
      IsPresent(t, t', items[i], c);
      forall j | 0 <= j < i && added[j] ensures Present(t', items[j]) { StillPresent(t, t', items[i], items[j], c); }
    } else {
      NamesKept(t, items, i);
    }
  }

  lemma IsPresent(t: Tree, t': Tree, x: Item, c: nat)
    requires Grown(t, t', x, c)
    ensures Present(t', x)
  {
    hide MapAt, Shown;
  }

  lemma AddedNext(items: seq<Item>, added: seq<bool>, i: nat, ok: bool)
    requires i < |items| && |added| == i
    ensures forall b :: AddedTo(items, added + [ok], i + 1, b) ==
                        AddedTo(items, added, i, b) + if ok && items[i].isBin == b then 1 else 0
  {
    AddedMore(items, added, ok, i, true);
    AddedMore(items, added, ok, i, false);
  }

  lemma BuildEnd(disk: seq<Sector>, t: Tree, current: nat, rootIdx: nat, binIdx: nat,
                 items: seq<Item>, added: seq<bool>)
    requires |added| == |items| && ItemsNamed(items)
    requires rootIdx == 1 + AddedTo(items, added, |items|, false) && binIdx == 2 + AddedTo(items, added, |items|, true)
    requires rootIdx <= DIR_SLOTS && binIdx <= DIR_SLOTS ==>
               Built(disk, t, current, rootIdx, binIdx) && AllIn(t, items, added, |items|)
    ensures Complete(disk, items, added) <==> rootIdx <= DIR_SLOTS && binIdx <= DIR_SLOTS
    ensures rootIdx <= DIR_SLOTS && binIdx <= DIR_SLOTS ==>
              forall i :: 0 <= i < |items| && added[i] ==> Present(t, items[i])
  {
    hide Complete, Built, Present, NamesFrom, AddedTo, ItemsNamed;
    if rootIdx <= DIR_SLOTS && binIdx <= DIR_SLOTS {
      BuiltComplete(disk, t, current, rootIdx, binIdx, items, added);
    }
    if Complete(disk, items, added) {
      CompleteFits(disk, items, added, true);
      CompleteFits(disk, items, added, false);
    }
  }

  // ---------- Mounting, reading back ----------

  // fat32_init on the image: the boot sector is read, and the driver sees the tree that was built.
  method Mount(b: Builder) returns (fs: FileSystem)
    requires b.Valid()
    ensures fs.Valid() && fs.t == b.t && fs.v.disk == b.disk && fs.v.g == G && fs.nodes == [] && fresh(fs)
    ensures fresh(fs.v)
  {
    hide *;
    MountFacts(b);
    var g := BootGeometry(b.disk[VOLUME_START]);
    var v := new Volume(g, b.disk);
    VolumeHolds(v, b.t);
    fs := new FileSystem(v, b.t);
  }

  lemma MountFacts(b: Builder)
    requires b.Valid()
    ensures VOLUME_START < b.disk.Length && BootGeometry(b.disk[VOLUME_START]) == G
    ensures OnDisk(G, b.disk[..]) && Mirrored(G, b.disk[..]) && G.root == ROOT
    ensures Shape(ROOT, b.t) && Stored(G, FatOf(G, b.disk[..]), DataOf(G, b.disk[..]), b.t.own, b.t.body)
  {
    hide BootSector, BootGeometry, Mirrored, Stored, Shape, FatOf, DataOf;
    BootParses();
  }

  lemma VolumeHolds(v: Volume, t: Tree)
    requires v.Valid() && OnDisk(v.g, v.disk[..])
    requires Stored(v.g, FatOf(v.g, v.disk[..]), DataOf(v.g, v.disk[..]), t.own, t.body)
    ensures Stored(v.g, v.Fat(), v.Data(), t.own, t.body)
  {
    hide Stored, FatOf, DataOf, Mirrored;
  }

  // A file found by its name on a mounted volume, and read as a whole.
  method Fetch(fs: FileSystem, d: nat, name: seq<byte>) returns (buffer: array<byte>)
    requires fs.Valid() && IsDir(fs.t, d) && CString(name) && |fs.nodes| < MAX_NODES && Upper(name) in MapAt(fs.t, d)
    requires var c := MapAt(fs.t, d)[Upper(name)]; c >= 2 && c in fs.t.body && fs.t.body[c].File?
    modifies fs
    ensures fs.Valid() && fs.t == old(fs.t) && buffer[..] == fs.t.body[MapAt(fs.t, d)[Upper(name)]].bytes
  {
    hide *;
    var i := fs.Open(d, name);
    fs.ValidParts();
    OpenNode(fs.t, fs.nodes, i);
    OpenFacts(fs.t, fs.nodes, i);
    buffer := new byte[fs.nodes[i].size];
    ghost var blank := buffer[..];
    var n := fs.Read(i, 0, fs.nodes[i].size, buffer);
    OverwriteAll(blank, fs.t.body[fs.nodes[i].first].bytes);
  }

  lemma OpenNode(t: Tree, nodes: seq<Node>, i: nat)
    requires i < |nodes| && nodes[i].first >= 2 && nodes[i].first in t.body && t.body[nodes[i].first].File?
    ensures OpenFile(t, nodes, i)
    ensures forall b: seq<byte> :: Window(b, 0, |b|) == b
  {
    forall b: seq<byte> ensures Window(b, 0, |b|) == b {}
  }

  lemma OverwriteAll(a: seq<byte>, b: seq<byte>)
    requires |a| == |b|
    ensures Overwrite(a, 0, b) == b
  {
  }

  // Unlinking "." of BIN in the empty image frees BIN's own cluster: it is named still, but no longer in use.
  lemma UnlinkDot(fat: seq<nat>)
    requires Owned(fat, StartOwners() - {BIN})
    ensures IsDir(StartTree(), BIN) && |StartTree().body[BIN].slots| == DIR_SLOTS
    ensures var slots := StartTree().body[BIN].slots;
            && NameOf(slots[0]) == [DOT] && ClusterOf(slots[0]) == BIN
            && !Accounted(fat, ROOT, Removed(StartTree(), BIN, slots[0 := Erased(slots[0])], BIN))
  {
    hide *;
    StartShape();
    StartNames();
    StartParts();
    DotIs(1);
    assert seq(1, _ => DOT) == [DOT];
    DotCannotGo(StartTree(), DotIn(1));
    UnlinkExactly(fat, ROOT, StartTree(), BIN, 0, BIN);
  }

  lemma StartParts()
    ensures StartTree().own == StartOwners() && StartTree().body[BIN].slots[0] == DotIn(1) && BIN >= 2
    ensures |StartTree().body[BIN].slots| == DIR_SLOTS && DIR_SLOTS == 16
  {
    hide DotIn, BinEntry, ZeroSlots;
  }

  lemma DotCannotGo(t: Tree, e: Slot)
    requires Dots(e) && ClusterOf(e) == BIN
    ensures !CanGo(t, e)
  {
  }

  // What the builder laid out the driver reads back, byte for byte, under the name given to the driver.
  method BuildThenRead(items: seq<Item>, k: nat, name: seq<byte>) returns (found: bool, buffer: array<byte>)
    requires ItemsNamed(items) && k < |items| && GoodName(name) && To83(name) == items[k].name
    ensures found ==> buffer[..] == items[k].data
    ensures (&& ClustersOf(items) + 2 <= CLUSTERS
             && 1 + CountTo(items, |items|, false) <= DIR_SLOTS
             && 2 + CountTo(items, |items|, true) <= DIR_SLOTS) ==> found
  {
    hide *;
    var b, added := Build(items);
    found := b.rootIdx <= DIR_SLOTS && b.binIdx <= DIR_SLOTS && added[k];
    buffer := new byte[0];
    if ClustersOf(items) + 2 <= CLUSTERS {
      AllAdded(items, added, |items|, true);
      AllAdded(items, added, |items|, false);
    }
    if found {
      var fs := Mount(b);
      PresentNamed(b.t, items[k], name);
      PresentHead(fs, items[k]);
      NoNodesRoom();
      buffer := Fetch(fs, Home(items[k]), name);
    }
  }

  lemma PresentNamed(t: Tree, x: Item, name: seq<byte>)
    requires Present(t, x) && GoodName(name) && To83(name) == x.name
    ensures CString(name) && IsDir(t, Home(x)) && Upper(name) == Shown(x.name) && Upper(name) in MapAt(t, Home(x))
    ensures var c := MapAt(t, Home(x))[Upper(name)]; c in t.body && t.body[c] == File(x.data)
  {
    hide MapAt, Upper, To83, Fits83, UpToNul, Parse83, NonSpace;
    NameRoundTrip(name);
    UpperTwice(name);
    NoNul(Upper(name));
  }

  lemma PresentHead(fs: FileSystem, x: Item)
    requires fs.Valid() && Present(fs.t, x)
    ensures |x.name| == 11 && Shown(x.name) in MapAt(fs.t, Home(x)) && MapAt(fs.t, Home(x))[Shown(x.name)] >= 2
  {
    hide MapAt, Shown, Shape, Stored, NodesOk;
    fs.ValidParts();
    HeadAbove(fs.v.Fat(), fs.t.own, MapAt(fs.t, Home(x))[Shown(x.name)]);
  }

  lemma NoNodesRoom()
    ensures 0 < MAX_NODES
  {
  }
}
