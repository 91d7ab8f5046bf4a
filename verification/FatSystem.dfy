// The mounted file system: every operation keeps the whole volume consistent, and does to the tree
// of files and directories what its name says.
module FatSystem {
  import opened Bits
  import opened FatTable
  import opened Chains
  import opened Volumes
  import opened FatContent
  import opened FatFile
  import opened FatWrite
  import opened FatName
  import opened FatSlots
  import opened FatWalk
  import opened FatTree
  import opened FatAccount
  import opened FatFs

  // An opened file or directory (fat32_real_file_t with its vnode); first is 0 once it is unlinked.
  datatype Node = Node(name: seq<byte>, first: nat, size: nat, dir: nat, isDir: bool)

  const MAX_NODES: nat := 64

  lemma NodeLimit()
    ensures MAX_NODES == 64
  {
  }

  // A node that is still linked agrees with the tree.
  ghost predicate NodeOk(t: Tree, n: Node) {
    n.first >= 2 && n.first in t.body ==>
      && (n.isDir <==> t.body[n.first].Dir?)
      && (!n.isDir ==> FileNode(t, n))
  }

  ghost predicate FileNode(t: Tree, n: Node) {
    && n.first in t.body && t.body[n.first].File? && n.size == |t.body[n.first].bytes| && CString(n.name)
    && n.first in t.loc
    && var p := t.loc[n.first];
       && p.dir == n.dir && IsDir(t, p.dir) && p.slot < |t.body[p.dir].slots|
       && NameOf(t.body[p.dir].slots[p.slot]) == Upper(n.name)
  }

  ghost predicate NodesOk(t: Tree, nodes: seq<Node>) {
    && |nodes| <= MAX_NODES
    && (forall i :: 0 <= i < |nodes| ==> NodeOk(t, nodes[i]) && (nodes[i].first >= 2 ==> nodes[i].first in t.body))
    && forall i, j :: 0 <= i < j < |nodes| && nodes[i].first >= 2 ==> nodes[i].first != nodes[j].first
  }

  // The map from names to first clusters that directory d stands for.
  ghost function MapAt(t: Tree, d: nat): map<seq<byte>, nat> {
    if IsDir(t, d) then MapOf(t.body[d].slots) else map[]
  }

  lemma LookupMap(root: nat, t: Tree, d: nat, name: seq<byte>)
    requires Shape(root, t) && IsDir(t, d)
    ensures var o := Search(t.body[d].slots, Named(name), 0);
            && (o.Found? <==> Upper(name) in MapAt(t, d))
            && (o.Found? ==>
                  && HasName(t.body[d].slots, o.at, name)
                  && MapAt(t, d)[Upper(name)] == ClusterOf(t.body[d].slots[o.at]))
  {
    hide Live, NameOf, ClusterOf, Search;
    var slots := t.body[d].slots;
    ShapeDir(root, t, d);
    SearchName(slots, name, 0);
    MapHas(slots);
    if Upper(name) in MapOf(slots) {
      var k: nat :| Maps(slots, Upper(name), MapOf(slots)[Upper(name)], k);
      assert HasName(slots, k, name);
    }
  }

  // The directory has an entry of that name, in whatever case, and every such entry has cluster c.
  ghost predicate Has(t: Tree, d: nat, name: seq<byte>, c: nat) {
    && IsDir(t, d) && (exists k :: Lists(t.body[d].slots, name, k))
    && forall k :: Lists(t.body[d].slots, name, k) ==> ClusterOf(t.body[d].slots[k]) == c
  }

  ghost predicate HasNone(t: Tree, d: nat, name: seq<byte>) {
    IsDir(t, d) && forall k :: !Lists(t.body[d].slots, name, k)
  }

  lemma ListedAt(root: nat, t: Tree, d: nat, name: seq<byte>)
    requires Shape(root, t) && IsDir(t, d)
    ensures Upper(name) in MapAt(t, d) ==> Has(t, d, name, MapAt(t, d)[Upper(name)])
    ensures Upper(name) !in MapAt(t, d) ==> HasNone(t, d, name)
  {
    hide Lists, MapOf, Upper, ClusterOf;
    ShapeDir(root, t, d);
    ListedName(t.body[d].slots, name);
  }

  class FileSystem {
    const v: Volume
    var nodes: seq<Node>
    ghost var t: Tree

    ghost predicate Valid()
      reads this, v, v.disk
    {
      && v.Valid() && Shape(v.g.root, t) && Stored(v.g, v.Fat(), v.Data(), t.own, t.body) && NodesOk(t, nodes)
    }

    // A volume that holds a tree is mounted with no node open.
    constructor (volume: Volume, ghost tree: Tree)
      requires volume.Valid() && Shape(volume.g.root, tree)
      requires Stored(volume.g, volume.Fat(), volume.Data(), tree.own, tree.body)
      ensures Valid() && v == volume && t == tree && nodes == []
    {
      hide *;
      v, nodes, t := volume, [], tree;
      new;
      NoNodes(tree);
      MakeValid();
    }

    // The common end of create and mkdir: the entry of the new chain c is added to the directory;
    // if there is no room the chain is given back.
    method Enter(dir: nat, name: seq<byte>, e: Slot, c: nat, ghost b: Body, ghost fat: seq<nat>) returns (ok: bool)
      requires v.Valid() && Shape(v.g.root, t) && NodesOk(t, nodes) && IsDir(t, dir) && c !in t.own
      requires 2 <= c < |fat| && fat[c] == FREE && Owned(fat, t.own) && v.Fat() == fat[c := EOF_MARK]
      requires Stored(v.g, v.Fat(), v.Data(), t.own[c := [c]], t.body[c := b])
      requires Refers(e) && ClusterOf(e) == c && NameOf(e) == Upper(name) && NewBody(b, e, dir, c)
      requires Upper(name) !in MapAt(t, dir)
      modifies v, v.disk, `t
      ensures Valid()
      ensures !ok ==> t == old(t) && v.Fat() == fat && AtMostOneFree(fat)
      ensures ok ==> IsDir(t, dir) && MapAt(t, dir) == old(MapAt(t, dir))[Upper(name) := c]
      ensures ok ==> t.body == old(t.body)[dir := t.body[dir]][c := b] && c in t.own
    {
      hide *;
      ghost var g, own1, body1, data := v.g, t.own[c := [c]], t.body[c := b], v.Data();
      ValidFacts(v);
      ShapeDir(g.root, t, dir);
      StoredDir(g, v.Fat(), data, own1, body1, dir);
      ghost var own2, k;
      RefersLive(e);
      ok, own2, k := AddEntry(v, dir, e, own1);
      if !ok {
        v.WriteEntry(c, FREE);
        ShapeKeys(g.root, t);
        RolledBack(g, fat, data, t.own, t.body, c, b);
        OneFree(fat, c);
        FreeIsFree();
        MakeValid();
        return false;
      }
      ghost var slots' := DirSlots(g, v.Data(), own2[dir]);
      DirStored(g, v.Data(), own2[dir], slots');
      StoredStep(g, fat[c := EOF_MARK], v.Fat(), data, v.Data(), own1, own2, body1, dir, Dir(slots'));
      NewName(g.root, t, dir, e, name);
      ghost var t' := Entered(t, dir, slots', k, c, own2, b);
      EnteredShape(g.root, t, dir, slots', k, e, c, own2, b);
      EnteredMap(g.root, t, dir, slots', k, e, c, own2, b);
      FilesHaveEntries(g.root, t);
      ShapeKeys(g.root, t);
      EnteredNodes(t, dir, slots', k, e, c, own2, b, nodes);
      t := t';
      MakeValid();
    }

    // Mode 1 of the walk on a directory of the tree: the slot of a name, which is in the map
    // exactly when it is found.
    method Search1(dir: nat, name: seq<byte>) returns (found: bool, spot: Spot, entry: Slot, ghost i: nat)
      requires Valid() && IsDir(t, dir) && CString(name)
      ensures found <==> Upper(name) in MapAt(t, dir)
      ensures found ==> ClusterOf(entry) == MapAt(t, dir)[Upper(name)]
      ensures if found then Has(t, dir, name, ClusterOf(entry)) else HasNone(t, dir, name)
      ensures dir in t.own && ClustersOk(v.g, t.own[dir])
      ensures found ==> i < |t.own[dir]| && spot.c == t.own[dir][i] && spot.s < v.g.spc && spot.e < PER_SECTOR
      ensures found ==> var k := SlotNo(v.g, i, spot.s, spot.e);
                        HasName(t.body[dir].slots, k, name) && t.body[dir].slots[k] == entry
                        && Search(t.body[dir].slots, Named(name), 0) == Found(k)
    {
      hide *;
      ValidParts();
      ShapeDir(v.g.root, t, dir);
      StoredDir(v.g, v.Fat(), v.Data(), t.own, t.body, dir);
      QueryOk(Named(name));
      found, spot, entry, i := Lookup(v, dir, Named(name), t.own);
      LookupMap(v.g.root, t, dir, name);
      ListedAt(v.g.root, t, dir, name);
    }

    // fat32_create: the cluster of the file of that name; a new empty file if there is none.
    method Create(dir: nat, name: seq<byte>) returns (c: nat)
      requires Valid() && IsDir(t, dir) && GoodName(name)
      modifies v, v.disk, `t
      ensures Valid() && IsDir(t, dir)
      ensures Upper(name) in old(MapAt(t, dir)) ==>
                c == old(MapAt(t, dir))[Upper(name)] && t == old(t) && Has(t, dir, name, c)
      ensures Upper(name) !in old(MapAt(t, dir)) ==> HasNone(old(t), dir, name)
      ensures Upper(name) !in old(MapAt(t, dir)) && c == 0 ==>
                t == old(t) && v.Fat() == old(v.Fat()) && AtMostOneFree(v.Fat())
      ensures Upper(name) !in old(MapAt(t, dir)) && c != 0 ==>
                && c !in old(t.own) && c in t.own && MapAt(t, dir) == old(MapAt(t, dir))[Upper(name) := c]
                && t.body == old(t.body)[dir := t.body[dir]][c := File([])]
    {
      hide *;
      GoodCString(name);
      ghost var i;
      var found, spot, entry;
      found, spot, entry, i := Search1(dir, name);
      if found { return ClusterOf(entry); }
      ValidParts();
      ghost var g, fat, data := v.g, v.Fat(), v.Data();
      c := v.AllocCluster();
      if c == 0 { FullIs(g, fat); FullOneFree(fat); MakeValid(); return; }
      ClusterFits(g, c);
      ZeroCluster(v, c);
      NewFileStored(g, v.Data(), c);
      ChainAdded(g, fat, data, v.Data(), t.own, t.body, c, File([]));
      var name83 := NameTo83(name);
      NamedEntry(name, ATTR_ARCHIVE, c);
      FileBody(Entry83(name83, ATTR_ARCHIVE, c), dir, c);
      var ok := Enter(dir, name, Entry83(name83, ATTR_ARCHIVE, c), c, File([]), fat);
      if !ok { return 0; }
    }

    // fat32_mkdir: a new directory holding only "." and "..", unless the name is taken.
    method Mkdir(dir: nat, name: seq<byte>) returns (c: nat)
      requires Valid() && IsDir(t, dir) && GoodName(name)
      modifies v, v.disk, `t
      ensures Valid() && IsDir(t, dir)
      ensures Upper(name) in old(MapAt(t, dir)) ==>
                c == 0 && t == old(t) && Has(t, dir, name, old(MapAt(t, dir))[Upper(name)])
      ensures Upper(name) !in old(MapAt(t, dir)) ==> HasNone(old(t), dir, name)
      ensures Upper(name) !in old(MapAt(t, dir)) && c == 0 ==>
                t == old(t) && v.Fat() == old(v.Fat()) && AtMostOneFree(v.Fat())
      ensures Upper(name) !in old(MapAt(t, dir)) && c != 0 ==>
                && c !in old(t.own) && c in t.own && MapAt(t, dir) == old(MapAt(t, dir))[Upper(name) := c]
                && c in t.body && t.body == old(t.body)[dir := t.body[dir]][c := t.body[c]]
                && IsDir(t, c) && NewDirMap(MapAt(t, c), c, dir)
    {
      hide *;
      GoodCString(name);
      ghost var i;
      var found, spot, entry;
      found, spot, entry, i := Search1(dir, name);
      if found { return 0; }
      ValidParts();
      ghost var g, fat, data := v.g, v.Fat(), v.Data();
      c := v.AllocCluster();
      if c == 0 { FullIs(g, fat); FullOneFree(fat); MakeValid(); return; }
      ClusterFits(g, c);
      ZeroCluster(v, c);
      ghost var data1, fat1 := v.Data(), v.Fat();
      DirFits(g, v.g.root, fat, t, dir);
      var dot, dotdot := Entry83(DotName(1), ATTR_DIRECTORY, c), Entry83(DotName(2), ATTR_DIRECTORY, dir);
      var sec := DotSector(dot, dotdot);
      NewDirectory(g, data, data1, c, dir, dot, dotdot, sec);
      v.WriteSector(c, 0, sec);
      ghost var slots := NewSlots(PER_SECTOR * g.spc, c, dir);
      ChainAdded(g, fat, data, v.Data(), t.own, t.body, c, Dir(slots));
      var name83 := NameTo83(name);
      NamedEntry(name, ATTR_DIRECTORY, c);
      var e := Entry83(name83, ATTR_DIRECTORY, c);
      NewSlotsOk(PER_SECTOR * g.spc, c, dir, e);
      var ok := Enter(dir, name, e, c, Dir(slots), fat);
      if !ok { return 0; }
      NewMap(t, PER_SECTOR * g.spc, c, dir);
    }

    // fat32_unlink: the entry of that name is erased, the chain it leads to freed and open nodes cut off,
    // whatever the entry is.  The volume stays in order exactly for a file, an empty directory and a dot
    // entry without a cluster.
    method Unlink(dir: nat, name: seq<byte>) returns (r: int)
      requires Valid() && IsDir(t, dir) && CString(name)
      modifies v, v.disk, `t, `nodes
      ensures v.Valid() && Stored(v.g, v.Fat(), v.Data(), t.own, t.body)
      ensures Upper(name) !in old(MapAt(t, dir)) ==> r == -1 && Valid() && t == old(t) && nodes == old(nodes)
      ensures Upper(name) in old(MapAt(t, dir)) ==>
                var h := old(MapAt(t, dir))[Upper(name)];
                && r == 0 && t.own == old(t.own) - {h} && nodes == Forgotten(old(nodes), h)
                && (Accounted(v.Fat(), v.g.root, t) <==> Unlinkable(old(t), dir, name))
      ensures Unlinkable(old(t), dir, name) ==> Valid() && IsDir(t, dir)
      ensures Unlinkable(old(t), dir, name) && Upper(name) in old(MapAt(t, dir)) ==>
                var h := old(MapAt(t, dir))[Upper(name)];
                && h != dir && MapAt(t, dir) == old(MapAt(t, dir)) - {Upper(name)}
                && t.body == (old(t.body) - {h})[dir := t.body[dir]]
    {
      hide *;
      ValidParts();
      ghost var i;
      var found, spot, entry;
      found, spot, entry, i := Search1(dir, name);
      if !found { return -1; }
      var first := ClusterOf(entry);
      ShapeDir(v.g.root, t, dir);
      ghost var t0, k := t, SlotNo(v.g, i, spot.s, spot.e);
      ghost var slots := t0.body[dir].slots;
      FoundLeads(v.Fat(), v.g.root, t, dir, name, k);
      found, spot, entry, i := Search1(dir, name);
      EraseAndFree(v, dir, spot, entry, first, t.own, t.body, i);
      UnlinkExactly(v.Fat(), v.g.root, t0, dir, k, first);
      OneSlot(v.g.root, t0, dir, name, k);
      t := Removed(t0, dir, slots[k := Erased(entry)], first);
      RemovedIs(t0, dir, slots[k := Erased(entry)], first);
      ghost var n0 := nodes;
      nodes := Forget(nodes, first);
      if CanGo(t0, entry) {
        RemovedTree(v.g.root, t0, dir, k, first, n0);
        MakeValid();
      }
      return 0;
    }

    // fat32_dir_finddir with fat32_create_vnode: the node of an entry, made on first use; none, not even
    // one made before, while the table of nodes is full.
    method Open(dir: nat, name: seq<byte>) returns (i: int)
      requires Valid() && IsDir(t, dir) && CString(name)
      modifies `nodes
      ensures Valid() && old(nodes) <= nodes && -1 <= i < |nodes|
      ensures i >= 0 <==> Upper(name) in MapAt(t, dir) && |old(nodes)| < MAX_NODES
      ensures i == -1 ==> nodes == old(nodes)
      ensures i >= 0 ==> nodes[i].first == MapAt(t, dir)[Upper(name)] && Has(t, dir, name, nodes[i].first)
      ensures if i >= 0 then |old(nodes)| < 64 else |nodes| < 64 ==> HasNone(t, dir, name)
    {
      hide *;
      NodeLimit();
      ghost var j;
      var found, spot, entry;
      found, spot, entry, j := Search1(dir, name);
      if !found { return -1; }
      if |nodes| >= MAX_NODES { return -1; }
      var k := FindNode(nodes, ClusterOf(entry));
      if k >= 0 { return k; }
      ValidParts();
      var parsed := ParseName(entry[..11]);
      var n := Node(UpToNul(parsed), ClusterOf(entry), SizeOf(entry), dir, IsDirectory(entry));
      ShapeDir(v.g.root, t, dir);
      NewNode(v.g.root, t, dir, name, SlotNo(v.g, j, spot.s, spot.e), n, nodes);
      nodes := nodes + [n];
      MakeValid();
      return |nodes| - 1;
    }

    // fat32_dir_readdir: the index-th live entry of the directory, in the order of the slots.
    method ReadDir(dir: nat, index: nat) returns (found: bool, name: seq<byte>, c: nat)
      requires Valid() && IsDir(t, dir)
      ensures found <==> index < |LiveFrom(t.body[dir].slots, 0)|
      ensures found ==> var k := LiveFrom(t.body[dir].slots, 0)[index];
                        k < |t.body[dir].slots| && Upper(name) == NameOf(t.body[dir].slots[k])
                        && c == ClusterOf(t.body[dir].slots[k]) && Upper(name) in MapAt(t, dir)
                        && c == MapAt(t, dir)[Upper(name)]
    {
      hide *;
      ValidParts();
      ShapeDir(v.g.root, t, dir);
      StoredDir(v.g, v.Fat(), v.Data(), t.own, t.body, dir);
      QueryOk(Index(index));
      ghost var i;
      var spot, entry;
      found, spot, entry, i := Lookup(v, dir, Index(index), t.own);
      IndexMap(t, dir, index);
      var parsed := ParseName(entry[..11]);
      name, c := UpToNul(parsed), ClusterOf(entry);
      NameIs(entry);
    }

    // fat32_file_read on an open file.
    method Read(i: nat, offset: nat, size: nat, buffer: array<byte>) returns (n: nat)
      requires Valid() && OpenFile(t, nodes, i) && size <= buffer.Length
      modifies buffer
      ensures Valid() && t == old(t) && nodes == old(nodes)
      ensures OpenFile(t, nodes, i) &&
              var w := Window(t.body[nodes[i].first].bytes, offset, size);
              n == |w| <= buffer.Length && buffer[..] == Overwrite(old(buffer[..]), 0, w)
    {
      hide *;
      ValidParts();
      OpenFacts(t, nodes, i);
      ghost var h := nodes[i].first;
      StoredFile(v.g, v.Fat(), v.Data(), t.own, t.body, h);
      n := ReadFile(v, nodes[i].first, nodes[i].size, offset, size, buffer, t.own[h]);
      MakeValid();
    }

    // fat32_file_write on an open file: its bytes become those of a write to a byte sequence, its
    // entry records the new size, and nothing else in the tree changes.
    method Write(i: nat, offset: nat, buf: seq<byte>) returns (n: int)
      requires Valid() && OpenFile(t, nodes, i) && offset + |buf| < 0x1_0000_0000
      modifies v, v.disk, `t, `nodes
      ensures Valid() && |nodes| == |old(nodes)| && OpenFile(t, nodes, i)
      ensures buf == [] ==> n == -1 && t == old(t) && nodes == old(nodes)
      ensures buf != [] ==> 0 <= n <= |buf| && (n < |buf| ==> Full(v.Fat()))
      ensures buf != [] ==>
                var h, d := old(nodes)[i].first, old(nodes)[i].dir;
                && nodes[i].first == h && nodes == old(nodes)[i := nodes[i]]
                && t.own.Keys == old(t.own).Keys && d in t.body && MapAt(t, d) == old(MapAt(t, d))
                && t.body == old(t.body)[d := t.body[d]][h := File(Written(old(t.body[h].bytes), offset, buf[..n]))]
    {
      hide *;
      ValidParts();
      OpenFacts(t, nodes, i);
      ghost var g, h, bytes := v.g, nodes[i].first, t.body[nodes[i].first].bytes;
      StoredBound(g, v.Fat(), v.Data(), t.own, t.body, h);
      ghost var own';
      n, own' := WriteStored(v, nodes[i].first, offset, buf, t.own, t.body);
      FileAt(g.root, t, nodes[i]);
      if n <= 0 {
        NothingWritten(bytes, offset);
        assert n == 0 ==> buf[..n] == [];
        GrownTree(g.root, t, own', h, nodes, bytes);
        GrownMap(t, own', nodes[i].dir, nodes, i);
        t := t.(own := own');
        MakeValid();
        return;
      }
      ghost var bytes', d, k := Written(bytes, offset, buf[..n]), nodes[i].dir, t.loc[h].slot;
      var size: nat := SizeAfter(nodes[i].size, offset, n);
      SizeWritten(bytes, offset, buf, n);
      UpdateEntry(v, nodes[i].dir, nodes[i].name, size, nodes[i].first, own', t.body[h := File(bytes')], k);
      RewrittenTree(g.root, t, d, k, h, own', bytes', nodes, i);
      ghost var t' := Rewritten(t, d, t.body[d].slots[k := Resized(t.body[d].slots[k], size, h)], h, own', bytes');
      StillOpen(t', nodes, i, size);
      nodes := nodes[i := nodes[i].(size := size)];
      t := t';
      MakeValid();
    }

    lemma ValidParts()
      requires Valid()
      ensures v.Valid() && Shape(v.g.root, t) && Stored(v.g, v.Fat(), v.Data(), t.own, t.body) && NodesOk(t, nodes)
      ensures v.g.Ok() && |v.Fat()| == v.g.Clusters() + 2 && |v.Data()| == v.g.Clusters() * v.g.spc
      ensures Owned(v.Fat(), t.own) && t.body.Keys == t.own.Keys
    {
    }

    lemma MakeValid()
      requires v.Valid() && Shape(v.g.root, t) && Stored(v.g, v.Fat(), v.Data(), t.own, t.body) && NodesOk(t, nodes)
      ensures Valid()
    {
    }
  }

  lemma NoNodes(t: Tree)
    ensures NodesOk(t, [])
  {
  }

  lemma FilesHaveEntries(root: nat, t: Tree)
    requires Shape(root, t)
    ensures forall h :: h in t.body && t.body[h].File? ==> HasEntry(t, h)
  {
    hide HasEntry, HasChain, DirOk;
  }

  // What a new directory maps: "." to itself, ".." to its parent.
  ghost predicate NewDirMap(m: map<seq<byte>, nat>, c: nat, parent: nat) { m == map[[DOT] := c, [DOT, DOT] := parent] }

  lemma NewMap(t: Tree, n: nat, c: nat, parent: nat)
    requires n >= 2 && c < 0x1_0000_0000 && parent < 0x1_0000_0000 && c in t.body
    requires t.body[c] == Dir(NewSlots(n, c, parent))
    ensures IsDir(t, c) && NewDirMap(MapAt(t, c), c, parent)
  {
    hide NameOf, ClusterOf, Entry83, MapOf, Live;
    var s, m := NewSlots(n, c, parent), map[[DOT] := c, [DOT, DOT] := parent];
    DotEntry(1, c);
    DotEntry(2, parent);
    assert seq(1, _ => DOT) == [DOT] && seq(2, _ => DOT) == [DOT, DOT];
    ZeroNotLive();
    assert Maps(s, [DOT], c, 0) && Maps(s, [DOT, DOT], parent, 1);
    assert |NameOf(s[0])| == 1 && |NameOf(s[1])| == 2;
    forall x | x in m ensures exists k: nat :: Maps(s, x, m[x], k) {
      if x == [DOT] { assert Maps(s, x, m[x], 0); } else { assert Maps(s, x, m[x], 1); }
    }
    MapIs(s, m);
  }

  lemma ZeroNotLive()
    ensures forall n: nat, i :: 0 <= i < n ==> !Live(ZeroSlots(n)[i])
  {
  }

  lemma DirFits(g: Geometry, root: nat, fat: seq<nat>, t: Tree, d: nat)
    requires g.Ok() && |fat| == g.Clusters() + 2 && Shape(root, t) && Owned(fat, t.own) && IsDir(t, d)
    ensures d < 0x1_0000_0000
  {
    ShapeDir(root, t, d);
    LastIn(fat, t.own, d);
  }

  // The sector buffer that mkdir fills: zeros, then the two entries.
  method DotSector(dot: Slot, dotdot: Slot) returns (sec: Sector)
    ensures sec == Overwrite(Overwrite(ZeroSector(), 0, dot), SLOT, dotdot)
  {
    sec := Patch(ZeroSector(), 0, dot, 0, SLOT);
    sec := Patch(sec, SLOT, dotdot, 0, SLOT);
    assert dot[0..0 + SLOT] == dot && dotdot[0..0 + SLOT] == dotdot;
  }

  lemma IndexMap(t: Tree, d: nat, index: nat)
    requires IsDir(t, d) && DirOk(t.body[d].slots)
    ensures var l, o := LiveFrom(t.body[d].slots, 0), Search(t.body[d].slots, Index(index), 0);
            && (o.Found? <==> index < |l|)
            && (o.Found? ==> o.at == l[index] < |t.body[d].slots| && NameOf(t.body[d].slots[o.at]) in MapAt(t, d)
                             && MapAt(t, d)[NameOf(t.body[d].slots[o.at])] == ClusterOf(t.body[d].slots[o.at]))
  {
    hide Live, NameOf, ClusterOf, Search, LiveFrom;
    SearchIndex(t.body[d].slots, index, 0);
    LiveOnce(t.body[d].slots, 0);
    MapHas(t.body[d].slots);
  }

  // The name, if there is such an entry, is one that can be unlinked without harm.
  ghost predicate Unlinkable(t: Tree, d: nat, name: seq<byte>) {
    IsDir(t, d) && forall k :: HasName(t.body[d].slots, k, name) ==> CanGo(t, t.body[d].slots[k])
  }

  // The nodes of the chain of h lose it.
  ghost function Forgotten(nodes: seq<Node>, h: nat): (r: seq<Node>)
    ensures |r| == |nodes|
  {
    seq(|nodes|, i requires 0 <= i < |nodes| => if nodes[i].first == h then nodes[i].(first := 0) else nodes[i])
  }

  // The found entry is marked deleted and the chain it leads to, if any, is freed.
  method EraseAndFree(
    v: Volume, dir: nat, spot: Spot, entry: Slot, first: nat,
    ghost own: Owners, ghost body: map<nat, Body>, ghost i: nat)
    requires v.Valid() && Stored(v.g, v.Fat(), v.Data(), own, body) && dir in body && body[dir].Dir?
    requires dir in own && (first in own <==> first >= 2) && ClustersOk(v.g, own[dir])
    requires i < |own[dir]| && spot.c == own[dir][i] && spot.s < v.g.spc && spot.e < PER_SECTOR
    requires SlotNo(v.g, i, spot.s, spot.e) < |body[dir].slots|
    modifies v.disk
    ensures v.Valid()
    ensures Stored(v.g, v.Fat(), v.Data(), own - {first},
                   body[dir := Dir(body[dir].slots[SlotNo(v.g, i, spot.s, spot.e) := Erased(entry)])] - {first})
    ensures Owned(v.Fat(), own - {first})
  {
    hide *;
    ghost var g, fat, data := v.g, v.Fat(), v.Data();
    ValidFacts(v);
    StoredDir(g, fat, data, own, body, dir);
    ChainOfOwner(g, fat, own, dir);
    ReplaceSlot(v, spot, Erased(entry), own[dir], i);
    ghost var slots' := body[dir].slots[SlotNo(g, i, spot.s, spot.e) := Erased(entry)];
    DirStored(g, v.Data(), own[dir], slots');
    SameOwner(own, dir);
    StoredStep(g, fat, v.Fat(), data, v.Data(), own, own, body, dir, Dir(slots'));
    if first >= 2 {
      ChainOfOwner(g, fat, own, first);
      v.FreeChain(first, own[first]);
      Freed(fat, v.Fat(), own, first);
      StoredRemove(g, fat, v.Fat(), v.Data(), own, body[dir := Dir(slots')], first);
    } else {
      StoredKeys(g, fat, v.Data(), own, body[dir := Dir(slots')]);
      assert own - {first} == own && body[dir := Dir(slots')] - {first} == body[dir := Dir(slots')];
    }
  }

  lemma StoredKeys(g: Geometry, fat: seq<nat>, data: seq<Sector>, own: Owners, body: map<nat, Body>)
    requires Stored(g, fat, data, own, body)
    ensures body.Keys == own.Keys && Owned(fat, own)
  {
  }

  // The tree without h and its entry.
  lemma RemovedTree(root: nat, t: Tree, d: nat, k: nat, h: nat, nodes: seq<Node>)
    requires Shape(root, t) && IsDir(t, d) && k < |t.body[d].slots| && Live(t.body[d].slots[k])
    requires ClusterOf(t.body[d].slots[k]) == h && CanGo(t, t.body[d].slots[k]) && NodesOk(t, nodes)
    requires h in t.own <==> h >= 2
    ensures var t' := Removed(t, d, t.body[d].slots[k := Erased(t.body[d].slots[k])], h);
            && Shape(root, t') && NodesOk(t', Forgotten(nodes, h))
            && h != d && IsDir(t', d) && MapAt(t', d) == MapAt(t, d) - {NameOf(t.body[d].slots[k])}
            && t'.body == (t.body - {h})[d := t'.body[d]]
  {
    var e := t.body[d].slots[k];
    hide *;
    DotNowhere(t, e);
    FilesHaveEntries(root, t);
    RemovedShape(root, t, d, k, h);
    NotAbove(root, t, d, k, h);
    RemovedMap(root, t, d, k, h);
    RemovedNodes(t, d, k, h, nodes);
  }

  lemma RemovedIs(t: Tree, d: nat, slots': seq<Slot>, h: nat)
    ensures var t' := Removed(t, d, slots', h);
            t'.own == t.own - {h} && t'.body == t.body[d := Dir(slots')] - {h}
  {
  }

  // The loop at the end of fat32_unlink.
  method Forget(nodes: seq<Node>, h: nat) returns (r: seq<Node>)
    ensures r == Forgotten(nodes, h)
  {
    r := nodes;
    var i := 0;
    while i < |nodes|
      invariant 0 <= i <= |nodes| == |r|
      invariant forall j :: 0 <= j < |nodes| ==>
                  r[j] == if j < i && nodes[j].first == h then nodes[j].(first := 0) else nodes[j]
    {
      if r[i].first == h { r := r[i := r[i].(first := 0)]; }
      i := i + 1;
    }
  }

  lemma SameOwner(own: Owners, d: nat)
    requires d in own
    ensures own == own[d := own[d]]
  {
  }

  lemma HeadAbove(fat: seq<nat>, own: Owners, h: nat)
    requires Owned(fat, own) && h in own
    ensures h >= 2
  {
    LastIn(fat, own, h);
  }

  // What an entry found by name leads to: a chain, or, for a dot entry, possibly no cluster.
  lemma FoundLeads(fat: seq<nat>, root: nat, t: Tree, d: nat, name: seq<byte>, k: nat)
    requires Owned(fat, t.own) && Shape(root, t) && IsDir(t, d) && HasName(t.body[d].slots, k, name)
    ensures k < |t.body[d].slots| && Live(t.body[d].slots[k]) && NameOf(t.body[d].slots[k]) == Upper(name)
    ensures ClusterOf(t.body[d].slots[k]) in t.own <==> ClusterOf(t.body[d].slots[k]) >= 2
  {
    hide ClusterOf, NameOf, Live, Dots, IsDirectory, SizeOf, DirOk, Owned;
    ShapeChain(root, t, d, k);
    if ClusterOf(t.body[d].slots[k]) in t.own { HeadAbove(fat, t.own, ClusterOf(t.body[d].slots[k])); }
  }

  // Names are unique, so the entry found decides.
  lemma OneSlot(root: nat, t: Tree, d: nat, name: seq<byte>, k: nat)
    requires Shape(root, t) && IsDir(t, d) && HasName(t.body[d].slots, k, name)
    ensures Unlinkable(t, d, name) <==> CanGo(t, t.body[d].slots[k])
  {
    hide NameOf, Live, CanGo;
    ShapeDir(root, t, d);
  }

  lemma RemovedMap(root: nat, t: Tree, d: nat, k: nat, h: nat)
    requires Shape(root, t) && IsDir(t, d) && k < |t.body[d].slots| && Live(t.body[d].slots[k]) && h != d
    ensures var t' := Removed(t, d, t.body[d].slots[k := Erased(t.body[d].slots[k])], h);
            && IsDir(t', d) && MapAt(t', d) == MapAt(t, d) - {NameOf(t.body[d].slots[k])}
            && t'.body == (t.body - {h})[d := t'.body[d]]
  {
    hide NameOf, ClusterOf, Live, MapOf, DirOk, Erased;
    ShapeDir(root, t, d);
    ErasedOk(t.body[d].slots, k);
  }

  lemma RemovedNodes(t: Tree, d: nat, k: nat, h: nat, nodes: seq<Node>)
    requires NodesOk(t, nodes) && IsDir(t, d) && k < |t.body[d].slots|
    requires if Dots(t.body[d].slots[k]) then h !in t.body else ClusterOf(t.body[d].slots[k]) == h
    requires h in t.body && t.body[h].Dir? ==> NoEntries(t.body[h].slots)
    requires forall x :: x in t.body && t.body[x].File? ==> HasEntry(t, x)
    ensures NodesOk(Removed(t, d, t.body[d].slots[k := Erased(t.body[d].slots[k])], h), Forgotten(nodes, h))
  {
    hide NameOf, ClusterOf, Live, Dots, Upper, Erased, IsDirectory, SizeOf;
    var t', nodes' := Removed(t, d, t.body[d].slots[k := Erased(t.body[d].slots[k])], h), Forgotten(nodes, h);
    forall i | 0 <= i < |nodes| ensures NodeOk(t', nodes'[i]) && (nodes'[i].first >= 2 ==> nodes'[i].first in t'.body) {
      var n := nodes[i];
      assert NodeOk(t, n);
      if n.first != h && n.first >= 2 && !n.isDir {
        assert HasEntry(t, n.first);
        RemovedEntry(t, d, k, h, n.first);
      }
    }
  }

  // The loop of fat32_create_vnode over the nodes made so far.
  method FindNode(nodes: seq<Node>, c: nat) returns (k: int)
    ensures -1 <= k < |nodes|
    ensures k >= 0 ==> nodes[k].first == c
    ensures k == -1 ==> forall j :: 0 <= j < |nodes| ==> nodes[j].first != c
  {
    for i := 0 to |nodes|
      invariant forall j :: 0 <= j < i ==> nodes[j].first != c
    {
      if nodes[i].first == c { return i; }
    }
    return -1;
  }

  // The node made for an entry agrees with the tree.
  lemma NewNode(root: nat, t: Tree, d: nat, name: seq<byte>, k: nat, n: Node, nodes: seq<Node>)
    requires Shape(root, t) && IsDir(t, d) && HasName(t.body[d].slots, k, name) && NodesOk(t, nodes)
    requires |nodes| < MAX_NODES
    requires forall j :: 0 <= j < |nodes| ==> nodes[j].first != n.first
    requires var e := t.body[d].slots[k];
             n == Node(UpToNul(Parse83(e[..11])), ClusterOf(e), SizeOf(e), d, IsDirectory(e))
    ensures NodesOk(t, nodes + [n])
  {
    hide ClusterOf, SizeOf, IsDirectory, UpToNul, Parse83, Upper, DirOk;
    var e := t.body[d].slots[k];
    ShapeDir(root, t, d);
    ShapeChain(root, t, d, k);
    NameIs(e);
    NulFree(Parse83(e[..11]));
    ShapeKeys(root, t);
    NewNodeOk(root, t, d, k, n);
  }

  lemma NewNodeOk(root: nat, t: Tree, d: nat, k: nat, n: Node)
    requires Shape(root, t) && IsDir(t, d) && k < |t.body[d].slots| && Live(t.body[d].slots[k])
    requires HasChain(t, root, d, k, t.body[d].slots[k])
    requires Refers(t.body[d].slots[k]) ==> HasEntry(t, n.first) && t.loc[n.first] == Place(d, k)
    requires var e := t.body[d].slots[k];
             n.first == ClusterOf(e) && n.size == SizeOf(e) && n.dir == d && n.isDir == IsDirectory(e)
             && CString(n.name) && Upper(n.name) == NameOf(e)
    ensures NodeOk(t, n) && (n.first >= 2 ==> n.first in t.body)
  {
    hide ClusterOf, SizeOf, IsDirectory, NameOf, Upper, DirOk, Live, CString;
  }

  // Node i is a file that has not been unlinked.
  ghost predicate OpenFile(t: Tree, nodes: seq<Node>, i: nat) {
    i < |nodes| && nodes[i].first >= 2 && nodes[i].first in t.body && t.body[nodes[i].first].File?
  }

  lemma OpenFacts(t: Tree, nodes: seq<Node>, i: nat)
    requires NodesOk(t, nodes) && OpenFile(t, nodes, i)
    ensures i < |nodes| && nodes[i].first in t.body && t.body[nodes[i].first].File?
    ensures nodes[i].first >= 2 && FileNode(t, nodes[i]) && nodes[i].size == |t.body[nodes[i].first].bytes|
  {
    assert NodeOk(t, nodes[i]);
  }

  lemma StoredFile(g: Geometry, fat: seq<nat>, data: seq<Sector>, own: Owners, body: map<nat, Body>, h: nat)
    requires g.Ok() && |fat| == g.Clusters() + 2 && Stored(g, fat, data, own, body) && h in body && body[h].File?
    ensures h in own && ClustersOk(g, own[h]) && |data| == g.Clusters() * g.spc
    ensures FileOk(g, fat, h, |body[h].bytes|, own[h])
    ensures |body[h].bytes| <= SECTOR * (|own[h]| * g.spc)
    ensures FileBytes(g, data, own[h], |body[h].bytes|) == body[h].bytes
    ensures ZeroTail(Bytes(g, data, own[h]), |body[h].bytes|)
  {
    hide Bytes, IsChain, ZeroTail;
    StoredHead(g, fat, data, own, body, h);
    ChainOfOwner(g, fat, own, h);
    LastIn(fat, own, h);
  }

  // The data part of a write, on the stored tree.
  method WriteStored(v: Volume, first: nat, offset: nat, buf: seq<byte>, ghost own: Owners, ghost body: map<nat, Body>)
    returns (n: int, ghost own': Owners)
    requires v.Valid() && Stored(v.g, v.Fat(), v.Data(), own, body) && first in own && first in body
    requires body[first].File?
    requires offset + |buf| < 0x1_0000_0000
    modifies v, v.disk
    ensures v.Valid() && own'.Keys == own.Keys
    ensures buf == [] ==> n == -1 && own' == own
    ensures buf != [] ==> 0 <= n <= |buf| && (n < |buf| ==> Full(v.Fat()))
    ensures var d := if n <= 0 then [] else buf[..n];
            Stored(v.g, v.Fat(), v.Data(), own', body[first := File(Written(body[first].bytes, offset, d))])
  {
    hide *;
    ghost var g, fat, data, bytes := v.g, v.Fat(), v.Data(), body[first].bytes;
    ValidFacts(v);
    StoredFile(g, fat, data, own, body, first);
    StoredOwned(g, fat, data, own, body);
    HeadAbove(fat, own, first);
    StoredHead(g, fat, data, own, body, first);
    ChainIs(own, first);
    NothingWritten(bytes, offset);
    assert body[first := body[first]] == body && body[first] == File(bytes);
    ghost var first';
    n, first', own' := WriteData(v, first, offset, buf, own);
    if buf == [] { return; }
    ghost var d := if n <= 0 then [] else buf[..n];
    assert d == buf[..n];
    FileWritten(g, data, v.Data(), own[first], own'[first], |bytes|, offset, d) by {
      WroteFacts(g, data, v.Data(), own[first], own'[first], offset, d);
    }
    WroteFacts(g, data, v.Data(), own[first], own'[first], offset, d);
    FileStored(g, v.Data(), own'[first], Written(bytes, offset, d), SizeAfter(|bytes|, offset, |d|));
    SizeWritten(bytes, offset, buf, n);
    StoredBound(g, fat, data, own, body, first);
    StoredStep(g, fat, v.Fat(), data, v.Data(), own, own', body, first, File(Written(bytes, offset, d)));
  }

  lemma ChainIs(own: Owners, first: nat)
    requires first in own
    ensures ChainAt(own, first) == own[first]
  {
  }

  lemma NothingWritten(b: seq<byte>, offset: nat)
    ensures Written(b, offset, []) == b
  {
  }

  lemma StoredBound(g: Geometry, fat: seq<nat>, data: seq<Sector>, own: Owners, body: map<nat, Body>, h: nat)
    requires g.Ok() && |fat| == g.Clusters() + 2 && Stored(g, fat, data, own, body) && h in body && body[h].File?
    ensures |body[h].bytes| < 0x1_0000_0000 && h < 0x1_0000_0000
  {
    StoredHead(g, fat, data, own, body, h);
    LastIn(fat, own, h);
  }

  lemma SizeWritten(b: seq<byte>, offset: nat, buf: seq<byte>, n: int)
    requires 0 <= n <= |buf|
    ensures |Written(b, offset, buf[..n])| == SizeAfter(|b|, offset, n)
    ensures offset + |buf| < 0x1_0000_0000 && |b| < 0x1_0000_0000 ==> SizeAfter(|b|, offset, n) < 0x1_0000_0000
  {
  }

  lemma FileStored(g: Geometry, data: seq<Sector>, cs: seq<nat>, bytes: seq<byte>, size: nat)
    requires ClustersOk(g, cs) && |data| == g.Clusters() * g.spc && size == |bytes| < 0x1_0000_0000
    requires size <= SECTOR * (|cs| * g.spc) && FileBytes(g, data, cs, size) == bytes
    requires ZeroTail(Bytes(g, data, cs), size)
    ensures HeadStored(g, data, cs, File(bytes))
  {
  }

  // fat32_update_dir_entry: the walk by name once more, then the size and first cluster are set.
  method UpdateEntry(v: Volume, dir: nat, name: seq<byte>, size: nat, first: nat, ghost own: Owners,
                     ghost body: map<nat, Body>, ghost k: nat)
    requires v.Valid() && Stored(v.g, v.Fat(), v.Data(), own, body) && CString(name)
    requires dir in body && body[dir].Dir? && DirOk(body[dir].slots) && HasName(body[dir].slots, k, name)
    requires size < 0x1_0000_0000 && first < 0x1_0000_0000
    modifies v.disk
    ensures v.Valid() && k < |body[dir].slots| && v.Fat() == old(v.Fat())
    ensures Stored(v.g, v.Fat(), v.Data(), own,
              body[dir := Dir(body[dir].slots[k := Resized(body[dir].slots[k], size, first)])])
  {
    hide *;
    ghost var g, fat, data, slots := v.g, v.Fat(), v.Data(), body[dir].slots;
    ValidFacts(v);
    StoredDir(g, fat, data, own, body, dir);
    ChainOfOwner(g, fat, own, dir);
    FoundAt(slots, name, k);
    ghost var i;
    var found, spot, entry;
    QueryOk(Named(name));
    found, spot, entry, i := Lookup(v, dir, Named(name), own);
    ReplaceSlot(v, spot, Resized(entry, size, first), own[dir], i);
    ghost var slots' := slots[k := Resized(entry, size, first)];
    DirStored(g, v.Data(), own[dir], slots');
    SameOwner(own, dir);
    StoredStep(g, fat, v.Fat(), data, v.Data(), own, own, body, dir, Dir(slots'));
  }

  lemma FoundAt(slots: seq<Slot>, name: seq<byte>, k: nat)
    requires DirOk(slots) && HasName(slots, k, name)
    ensures k < |slots| && Search(slots, Named(name), 0) == Found(k)
  {
    hide Live, NameOf, Search;
    SearchName(slots, name, 0);
  }

  // An open file's entry.
  lemma FileAt(root: nat, t: Tree, n: Node)
    requires Shape(root, t) && FileNode(t, n)
    ensures n.first in t.own && n.first in t.body && t.body[n.first].File? && n.first in t.loc
    ensures t.loc[n.first].dir == n.dir
    ensures CString(n.name) && IsDir(t, n.dir) && n.dir in t.body && t.body[n.dir].Dir? && DirOk(t.body[n.dir].slots)
    ensures var k := t.loc[n.first].slot;
            && HasName(t.body[n.dir].slots, k, n.name) && k < |t.body[n.dir].slots| && Refers(t.body[n.dir].slots[k])
            && ClusterOf(t.body[n.dir].slots[k]) == n.first && n.first != n.dir
  {
    hide ClusterOf, SizeOf, NameOf, Live, Dots, Upper, IsDirectory, CString;
    FilesHaveEntries(root, t);
    ShapeDir(root, t, n.dir);
    ShapeKeys(root, t);
  }

  // The chain grew but the file did not.
  lemma GrownTree(root: nat, t: Tree, own': Owners, h: nat, nodes: seq<Node>, bytes: seq<byte>)
    requires Shape(root, t) && NodesOk(t, nodes) && own'.Keys == t.own.Keys && h in t.body && t.body[h] == File(bytes)
    ensures Shape(root, t.(own := own')) && NodesOk(t.(own := own'), nodes) && t.body[h := File(bytes)] == t.body
  {
    GrownShape(root, t, own');
    GrownNodes(t, own', nodes);
  }

  lemma GrownShape(root: nat, t: Tree, own': Owners)
    requires Shape(root, t) && own'.Keys == t.own.Keys
    ensures Shape(root, t.(own := own'))
  {
    hide ClusterOf, SizeOf, NameOf, Live, Dots, Upper, IsDirectory, DirOk, CString, Refers;
    var t' := t.(own := own');
    forall x | x in own' && x != root ensures HasEntry(t', x) { assert HasEntry(t, x); }
    forall d: nat, i: nat, s: Slot | SlotOf(t', d, i, s) ensures HasChain(t', root, d, i, s) {
      assert SlotOf(t, d, i, s) && HasChain(t, root, d, i, s);
    }
  }

  lemma GrownNodes(t: Tree, own': Owners, nodes: seq<Node>)
    requires NodesOk(t, nodes)
    ensures NodesOk(t.(own := own'), nodes)
  {
    hide NameOf, Upper, CString;
    forall i | 0 <= i < |nodes| ensures NodeOk(t.(own := own'), nodes[i]) { assert NodeOk(t, nodes[i]); }
  }

  lemma GrownMap(t: Tree, own': Owners, d: nat, nodes: seq<Node>, i: nat)
    ensures MapAt(t.(own := own'), d) == MapAt(t, d)
    ensures OpenFile(t, nodes, i) ==> OpenFile(t.(own := own'), nodes, i)
  {
  }

  lemma StillOpen(t: Tree, nodes: seq<Node>, i: nat, size: nat)
    requires i < |nodes| && nodes[i].first >= 2 && nodes[i].first in t.body && t.body[nodes[i].first].File?
    ensures OpenFile(t, nodes[i := nodes[i].(size := size)], i)
  {
  }

  // The tree after a write.
  lemma RewrittenTree(root: nat, t: Tree, d: nat, k: nat, h: nat, own': Owners, bytes: seq<byte>, nodes: seq<Node>,
                      i: nat)
    requires Shape(root, t) && NodesOk(t, nodes) && i < |nodes| && FileNode(t, nodes[i]) && nodes[i].first == h >= 2
    requires IsDir(t, d) && k < |t.body[d].slots| && Refers(t.body[d].slots[k]) && h in t.loc && t.loc[h] == Place(d, k)
    requires ClusterOf(t.body[d].slots[k]) == h < 0x1_0000_0000 && h in t.body && t.body[h].File? && h != d
    requires own'.Keys == t.own.Keys && |bytes| < 0x1_0000_0000
    ensures var slots' := t.body[d].slots[k := Resized(t.body[d].slots[k], |bytes|, h)];
            var t' := Rewritten(t, d, slots', h, own', bytes);
            && Shape(root, t') && NodesOk(t', nodes[i := nodes[i].(size := |bytes|)])
            && t'.own == own' && MapAt(t', d) == MapAt(t, d)
            && t'.body == t.body[d := t'.body[d]][h := File(bytes)]
            && t'.body == t.body[h := File(bytes)][d := Dir(slots')]
  {
    hide *;
    ShapeDir(root, t, d);
    RewrittenShape(root, t, d, k, h, own', bytes);
    ResizedOk(t.body[d].slots, k, |bytes|, h);
    FilesHaveEntries(root, t);
    RewrittenNodes(t, d, k, Resized(t.body[d].slots[k], |bytes|, h), h, own', bytes, nodes, i);
    RewrittenBody(t, d, k, Resized(t.body[d].slots[k], |bytes|, h), h, own', bytes);
  }

  lemma RewrittenBody(t: Tree, d: nat, k: nat, e: Slot, h: nat, own': Owners, bytes: seq<byte>)
    requires IsDir(t, d) && k < |t.body[d].slots| && h != d && MapOf(t.body[d].slots[k := e]) == MapOf(t.body[d].slots)
    ensures var t' := Rewritten(t, d, t.body[d].slots[k := e], h, own', bytes);
            && t'.own == own' && MapAt(t', d) == MapAt(t, d) && d in t'.body
            && t'.body == t.body[d := t'.body[d]][h := File(bytes)]
            && t'.body == t.body[h := File(bytes)][d := Dir(t.body[d].slots[k := e])]
  {
    hide MapOf;
  }

  lemma RewrittenNodes(t: Tree, d: nat, k: nat, e: Slot, h: nat, own': Owners, bytes: seq<byte>, nodes: seq<Node>,
                       i: nat)
    requires NodesOk(t, nodes) && i < |nodes| && FileNode(t, nodes[i]) && nodes[i].first == h >= 2
    requires IsDir(t, d) && k < |t.body[d].slots| && h in t.loc && t.loc[h] == Place(d, k) && h in t.body
    requires t.body[h].File?
    requires NameOf(e) == NameOf(t.body[d].slots[k]) && ClusterOf(t.body[d].slots[k]) == h && h != d
    requires forall x :: x in t.body && t.body[x].File? ==> HasEntry(t, x)
    ensures NodesOk(Rewritten(t, d, t.body[d].slots[k := e], h, own', bytes), nodes[i := nodes[i].(size := |bytes|)])
  {
    hide ClusterOf, SizeOf, NameOf, Live, Dots, Upper, IsDirectory, CString;
    var t', nodes' := Rewritten(t, d, t.body[d].slots[k := e], h, own', bytes), nodes[i := nodes[i].(size := |bytes|)];
    forall j | 0 <= j < |nodes| ensures NodeOk(t', nodes'[j]) && (nodes'[j].first >= 2 ==> nodes'[j].first in t'.body) {
      assert NodeOk(t, nodes[j]);
      if j != i && nodes[j].first >= 2 && !nodes[j].isDir {
        assert nodes[j].first != h;
        assert HasEntry(t, nodes[j].first);
      }
    }
  }

  lemma GoodCString(name: seq<byte>)
    requires GoodName(name)
    ensures CString(name)
  {
  }

  lemma ClusterFits(g: Geometry, c: nat)
    requires g.Ok() && g.InRange(c)
    ensures 2 <= c < g.Clusters() + 2 && c < 0x1_0000_0000
  {
  }

  lemma FileBody(e: Slot, d: nat, c: nat)
    requires !IsDirectory(e) && SizeOf(e) == 0
    ensures NewBody(File([]), e, d, c)
  {
  }

  lemma FreeIsFree()
    ensures FREE % LOW28 == FREE
  {
  }

  lemma ShapeKeys(root: nat, t: Tree)
    requires Shape(root, t)
    ensures t.body.Keys == t.own.Keys
  {
  }

  lemma StoredDir(g: Geometry, fat: seq<nat>, data: seq<Sector>, own: Owners, body: map<nat, Body>, d: nat)
    requires Stored(g, fat, data, own, body) && d in body && body[d].Dir?
    ensures Owned(fat, own) && d in own && ClustersOk(g, own[d]) && |data| == g.Clusters() * g.spc
    ensures DirSlots(g, data, own[d]) == body[d].slots
  {
    StoredHead(g, fat, data, own, body, d);
  }

  lemma DirStored(g: Geometry, data: seq<Sector>, cs: seq<nat>, slots: seq<Slot>)
    requires ClustersOk(g, cs) && |data| == g.Clusters() * g.spc && slots == DirSlots(g, data, cs)
    ensures HeadStored(g, data, cs, Dir(slots))
  {
  }

  lemma NewName(root: nat, t: Tree, d: nat, e: Slot, name: seq<byte>)
    requires Shape(root, t) && IsDir(t, d) && NameOf(e) == Upper(name) && Upper(name) !in MapAt(t, d)
    ensures forall j :: 0 <= j < |t.body[d].slots| && Live(t.body[d].slots[j]) ==>
              NameOf(t.body[d].slots[j]) != NameOf(e)
  {
    hide Live, NameOf;
    ShapeDir(root, t, d);
    MapHas(t.body[d].slots);
  }

  lemma EnteredMap(root: nat, t: Tree, d: nat, slots': seq<Slot>, k: nat, e: Slot, c: nat, own': Owners, b: Body)
    requires Shape(root, t) && IsDir(t, d) && d in t.depth && Placed(t.body[d].slots, slots', k, e) && Live(e)
    requires c !in t.own
    requires forall j :: 0 <= j < |t.body[d].slots| && Live(t.body[d].slots[j]) ==>
               NameOf(t.body[d].slots[j]) != NameOf(e)
    ensures var t' := Entered(t, d, slots', k, c, own', b);
            && t'.own == own' && IsDir(t', d) && t'.body == t.body[d := t'.body[d]][c := b]
            && t'.body == t.body[c := b][d := Dir(slots')]
            && MapAt(t', d) == MapAt(t, d)[NameOf(e) := ClusterOf(e)]
  {
    hide NameOf, ClusterOf, Live, Placed, MapOf, DirOk;
    ShapeDir(root, t, d);
    PlacedOk(t.body[d].slots, slots', k, e);
    assert d != c;
  }

  lemma EnteredNodes(t: Tree, d: nat, slots': seq<Slot>, k: nat, e: Slot, c: nat, own': Owners, b: Body,
                     nodes: seq<Node>)
    requires NodesOk(t, nodes) && IsDir(t, d) && d in t.depth && Placed(t.body[d].slots, slots', k, e) && Live(e)
    requires c !in t.body && forall h :: h in t.body && t.body[h].File? ==> HasEntry(t, h)
    ensures NodesOk(Entered(t, d, slots', k, c, own', b), nodes)
  {
    hide NameOf, ClusterOf, Live, Placed, Dots, Upper;
    var t' := Entered(t, d, slots', k, c, own', b);
    PlacedSlots(t.body[d].slots, slots', k, e);
    forall i | 0 <= i < |nodes| ensures NodeOk(t', nodes[i]) && (nodes[i].first >= 2 ==> nodes[i].first in t'.body) {
      assert NodeOk(t, nodes[i]);
      if nodes[i].first >= 2 && !nodes[i].isDir { assert HasEntry(t, nodes[i].first); }
    }
  }
}
