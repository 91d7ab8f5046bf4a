// The file system as a tree: every chain but the root's is led to by exactly one directory entry.
module FatTree {
  import opened Bits
  import opened FatTable
  import opened Chains
  import opened FatContent
  import opened FatFile
  import opened FatWrite
  import opened FatName
  import opened FatSlots
  import opened FatWalk

  // What a chain holds.
  datatype Body = Dir(slots: seq<Slot>) | File(bytes: seq<byte>)

  datatype Place = Place(dir: nat, slot: nat)

  // own: the chains by first cluster; body: what they hold; loc: the entry that leads to each;
  // depth: how far below the root a directory is.
  datatype Tree = Tree(own: Owners, body: map<nat, Body>, loc: map<nat, Place>, depth: map<nat, nat>)

  ghost predicate IsDir(t: Tree, d: nat) { d in t.body && t.body[d].Dir? }

  // An entry that leads to a chain of its own; "." and ".." do not.
  ghost predicate Refers(s: Slot) { Live(s) && !Dots(s) }

  ghost predicate SlotOf(t: Tree, d: nat, i: nat, s: Slot) {
    IsDir(t, d) && i < |t.body[d].slots| && t.body[d].slots[i] == s
  }

  // The entry s describes the chain of h.
  ghost predicate Describes(t: Tree, s: Slot, d: nat, h: nat) {
    && h in t.body && Refers(s) && ClusterOf(s) == h
    && match t.body[h]
       case Dir(_) => IsDirectory(s) && h in t.depth && d in t.depth && t.depth[h] == t.depth[d] + 1
       case File(bytes) => !IsDirectory(s) && SizeOf(s) == |bytes|
  }

  // Every chain has its entry ...
  ghost predicate HasEntry(t: Tree, h: nat) {
    && h in t.loc
    && var p := t.loc[h];
       && IsDir(t, p.dir) && p.slot < |t.body[p.dir].slots|
       && Describes(t, t.body[p.dir].slots[p.slot], p.dir, h)
  }

  // ... and every entry its chain.
  ghost predicate HasChain(t: Tree, root: nat, d: nat, i: nat, s: Slot) {
    && (Refers(s) ==>
          ClusterOf(s) in t.own && ClusterOf(s) != root && ClusterOf(s) in t.loc && t.loc[ClusterOf(s)] == Place(d, i))
    && (Live(s) && Dots(s) ==> IsDirectory(s) && (ClusterOf(s) < 2 || DotTarget(t, root, d, ClusterOf(s))))
  }

  // A dot entry names its own directory or the one above.
  ghost predicate DotTarget(t: Tree, root: nat, d: nat, c: nat) {
    IsDir(t, c) && (c == d || (d != root && d in t.loc && c == t.loc[d].dir))
  }

  ghost predicate DirOk(slots: seq<Slot>) { Trimmed(slots) && Unique(slots) }

  ghost predicate Shape(root: nat, t: Tree) {
    && t.body.Keys == t.own.Keys
    && IsDir(t, root) && root in t.depth && t.depth[root] == 0
    && (forall d :: IsDir(t, d) ==> DirOk(t.body[d].slots) && d in t.depth)
    && (forall h :: h in t.own && h != root ==> HasEntry(t, h))
    && (forall d: nat, i: nat, s: Slot :: SlotOf(t, d, i, s) ==> HasChain(t, root, d, i, s))
  }

  // ---------- Contents ----------

  ghost predicate HeadStored(g: Geometry, data: seq<Sector>, cs: seq<nat>, b: Body) {
    && ClustersOk(g, cs) && |data| == g.Clusters() * g.spc
    && match b
       case Dir(slots) => DirSlots(g, data, cs) == slots
       case File(bytes) => && |bytes| <= SECTOR * (|cs| * g.spc) && |bytes| < 0x1_0000_0000
                           && FileBytes(g, data, cs, |bytes|) == bytes && ZeroTail(Bytes(g, data, cs), |bytes|)
  }

  lemma HeadFrame(g: Geometry, data: seq<Sector>, data': seq<Sector>, cs: seq<nat>, b: Body, ds: seq<nat>)
    requires HeadStored(g, data, cs, b) && SameOutside(g, data, data', ds) && forall c :: c in cs ==> c !in ds
    ensures HeadStored(g, data', cs, b)
  {
    hide Bytes, SameOutside, Slots, ZeroTail;
    SameSizes(g, data, data', ds);
    BytesFrame(g, data, data', ds, cs);
  }

  // The volume holds exactly these chains with these contents.
  ghost predicate Stored(g: Geometry, fat: seq<nat>, data: seq<Sector>, own: Owners, body: map<nat, Body>) {
    && Owned(fat, own) && body.Keys == own.Keys
    && forall h :: h in own ==> HeadStored(g, data, own[h], body[h])
  }

  // One chain changed, or was added.
  lemma StoredStep(g: Geometry, fat: seq<nat>, fat': seq<nat>, data: seq<Sector>, data': seq<Sector>, own: Owners,
                   own': Owners,
                   body: map<nat, Body>, h: nat, b: Body)
    requires Stored(g, fat, data, own, body) && Owned(fat', own') && h in own' && own' == own[h := own'[h]]
    requires SameOutside(g, data, data', own'[h]) && HeadStored(g, data', own'[h], b)
    ensures Stored(g, fat', data', own', body[h := b])
  {
    hide HeadStored, SameOutside, IsChain, Exact, Holds;
    forall k | k in own && k != h ensures HeadStored(g, data', own'[k], body[h := b][k]) {
      assert own'[k] == own[k];
      HeadFrame(g, data, data', own[k], body[k], own'[h]);
    }
  }

  lemma StoredHead(g: Geometry, fat: seq<nat>, data: seq<Sector>, own: Owners, body: map<nat, Body>, h: nat)
    requires Stored(g, fat, data, own, body) && h in own
    ensures h in body && HeadStored(g, data, own[h], body[h]) && Owned(fat, own)
  {
  }

  lemma StoredRemove(g: Geometry, fat: seq<nat>, fat': seq<nat>, data: seq<Sector>, own: Owners, body: map<nat, Body>,
                     h: nat)
    requires Stored(g, fat, data, own, body) && h in own && Owned(fat', own - {h})
    ensures Stored(g, fat', data, own - {h}, body - {h})
  {
    hide HeadStored, Owned;
  }

  // ---------- A new entry ----------

  // e was put in slot k of directory d, which now has these slots, and leads to the new chain c.
  ghost function Entered(t: Tree, d: nat, slots': seq<Slot>, k: nat, c: nat, own': Owners, b: Body): Tree
    requires d in t.depth
  {
    Tree(own', t.body[d := Dir(slots')][c := b], t.loc[c := Place(d, k)],
      if b.Dir? then t.depth[c := t.depth[d] + 1] else t.depth)
  }

  // The body of a new chain c: a file, or a directory whose only live entries are dots, for itself
  // and its parent d (or cluster 0, as some tools write for the root).
  ghost predicate NewBody(b: Body, e: Slot, d: nat, c: nat) {
    match b
    case Dir(slots) => IsDirectory(e) && DirOk(slots) &&
                       forall i :: 0 <= i < |slots| && Live(slots[i]) ==>
                         && Dots(slots[i]) && IsDirectory(slots[i])
                         && (ClusterOf(slots[i]) in {c, d} || ClusterOf(slots[i]) < 2)
    case File(bytes) => !IsDirectory(e) && SizeOf(e) == |bytes|
  }

  lemma EnteredShape(root: nat, t: Tree, d: nat, slots': seq<Slot>, k: nat, e: Slot, c: nat, own': Owners, b: Body)
    requires Shape(root, t) && IsDir(t, d) && d in t.depth && Placed(t.body[d].slots, slots', k, e)
    requires NewBody(b, e, d, c)
    requires Refers(e) && ClusterOf(e) == c && c !in t.own && own'.Keys == t.own.Keys + {c}
    requires forall j :: 0 <= j < |t.body[d].slots| && Live(t.body[d].slots[j]) ==>
               NameOf(t.body[d].slots[j]) != NameOf(e)
    ensures Shape(root, Entered(t, d, slots', k, c, own', b))
  {
    hide *;
    var t' := Entered(t, d, slots', k, c, own', b);
    RefersLive(e);
    ShapeDir(root, t, d);
    PlacedSlots(t.body[d].slots, slots', k, e);
    PlacedOk(t.body[d].slots, slots', k, e);
    EnteredDirs(root, t, d, slots', k, e, c, own', b);
    forall h | h in t'.own && h != root ensures HasEntry(t', h) {
      if h == c {
        EnteredNew(root, t, d, slots', k, e, c, own', b);
      } else {
        ShapeEntry(root, t, h);
        EnteredEntry(root, t, d, slots', k, e, c, own', b, h);
      }
    }
    forall d': nat, i: nat, s: Slot | SlotOf(t', d', i, s) ensures HasChain(t', root, d', i, s) {
      EnteredChain(root, t, d, slots', k, e, c, own', b, d', i, s);
    }
    MakeShape(root, t');
  }

  lemma RefersLive(e: Slot)
    requires Refers(e)
    ensures Live(e)
  {
  }

  lemma ShapeDir(root: nat, t: Tree, d: nat)
    requires Shape(root, t) && IsDir(t, d)
    ensures d in t.body && t.body[d].Dir? && DirOk(t.body[d].slots) && d in t.depth && d in t.own
  {
  }

  lemma ShapeEntry(root: nat, t: Tree, h: nat)
    requires Shape(root, t) && h in t.own && h != root
    ensures HasEntry(t, h) && h in t.body
  {
  }

  lemma MakeShape(root: nat, t: Tree)
    requires t.body.Keys == t.own.Keys && IsDir(t, root) && root in t.depth && t.depth[root] == 0
    requires forall d :: IsDir(t, d) ==> DirOk(t.body[d].slots) && d in t.depth
    requires forall h :: h in t.own && h != root ==> HasEntry(t, h)
    requires forall d: nat, i: nat, s: Slot :: SlotOf(t, d, i, s) ==> HasChain(t, root, d, i, s)
    ensures Shape(root, t)
  {
    hide DirOk, HasEntry, HasChain;
  }

  lemma EnteredDirs(root: nat, t: Tree, d: nat, slots': seq<Slot>, k: nat, e: Slot, c: nat, own': Owners, b: Body)
    requires Shape(root, t) && IsDir(t, d) && d in t.depth && DirOk(slots') && NewBody(b, e, d, c)
    requires c !in t.own && own'.Keys == t.own.Keys + {c}
    ensures var t' := Entered(t, d, slots', k, c, own', b);
            && t'.own == own' && t'.body.Keys == own'.Keys && IsDir(t', root) && root in t'.depth && t'.depth[root] == 0
            && (forall d :: IsDir(t', d) ==> DirOk(t'.body[d].slots) && d in t'.depth)
    ensures d in t.body && c !in t.body
  {
    hide DirOk, Live, Dots, IsDirectory, SizeOf, HasEntry, HasChain;
  }

  lemma EnteredNew(root: nat, t: Tree, d: nat, slots': seq<Slot>, k: nat, e: Slot, c: nat, own': Owners, b: Body)
    requires IsDir(t, d) && d in t.depth && k < |slots'| && slots'[k] == e && NewBody(b, e, d, c) && c != d
    requires Refers(e) && ClusterOf(e) == c
    ensures HasEntry(Entered(t, d, slots', k, c, own', b), c)
  {
    hide DirOk, Live, Dots, IsDirectory, SizeOf, ClusterOf;
  }

  // Apart from slot k, what was live is still there and nothing else is.
  lemma PlacedSlots(slots: seq<Slot>, slots': seq<Slot>, k: nat, e: Slot)
    requires Placed(slots, slots', k, e) && Live(e)
    ensures k < |slots'| && slots'[k] == e && |slots| <= |slots'| && (k < |slots| ==> !Live(slots[k]))
    ensures forall i :: 0 <= i < |slots| && i != k ==> slots'[i] == slots[i]
    ensures forall i :: |slots| <= i < |slots'| && i != k ==> !Live(slots'[i])
  {
    hide NameOf, ClusterOf;
  }

  lemma PlacedOk(slots: seq<Slot>, slots': seq<Slot>, k: nat, e: Slot)
    requires Placed(slots, slots', k, e) && DirOk(slots) && Live(e)
    requires forall j :: 0 <= j < |slots| && Live(slots[j]) ==> NameOf(slots[j]) != NameOf(e)
    ensures DirOk(slots')
    ensures MapOf(slots') == MapOf(slots)[NameOf(e) := ClusterOf(e)]
  {
    hide NameOf, ClusterOf, MapOf;
    var room := slots + ZeroSlots(|slots'| - |slots|);
    MapZeros(slots, |slots'| - |slots|);
    MapInsert(room, k, e);
    if forall j :: 0 <= j < |slots| ==> !EndMark(slots[j]) {
      TrimmedGrown(slots, |slots'| - |slots|);
    } else {
      assert Trimmed(room);
    }
    TrimmedPut(room, k, e);
  }

  lemma EnteredEntry(root: nat, t: Tree, d: nat, slots': seq<Slot>, k: nat, e: Slot, c: nat, own': Owners, b: Body,
                     h: nat)
    requires IsDir(t, d) && d in t.depth && k < |slots'| && |t.body[d].slots| <= |slots'| && h != c && HasEntry(t, h)
    requires k < |t.body[d].slots| ==> !Live(t.body[d].slots[k])
    requires forall i :: 0 <= i < |t.body[d].slots| && i != k ==> slots'[i] == t.body[d].slots[i]
    requires c !in t.body
    ensures HasEntry(Entered(t, d, slots', k, c, own', b), h)
  {
    hide Live, Dots, NameOf, ClusterOf, IsDirectory, SizeOf;
    var p, t' := t.loc[h], Entered(t, d, slots', k, c, own', b);
    assert t'.loc[h] == p && p.dir != c;
    if p.dir == d {
      assert p.slot != k;
    }
  }

  lemma EnteredChain(root: nat, t: Tree, d: nat, slots': seq<Slot>, k: nat, e: Slot, c: nat, own': Owners, b: Body,
                     d': nat, i: nat, s: Slot)
    requires Shape(root, t) && IsDir(t, d) && d in t.depth && k < |slots'| && |t.body[d].slots| <= |slots'|
    requires slots'[k] == e
    requires c !in t.own && own'.Keys == t.own.Keys + {c} && NewBody(b, e, d, c) && Refers(e) && ClusterOf(e) == c
    requires forall i :: 0 <= i < |t.body[d].slots| && i != k ==> slots'[i] == t.body[d].slots[i]
    requires forall i :: |t.body[d].slots| <= i < |slots'| && i != k ==> !Live(slots'[i])
    requires SlotOf(Entered(t, d, slots', k, c, own', b), d', i, s)
    ensures HasChain(Entered(t, d, slots', k, c, own', b), root, d', i, s)
  {
    hide Live, Dots, NameOf, ClusterOf, IsDirectory, SizeOf, DirOk;
    if d' != c && !(d' == d && (i == k || i >= |t.body[d].slots|)) {
      assert SlotOf(t, d', i, s);
      assert HasChain(t, root, d', i, s);
    }
  }

  // ---------- An entry removed ----------

  // An entry that led to h was erased and the chain of h, if there is one, freed.
  ghost function Removed(t: Tree, d: nat, slots': seq<Slot>, h: nat): Tree {
    Tree(t.own - {h}, t.body[d := Dir(slots')] - {h}, t.loc - {h}, t.depth)
  }

  // A directory with nothing but dot entries.
  ghost predicate NoEntries(slots: seq<Slot>) { forall i :: 0 <= i < |slots| ==> !Refers(slots[i]) }

  // What can be unlinked without harm: a file, an empty directory, or a dot entry that leads nowhere.
  ghost predicate CanGo(t: Tree, e: Slot) {
    if Dots(e) then ClusterOf(e) < 2
    else ClusterOf(e) in t.body && (t.body[ClusterOf(e)].Dir? ==> NoEntries(t.body[ClusterOf(e)].slots))
  }

  lemma RemovedShape(root: nat, t: Tree, d: nat, k: nat, h: nat)
    requires Shape(root, t) && IsDir(t, d) && k < |t.body[d].slots| && Live(t.body[d].slots[k])
    requires ClusterOf(t.body[d].slots[k]) == h && CanGo(t, t.body[d].slots[k])
    requires Dots(t.body[d].slots[k]) ==> h !in t.own
    ensures h != root && h != d && Shape(root, Removed(t, d, t.body[d].slots[k := Erased(t.body[d].slots[k])], h))
  {
    hide *;
    ShapeDir(root, t, d);
    var slots, e := t.body[d].slots, Erased(t.body[d].slots[k]);
    var t' := Removed(t, d, slots[k := e], h);
    ErasedOk(slots, k);
    NotAbove(root, t, d, k, h);
    RemovedDirs(root, t, d, slots[k := e], h);
    forall x | x in t'.own && x != root ensures HasEntry(t', x) {
      ShapeEntry(root, t, x);
      RemovedEntry(t, d, k, h, x);
    }
    forall d': nat, i: nat, s: Slot | SlotOf(t', d', i, s) ensures HasChain(t', root, d', i, s) {
      RemovedChain(root, t, d, k, h, d', i, s);
    }
    MakeShape(root, t');
  }

  // What goes is neither the root nor the directory it goes from, and leads to nothing.
  lemma NotAbove(root: nat, t: Tree, d: nat, k: nat, h: nat)
    requires Shape(root, t) && IsDir(t, d) && k < |t.body[d].slots| && Live(t.body[d].slots[k])
    requires ClusterOf(t.body[d].slots[k]) == h && CanGo(t, t.body[d].slots[k])
    requires Dots(t.body[d].slots[k]) ==> h !in t.own
    ensures h != root && h != d && (h in t.body && t.body[h].Dir? ==> NoEntries(t.body[h].slots))
    ensures !Dots(t.body[d].slots[k]) ==> h in t.loc && t.loc[h] == Place(d, k)
    ensures Dots(t.body[d].slots[k]) ==> h !in t.body
  {
    hide Live, Dots, ClusterOf, DirOk, IsDirectory, SizeOf;
    ShapeChain(root, t, d, k);
    ShapeDir(root, t, d);
  }

  lemma ErasedOk(slots: seq<Slot>, k: nat)
    requires DirOk(slots) && k < |slots| && Live(slots[k])
    ensures DirOk(slots[k := Erased(slots[k])]) && !Live(Erased(slots[k]))
    ensures MapOf(slots[k := Erased(slots[k])]) == MapOf(slots) - {NameOf(slots[k])}
  {
    hide NameOf, ClusterOf, MapOf;
    MapRemove(slots, k);
    TrimmedPut(slots, k, Erased(slots[k]));
  }

  lemma ShapeChain(root: nat, t: Tree, d: nat, k: nat)
    requires Shape(root, t) && IsDir(t, d) && k < |t.body[d].slots|
    ensures HasChain(t, root, d, k, t.body[d].slots[k])
    ensures Refers(t.body[d].slots[k]) ==>
              var h := ClusterOf(t.body[d].slots[k]);
              h in t.own && h in t.body && h != root && HasEntry(t, h) && h in t.loc && t.loc[h] == Place(d, k)
  {
    hide Live, Dots, IsDirectory, SizeOf, ClusterOf, DirOk, HasEntry;
    assert SlotOf(t, d, k, t.body[d].slots[k]);
  }

  lemma RemovedDirs(root: nat, t: Tree, d: nat, slots': seq<Slot>, h: nat)
    requires Shape(root, t) && IsDir(t, d) && DirOk(slots') && h != root && h != d
    ensures var t' := Removed(t, d, slots', h);
            && t'.body.Keys == t'.own.Keys && IsDir(t', root) && root in t'.depth && t'.depth[root] == 0
            && (forall x :: IsDir(t', x) ==> DirOk(t'.body[x].slots) && x in t'.depth)
            && (forall x :: x in t'.own ==> x in t.own && x != h)
  {
    hide DirOk, HasEntry, HasChain;
  }

  lemma RemovedEntry(t: Tree, d: nat, k: nat, h: nat, x: nat)
    requires IsDir(t, d) && k < |t.body[d].slots| && HasEntry(t, x) && x != h
    requires Refers(t.body[d].slots[k]) ==> ClusterOf(t.body[d].slots[k]) == h
    requires h in t.body && t.body[h].Dir? ==> NoEntries(t.body[h].slots)
    ensures t.loc[x].dir != h && t.loc[x] != Place(d, k)
    ensures HasEntry(Removed(t, d, t.body[d].slots[k := Erased(t.body[d].slots[k])], h), x)
  {
    hide Live, Dots, IsDirectory, SizeOf, ClusterOf, Erased;
  }

  lemma RemovedChain(root: nat, t: Tree, d: nat, k: nat, h: nat, d': nat, i: nat, s: Slot)
    requires Shape(root, t) && IsDir(t, d) && k < |t.body[d].slots| && !Live(Erased(t.body[d].slots[k]))
    requires Live(t.body[d].slots[k])
    requires if Dots(t.body[d].slots[k]) then h !in t.body else h in t.loc && t.loc[h] == Place(d, k)
    requires h in t.body && t.body[h].Dir? ==> NoEntries(t.body[h].slots)
    requires SlotOf(Removed(t, d, t.body[d].slots[k := Erased(t.body[d].slots[k])], h), d', i, s)
    ensures HasChain(Removed(t, d, t.body[d].slots[k := Erased(t.body[d].slots[k])], h), root, d', i, s)
  {
    hide Live, Dots, IsDirectory, SizeOf, ClusterOf, DirOk, Erased, Removed, DotTarget, HasEntry;
    SlotStays(t, d, k, h, d', i, s);
    RemovedParts(t, d, t.body[d].slots[k := Erased(t.body[d].slots[k])], h);
    if SlotOf(t, d', i, s) {
      assert HasChain(t, root, d', i, s);
      if Live(s) && Dots(s) && ClusterOf(s) >= 2 { DotStays(root, t, d, k, h, d', ClusterOf(s)); }
    }
  }

  lemma RemovedParts(t: Tree, d: nat, slots': seq<Slot>, h: nat)
    ensures var t' := Removed(t, d, slots', h); t'.own == t.own - {h} && t'.loc == t.loc - {h}
  {
  }

  // A slot of the tree without h is the erased one, or was there before.
  lemma SlotStays(t: Tree, d: nat, k: nat, h: nat, d': nat, i: nat, s: Slot)
    requires IsDir(t, d) && k < |t.body[d].slots|
    requires SlotOf(Removed(t, d, t.body[d].slots[k := Erased(t.body[d].slots[k])], h), d', i, s)
    ensures d' != h
    ensures if d' == d && i == k then s == Erased(t.body[d].slots[k]) else SlotOf(t, d', i, s)
  {
    hide Erased;
  }

  lemma DotStays(root: nat, t: Tree, d: nat, k: nat, h: nat, d': nat, c: nat)
    requires Shape(root, t) && IsDir(t, d) && k < |t.body[d].slots| && d' != h && IsDir(t, d')
    requires h in t.body && t.body[h].Dir? ==> NoEntries(t.body[h].slots)
    requires DotTarget(t, root, d', c)
    ensures DotTarget(Removed(t, d, t.body[d].slots[k := Erased(t.body[d].slots[k])], h), root, d', c)
  {
    hide Live, Dots, IsDirectory, SizeOf, ClusterOf, DirOk, Erased, HasChain, Refers;
    if d' != root { assert HasEntry(t, d'); }
  }

  // ---------- An entry updated after a write ----------

  // File h holds new bytes and its entry, in slot k of directory d, says so.
  ghost function Rewritten(t: Tree, d: nat, slots': seq<Slot>, h: nat, own': Owners, bytes: seq<byte>): Tree {
    Tree(own', t.body[d := Dir(slots')][h := File(bytes)], t.loc, t.depth)
  }

  lemma RewrittenShape(root: nat, t: Tree, d: nat, k: nat, h: nat, own': Owners, bytes: seq<byte>)
    requires Shape(root, t) && IsDir(t, d) && k < |t.body[d].slots| && Refers(t.body[d].slots[k])
    requires ClusterOf(t.body[d].slots[k]) == h < 0x1_0000_0000 && h in t.body && t.body[h].File?
    requires own'.Keys == t.own.Keys && |bytes| < 0x1_0000_0000
    ensures Shape(root, Rewritten(t, d, t.body[d].slots[k := Resized(t.body[d].slots[k], |bytes|, h)], h, own', bytes))
  {
    hide *;
    ShapeDir(root, t, d);
    var slots, e := t.body[d].slots, Resized(t.body[d].slots[k], |bytes|, h);
    var t' := Rewritten(t, d, slots[k := e], h, own', bytes);
    ResizedOk(slots, k, |bytes|, h);
    ShapeChain(root, t, d, k);
    RewrittenDirs(root, t, d, slots[k := e], h, own', bytes);
    forall x | x in t'.own && x != root ensures HasEntry(t', x) {
      ShapeEntry(root, t, x);
      if x == h {
        RewrittenSelf(t, d, slots[k := e], k, h, own', bytes);
      } else {
        RewrittenEntry(t, d, k, e, h, own', bytes, x);
      }
    }
    forall d': nat, i: nat, s: Slot | SlotOf(t', d', i, s) ensures HasChain(t', root, d', i, s) {
      RewrittenChain(root, t, d, k, e, h, own', bytes, d', i, s);
    }
    MakeShape(root, t');
  }

  // The updated entry is the same but for its size.
  lemma ResizedOk(slots: seq<Slot>, k: nat, size: nat, h: nat)
    requires DirOk(slots) && k < |slots| && Refers(slots[k]) && size < 0x1_0000_0000
    requires ClusterOf(slots[k]) == h < 0x1_0000_0000
    ensures var e := Resized(slots[k], size, h);
            && Refers(e) && NameOf(e) == NameOf(slots[k]) && ClusterOf(e) == h && SizeOf(e) == size
            && IsDirectory(e) == IsDirectory(slots[k]) && DirOk(slots[k := e]) && MapOf(slots[k := e]) == MapOf(slots)
  {
    hide MapOf, ClusterOf, NameOf, SizeOf, Trimmed, Unique;
    var e := Resized(slots[k], size, h);
    SamePrefix(slots[k], e);
    MapReplace(slots, k, e);
    MapHas(slots);
    assert MapOf(slots)[NameOf(e) := h] == MapOf(slots);
    TrimmedLive(slots, k, e);
  }

  lemma TrimmedLive(slots: seq<Slot>, k: nat, e: Slot)
    requires Trimmed(slots) && k < |slots| && !EndMark(slots[k]) && !EndMark(e)
    ensures Trimmed(slots[k := e])
  {
  }

  lemma SamePrefix(a: Slot, b: Slot)
    requires b[..20] == a[..20]
    ensures NameOf(a) == NameOf(b) && a[0] == b[0] && Attr(a) == Attr(b)
  {
    assert a[..11] == a[..20][..11] && b[..11] == b[..20][..11];
    assert a[0] == a[..20][0] && a[11] == a[..20][11];
  }

  lemma RewrittenDirs(root: nat, t: Tree, d: nat, slots': seq<Slot>, h: nat, own': Owners, bytes: seq<byte>)
    requires Shape(root, t) && IsDir(t, d) && DirOk(slots') && h in t.body && t.body[h].File? && own'.Keys == t.own.Keys
    ensures var t' := Rewritten(t, d, slots', h, own', bytes);
            && t'.body.Keys == t'.own.Keys && IsDir(t', root) && root in t'.depth && t'.depth[root] == 0
            && (forall x :: IsDir(t', x) ==> DirOk(t'.body[x].slots) && x in t'.depth)
            && (forall x :: x in t'.own ==> x in t.own)
  {
    hide DirOk, HasEntry, HasChain;
  }

  lemma RewrittenSelf(t: Tree, d: nat, slots': seq<Slot>, k: nat, h: nat, own': Owners, bytes: seq<byte>)
    requires IsDir(t, d) && h in t.body && t.body[h].File? && k < |slots'| && h in t.loc && t.loc[h] == Place(d, k)
    requires Refers(slots'[k]) && ClusterOf(slots'[k]) == h && SizeOf(slots'[k]) == |bytes|
    requires HasEntry(t, h) && IsDirectory(slots'[k]) == IsDirectory(t.body[d].slots[k])
    ensures HasEntry(Rewritten(t, d, slots', h, own', bytes), h)
  {
    hide Live, Dots, IsDirectory, SizeOf, ClusterOf;
  }

  lemma RewrittenEntry(t: Tree, d: nat, k: nat, e: Slot, h: nat, own': Owners, bytes: seq<byte>, x: nat)
    requires IsDir(t, d) && k < |t.body[d].slots| && ClusterOf(t.body[d].slots[k]) == h && HasEntry(t, x) && x != h
    requires h in t.body && t.body[h].File?
    ensures HasEntry(Rewritten(t, d, t.body[d].slots[k := e], h, own', bytes), x)
  {
    hide Live, Dots, IsDirectory, SizeOf, ClusterOf;
  }

  lemma RewrittenChain(root: nat, t: Tree, d: nat, k: nat, e: Slot, h: nat, own': Owners, bytes: seq<byte>, d': nat,
                       i: nat, s: Slot)
    requires Shape(root, t) && IsDir(t, d) && k < |t.body[d].slots| && h in t.loc && t.loc[h] == Place(d, k)
    requires Refers(e) && ClusterOf(e) == h && h != root && own'.Keys == t.own.Keys && h in t.body && t.body[h].File?
    requires SlotOf(Rewritten(t, d, t.body[d].slots[k := e], h, own', bytes), d', i, s)
    ensures HasChain(Rewritten(t, d, t.body[d].slots[k := e], h, own', bytes), root, d', i, s)
  {
    hide Live, Dots, IsDirectory, SizeOf, ClusterOf, DirOk, HasEntry;
    if d' == d && i == k {
      assert s == e;
    } else {
      assert SlotOf(t, d', i, s);
      assert HasChain(t, root, d', i, s);
    }
  }
}
