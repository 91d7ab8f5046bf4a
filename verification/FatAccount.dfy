// What the invariant of the tree means for the clusters, and which entries can be unlinked without
// breaking it.
module FatAccount {
  import opened Bits
  import opened FatTable
  import opened Chains
  import opened FatName
  import opened FatSlots
  import opened FatWalk
  import opened FatTree

  // The head h is the root's, or exactly one live entry of a directory names it.
  ghost predicate NamedOnce(root: nat, t: Tree, h: nat) {
    h == root ||
    exists d: nat, i: nat :: Names(t, d, i, h) && forall d': nat, i': nat :: Names(t, d', i', h) ==> d' == d && i' == i
  }

  ghost predicate Names(t: Tree, d: nat, i: nat, h: nat) {
    IsDir(t, d) && i < |t.body[d].slots| && Refers(t.body[d].slots[i]) && ClusterOf(t.body[d].slots[i]) == h
  }

  // The clusters in use are exactly those on the chains of the root and of the live entries, each
  // on one chain only, each chain with one entry; no cluster is lost or shared.
  ghost predicate Accounted(fat: seq<nat>, root: nat, t: Tree) {
    && (forall c :: 2 <= c < |fat| ==> (fat[c] != FREE <==> exists h :: h in t.own && c in t.own[h]))
    && (forall h, k, c :: h in t.own && k in t.own && c in t.own[h] && c in t.own[k] ==> h == k)
    && (forall h :: h in t.own ==> IsChain(fat, t.own[h]) && t.own[h][0] == h && NamedOnce(root, t, h))
    && root in t.own && IsDir(t, root)
    && (forall d: nat, i: nat, h: nat :: Names(t, d, i, h) ==> h in t.own)
  }

  lemma AllAccounted(fat: seq<nat>, root: nat, t: Tree)
    requires Shape(root, t) && Owned(fat, t.own)
    ensures Accounted(fat, root, t)
  {
    hide Refers, ClusterOf, DirOk, IsChain, Describes;
    forall h | h in t.own ensures NamedOnce(root, t, h) { OneName(root, t, h); }
    forall d: nat, i: nat, h: nat | Names(t, d, i, h) ensures h in t.own {
      assert SlotOf(t, d, i, t.body[d].slots[i]);
    }
    forall c | 2 <= c < |fat| ensures fat[c] != FREE <==> exists h :: h in t.own && c in t.own[h] {
      assert fat[c] != FREE <==> Holds(t.own, c);
    }
  }

  lemma OneName(root: nat, t: Tree, h: nat)
    requires Shape(root, t) && h in t.own
    ensures NamedOnce(root, t, h)
  {
    hide Live, Dots, ClusterOf, DirOk, IsDirectory, SizeOf;
    if h != root {
      assert HasEntry(t, h);
      var p := t.loc[h];
      assert Names(t, p.dir, p.slot, h);
      forall d: nat, i: nat | Names(t, d, i, h) ensures d == p.dir && i == p.slot {
        assert SlotOf(t, d, i, t.body[d].slots[i]);
      }
    }
  }

  // ---------- Unlinking ----------

  // Erasing an entry and freeing the chain behind it, as fat32_unlink does whatever the entry is, keeps
  // the account exactly for a file, an empty directory, and a dot entry without a cluster.
  lemma UnlinkExactly(fat: seq<nat>, root: nat, t: Tree, d: nat, k: nat, h: nat)
    requires Shape(root, t) && IsDir(t, d) && k < |t.body[d].slots| && Live(t.body[d].slots[k])
    requires ClusterOf(t.body[d].slots[k]) == h && Owned(fat, t.own - {h}) && (h < 2 ==> h !in t.own)
    ensures Accounted(fat, root, Removed(t, d, t.body[d].slots[k := Erased(t.body[d].slots[k])], h)) <==>
            CanGo(t, t.body[d].slots[k])
  {
    var e, t' := t.body[d].slots[k], Removed(t, d, t.body[d].slots[k := Erased(t.body[d].slots[k])], h);
    hide *;
    if CanGo(t, e) {
      DotNowhere(t, e);
      RemovedShape(root, t, d, k, h);
      RemovedOwn(t, d, t.body[d].slots[k := Erased(e)], h);
      AllAccounted(fat, root, t');
    } else if Dots(e) {
      DotHarm(fat, root, t, d, k, h);
    } else {
      ChildHarm(fat, root, t, d, k, h);
    }
  }

  lemma DotNowhere(t: Tree, e: Slot)
    requires CanGo(t, e)
    ensures Dots(e) ==> ClusterOf(e) < 2
  {
  }

  lemma RemovedOwn(t: Tree, d: nat, slots': seq<Slot>, h: nat)
    ensures Removed(t, d, slots', h).own == t.own - {h}
  {
  }

  // A dot entry frees the directory it names, whose own entry then leads nowhere.
  lemma DotHarm(fat: seq<nat>, root: nat, t: Tree, d: nat, k: nat, h: nat)
    requires Shape(root, t) && IsDir(t, d) && k < |t.body[d].slots| && Live(t.body[d].slots[k])
    requires ClusterOf(t.body[d].slots[k]) == h && Dots(t.body[d].slots[k]) && !CanGo(t, t.body[d].slots[k])
    ensures !Accounted(fat, root, Removed(t, d, t.body[d].slots[k := Erased(t.body[d].slots[k])], h))
  {
    hide Live, Dots, ClusterOf, DirOk, IsDirectory, SizeOf, IsChain, NamedOnce, Erased;
    var t' := Removed(t, d, t.body[d].slots[k := Erased(t.body[d].slots[k])], h);
    assert SlotOf(t, d, k, t.body[d].slots[k]);
    assert IsDir(t, h) by { if h != d && h == t.loc[d].dir { assert HasEntry(t, d); } }
    if h != root {
      assert HasEntry(t, h);
      var p := t.loc[h];
      assert p.dir != h && p != Place(d, k);
      assert Names(t', p.dir, p.slot, h);
    }
  }

  // A directory that is not empty leaves behind the chain of what it names.
  lemma ChildHarm(fat: seq<nat>, root: nat, t: Tree, d: nat, k: nat, h: nat)
    requires Shape(root, t) && IsDir(t, d) && k < |t.body[d].slots| && Live(t.body[d].slots[k])
    requires ClusterOf(t.body[d].slots[k]) == h && !Dots(t.body[d].slots[k]) && !CanGo(t, t.body[d].slots[k])
    ensures !Accounted(fat, root, Removed(t, d, t.body[d].slots[k := Erased(t.body[d].slots[k])], h))
  {
    hide Live, Dots, ClusterOf, DirOk, IsDirectory, SizeOf, IsChain, Erased;
    var t' := Removed(t, d, t.body[d].slots[k := Erased(t.body[d].slots[k])], h);
    ShapeChain(root, t, d, k);
    var i :| 0 <= i < |t.body[h].slots| && Refers(t.body[h].slots[i]);
    ShapeChain(root, t, h, i);
    var x := ClusterOf(t.body[h].slots[i]);
    assert x != h;
    forall d': nat, i': nat | Names(t', d', i', x) ensures false {
      StillNames(t, d, k, h, d', i', x);
      ShapeChain(root, t, d', i');
    }
    assert x in t'.own && !NamedOnce(root, t', x);
  }

  // Whatever is named after the removal was named before, and not in the directory that is gone.
  lemma StillNames(t: Tree, d: nat, k: nat, h: nat, d': nat, i': nat, x: nat)
    requires IsDir(t, d) && k < |t.body[d].slots|
    requires Names(Removed(t, d, t.body[d].slots[k := Erased(t.body[d].slots[k])], h), d', i', x)
    ensures d' != h && Names(t, d', i', x)
  {
    hide ClusterOf;
  }
}
