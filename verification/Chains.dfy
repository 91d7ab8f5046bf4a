// Cluster chains in a file allocation table and who owns them.
module Chains {
  import opened Counting
  import opened FatTable

  ghost predicate IsEnd(v: nat) { v >= 0x0FFF_FFF8 }

  // cs is the chain starting at cs[0]: each entry names the next cluster, the last is end-marked,
  // and no cluster comes twice.
  ghost predicate IsChain(fat: seq<nat>, cs: seq<nat>) {
    && cs != []
    && (forall i :: 0 <= i < |cs| ==> 2 <= cs[i] < |fat|)
    && (forall i :: 0 <= i < |cs| - 1 ==> fat[cs[i]] == cs[i + 1])
    && IsEnd(fat[cs[|cs| - 1]])
    && Distinct(cs)
  }

  // A set of chains by their first cluster.
  type Owners = map<nat, seq<nat>>

  ghost predicate Holds(own: Owners, c: nat) { exists h :: h in own && c in own[h] }

  ghost predicate AllChains(fat: seq<nat>, own: Owners) {
    forall h :: h in own ==> IsChain(fat, own[h]) && own[h][0] == h
  }

  // No two chains share a cluster.
  ghost predicate Apart(own: Owners) {
    forall h, k, c :: h in own && k in own && h != k && c in own[h] ==> c !in own[k]
  }

  // A cluster is in use exactly when some chain has it.
  ghost predicate Exact(fat: seq<nat>, own: Owners) {
    forall c :: 2 <= c < |fat| ==> (fat[c] != 0 <==> Holds(own, c))
  }

  // The table consists of exactly these chains.
  ghost predicate Owned(fat: seq<nat>, own: Owners) { AllChains(fat, own) && Apart(own) && Exact(fat, own) }

  // Chains are finite: at most as long as there are clusters.
  lemma ChainLength(fat: seq<nat>, cs: seq<nat>)
    requires IsChain(fat, cs)
    ensures |cs| <= |fat| - 2
  {
    Pigeonhole(cs, 2, |fat|);
  }

  // A chain is read off the table: it is determined by its first cluster.
  lemma {:induction false} ChainUnique(fat: seq<nat>, a: seq<nat>, b: seq<nat>)
    requires IsChain(fat, a) && IsChain(fat, b) && a[0] == b[0] && |fat| < END_OF_CHAIN
    ensures a == b
    decreases |a|
  {
    if |a| > 1 && |b| > 1 {
      ChainTail(fat, a);
      ChainTail(fat, b);
      ChainUnique(fat, a[1..], b[1..]);
      assert a == [a[0]] + a[1..] && b == [b[0]] + b[1..];
    } else {
      FirstEntry(fat, a);
      FirstEntry(fat, b);
    }
  }

  lemma FirstEntry(fat: seq<nat>, cs: seq<nat>)
    requires IsChain(fat, cs) && |fat| < END_OF_CHAIN
    ensures |cs| == 1 <==> IsEnd(fat[cs[0]])
    ensures |cs| == 1 ==> cs == [cs[0]]
  {
    if |cs| > 1 { assert fat[cs[0]] == cs[0 + 1]; }
  }

  lemma ChainTail(fat: seq<nat>, cs: seq<nat>)
    requires IsChain(fat, cs) && |cs| > 1
    ensures IsChain(fat, cs[1..])
  {
  }

  lemma ChainNonzero(fat: seq<nat>, cs: seq<nat>, c: nat)
    requires IsChain(fat, cs) && c in cs
    ensures 2 <= c < |fat| && fat[c] != FREE
  {
    var i :| 0 <= i < |cs| && cs[i] == c;
    if i < |cs| - 1 { assert fat[cs[i]] == cs[i + 1]; }
  }

  // ---------- What the driver's steps do to the owners ----------

  lemma NotHeld(fat: seq<nat>, own: Owners, c: nat)
    requires Owned(fat, own) && 2 <= c < |fat| && fat[c] == FREE
    ensures forall h :: h in own ==> c !in own[h]
    ensures c !in own
  {
    assert !Holds(own, c);
    HeadsHeld(fat, own);
  }

  lemma HeadsHeld(fat: seq<nat>, own: Owners)
    requires AllChains(fat, own)
    ensures forall h :: h in own ==> h in own[h]
  {
  }

  // Allocation: a free cluster becomes a chain of its own.
  lemma Allocated(fat: seq<nat>, own: Owners, c: nat)
    requires Owned(fat, own) && 2 <= c < |fat| && fat[c] == FREE
    ensures c !in own && Owned(fat[c := EOF_MARK], own[c := [c]])
  {
    NotHeld(fat, own, c);
    AllocatedChains(fat, own, c);
    AllocatedExact(fat, own, c);
  }

  lemma AllocatedChains(fat: seq<nat>, own: Owners, c: nat)
    requires AllChains(fat, own) && 2 <= c < |fat| && c !in own && forall h :: h in own ==> c !in own[h]
    ensures AllChains(fat[c := EOF_MARK], own[c := [c]])
  {
    hide IsChain;
    var fat', own' := fat[c := EOF_MARK], own[c := [c]];
    Singleton(fat', c);
    forall h | h in own ensures IsChain(fat', own[h]) { UpdateOutside(fat, own[h], c, EOF_MARK); }
  }

  lemma Singleton(fat: seq<nat>, c: nat)
    requires 2 <= c < |fat| && IsEnd(fat[c])
    ensures IsChain(fat, [c])
  {
  }

  lemma UpdateOutside(fat: seq<nat>, cs: seq<nat>, c: nat, v: nat)
    requires IsChain(fat, cs) && c < |fat| && c !in cs
    ensures IsChain(fat[c := v], cs)
  {
    assert forall i :: 0 <= i < |cs| ==> cs[i] in cs;
  }

  lemma AllocatedExact(fat: seq<nat>, own: Owners, c: nat)
    requires Exact(fat, own) && 2 <= c < |fat| && c !in own
    ensures Exact(fat[c := EOF_MARK], own[c := [c]])
  {
    var own' := own[c := [c]];
    forall d | 2 <= d < |fat| ensures Holds(own', d) <==> d == c || Holds(own, d) {
      if Holds(own, d) { var h :| h in own && d in own[h]; assert h in own' && d in own'[h]; }
      if d == c { assert c in own' && d in own'[c]; }
    }
  }

  // Linking: a chain takes over another one at its end.
  ghost function LinkOwners(own: Owners, h: nat, c: nat): Owners
    requires h in own && c in own
  {
    (own - {c})[h := own[h] + own[c]]
  }

  lemma Linked(fat: seq<nat>, own: Owners, h: nat, c: nat)
    requires Owned(fat, own) && h in own && c in own && h != c
    ensures own[h] != [] && own[h][|own[h]| - 1] < |fat|
    ensures Owned(fat[own[h][|own[h]| - 1] := c], LinkOwners(own, h, c))
  {
    hide IsChain, Holds;
    ChainLast(fat, own[h]);
    LinkedChains(fat, own, h, c);
    LinkedExact(fat, own, h, c);
  }

  lemma ChainLast(fat: seq<nat>, cs: seq<nat>)
    requires IsChain(fat, cs)
    ensures cs != [] && 2 <= cs[|cs| - 1] < |fat| && cs[|cs| - 1] in cs
  {
  }

  lemma LinkedChains(fat: seq<nat>, own: Owners, h: nat, c: nat)
    requires AllChains(fat, own) && Apart(own) && h in own && c in own && h != c
    requires own[h] != [] && own[h][|own[h]| - 1] < |fat|
    ensures AllChains(fat[own[h][|own[h]| - 1] := c], LinkOwners(own, h, c))
  {
    hide IsChain;
    var last, own' := own[h][|own[h]| - 1], LinkOwners(own, h, c);
    assert last in own[h];
    JoinedChain(fat, own[h], own[c]);
    forall k | k in own' && k != h ensures IsChain(fat[last := c], own'[k]) {
      UpdateOutside(fat, own[k], last, c);
    }
  }

  lemma LinkedExact(fat: seq<nat>, own: Owners, h: nat, c: nat)
    requires Owned(fat, own) && h in own && c in own && h != c
    requires own[h] != [] && own[h][|own[h]| - 1] < |fat|
    ensures Exact(fat[own[h][|own[h]| - 1] := c], LinkOwners(own, h, c))
  {
    hide IsChain, Holds, LinkOwners;
    var last := own[h][|own[h]| - 1];
    assert c >= 2 && Holds(own, last) by { HeadInRange(fat, own, c); HoldsAt(own, h, last); }
    forall d: nat | 2 <= d < |fat| ensures fat[last := c][d] != FREE <==> Holds(LinkOwners(own, h, c), d) {
      JoinedHolds(own, h, c, d);
    }
  }

  lemma HoldsAt(own: Owners, h: nat, c: nat)
    requires h in own && c in own[h]
    ensures Holds(own, c)
  {
  }

  lemma HeadInRange(fat: seq<nat>, own: Owners, h: nat)
    requires AllChains(fat, own) && h in own
    ensures 2 <= h < |fat| && h in own[h]
  {
  }

  lemma JoinedHolds(own: Owners, h: nat, c: nat, d: nat)
    requires h in own && c in own && h != c
    ensures Holds(LinkOwners(own, h, c), d) <==> Holds(own, d)
  {
    var own' := LinkOwners(own, h, c);
    if Holds(own, d) {
      var k :| k in own && d in own[k];
      HoldsAt(own', if k == c then h else k, d);
    }
    if Holds(own', d) {
      var k :| k in own' && d in own'[k];
      HoldsAt(own, if k == h && d !in own[h] then c else k, d);
    }
  }

  lemma JoinedChain(fat: seq<nat>, cs: seq<nat>, ds: seq<nat>)
    requires IsChain(fat, cs) && IsChain(fat, ds) && forall c :: c in cs ==> c !in ds
    ensures IsChain(fat[cs[|cs| - 1] := ds[0]], cs + ds)
  {
    var last, fat', es := cs[|cs| - 1], fat[cs[|cs| - 1] := ds[0]], cs + ds;
    assert forall i :: 0 <= i < |ds| ==> ds[i] in ds;
    assert last in cs;
    forall i, j | 0 <= i < j < |es| ensures es[i] != es[j] {
      if i < |cs| <= j { assert es[i] in cs && es[j] in ds; }
    }
    assert es[|es| - 1] == ds[|ds| - 1];
  }

  // Freeing: all entries of a chain are cleared.
  lemma Freed(fat: seq<nat>, fat': seq<nat>, own: Owners, h: nat)
    requires Owned(fat, own) && h in own && |fat'| == |fat|
    requires forall c :: 0 <= c < |fat| ==> fat'[c] == if c in own[h] then FREE else fat[c]
    ensures Owned(fat', own - {h})
  {
    hide IsChain, Holds;
    var own' := own - {h};
    forall k | k in own' ensures IsChain(fat', own'[k]) { FreedOther(fat, fat', own[h], own[k]); }
    forall d: nat | 2 <= d < |fat'| ensures fat'[d] != FREE <==> Holds(own', d) { FreedHolds(own, h, d); }
  }

  lemma FreedOther(fat: seq<nat>, fat': seq<nat>, gone: seq<nat>, cs: seq<nat>)
    requires IsChain(fat, cs) && |fat'| == |fat| && forall c :: c in cs ==> c !in gone
    requires forall c :: 0 <= c < |fat| ==> fat'[c] == if c in gone then FREE else fat[c]
    ensures IsChain(fat', cs)
  {
    assert forall i :: 0 <= i < |cs| ==> cs[i] in cs;
  }

  lemma FreedHolds(own: Owners, h: nat, d: nat)
    requires h in own && Apart(own)
    ensures Holds(own - {h}, d) <==> Holds(own, d) && d !in own[h]
  {
    if Holds(own, d) && d !in own[h] {
      var k :| k in own && d in own[k];
      HoldsAt(own - {h}, k, d);
    }
  }
}
