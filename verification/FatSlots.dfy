// Directory entries: 32-byte slots, how a directory is searched, and the map it stands for.
module FatSlots {
  import opened Bits
  import opened FatTable
  import opened FatContent
  import opened FatName

  const SLOT: nat := 32
  const ATTR_DIRECTORY: byte := 0x10
  const ATTR_ARCHIVE: byte := 0x20
  const ATTR_LFN: byte := 0x0F

  type Slot = s: seq<byte> | |s| == 32 witness seq(32, _ => 0)

  // ---------- Fields ----------

  function UpToNul(s: seq<byte>): seq<byte> {
    if s == [] || s[0] == 0 then [] else [s[0]] + UpToNul(s[1..])
  }

  // The name as the directory walk compares it: a C string, in upper case.
  function NameOf(s: Slot): seq<byte> { Upper(UpToNul(Parse83(s[..11]))) }

  function Attr(s: Slot): byte { s[11] }

  function ClusterOf(s: Slot): nat {
    (s[20] as int + 0x100 * s[21] as int) * 0x1_0000 + s[26] as int + 0x100 * s[27] as int
  }

  function SizeOf(s: Slot): nat { Get32(s, 28) }

  predicate IsDirectory(s: Slot) { Attr(s) as int / 16 % 2 == 1 }

  predicate EndMark(s: Slot) { s[0] == 0 }

  predicate Free(s: Slot) { s[0] == 0 || s[0] == DELETED }

  // An entry that a walk reports: in use, and neither a long-name part nor a volume label.
  predicate Live(s: Slot) { !Free(s) && Attr(s) != ATTR_LFN && Attr(s) as int / 8 % 2 == 0 }

  // A directory is what has bit 4 of its attribute byte set.
  lemma DirectoryBit(s: Slot)
    ensures IsDirectory(s) <==> s[11] as int % 32 >= 16
  {
  }

  // Walks pass over free slots, parts of long names and volume labels, and over nothing else.
  lemma PassedOver(s: Slot)
    ensures !Live(s) <==> s[0] == 0 || s[0] == 0xE5 || s[11] == 0x0F || s[11] as int % 16 >= 8
  {
  }

  // The entries "." and "..".
  predicate Dots(s: Slot) { s[0] == DOT }

  // ---------- Making entries ----------

  function Bytes16(v: nat): (r: seq<byte>)
    requires v < 0x1_0000
    ensures |r| == 2 && r[0] as int + 0x100 * r[1] as int == v
  {
    [v % 0x100, v / 0x100]
  }

  function Entry83(n: seq<byte>, attr: byte, c: nat): (s: Slot)
    requires |n| == 11 && c < 0x1_0000_0000
    ensures s[..11] == n && Attr(s) == attr && ClusterOf(s) == c && SizeOf(s) == 0
  {
    var hi, lo := Bytes16(c / 0x1_0000), Bytes16(c % 0x1_0000);
    var s: Slot := n + [attr, 0, 0, 0, 0, 33, 0, 0, 0] + hi + [0, 0, 33, 0] + lo + [0, 0, 0, 0];
    assert s[20] == hi[0] && s[21] == hi[1] && s[26] == lo[0] && s[27] == lo[1];
    s
  }

  // The fields of a new entry: name, attribute, created and last written on 1 January 1980 (33 is
  // day 1 of month 1 of year 0), first cluster in two halves; times and size are 0.
  lemma EntryFields(n: seq<byte>, attr: byte, c: nat)
    requires |n| == 11 && c < 0x1_0000_0000
    ensures var s := Entry83(n, attr, c);
            && s[..11] == n && s[11] == attr
            && s[16] == 0 * 512 + 1 * 32 + 1 && s[24] == 0 * 512 + 1 * 32 + 1
            && s[26] as int + 0x100 * s[27] as int + 0x1_0000 * s[20] as int + 0x100_0000 * s[21] as int == c
            && forall i :: 12 <= i < 32 && i !in {16, 20, 21, 24, 26, 27} ==> s[i] == 0
  {
  }

  // The entry with another size and first cluster, all else kept.
  function Resized(s: Slot, size: nat, c: nat): (r: Slot)
    requires size < 0x1_0000_0000 && c < 0x1_0000_0000
    ensures ClusterOf(r) == c && SizeOf(r) == size && r[..20] == s[..20] && r[22..26] == s[22..26]
  {
    var hi, lo := Bytes16(c / 0x1_0000), Bytes16(c % 0x1_0000);
    var r: Slot := s[..20] + hi + s[22..26] + lo + Bytes32(size);
    assert r[20] == hi[0] && r[21] == hi[1] && r[26] == lo[0] && r[27] == lo[1];
    Get32Same(Bytes32(size), r[28..], 0);
    Get32Shift(r, 28);
    r
  }

  lemma Get32Shift(s: seq<byte>, o: nat)
    requires o + 4 <= |s|
    ensures Get32(s, o) == Get32(s[o..], 0)
  {
  }

  function Erased(s: Slot): Slot { s[0 := DELETED] }

  // ---------- The slots of a directory ----------

  ghost function Slots(b: seq<byte>): (r: seq<Slot>)
    ensures |r| == |b| / SLOT
  {
    seq(|b| / SLOT, k requires 0 <= k < |b| / SLOT => b[SLOT * k..SLOT * k + SLOT])
  }

  lemma SlotsWrite(b: seq<byte>, k: nat, s: Slot)
    requires k < |b| / SLOT
    ensures SLOT * k + SLOT <= |b|
    ensures Slots(Overwrite(b, SLOT * k, s)) == Slots(b)[k := s]
  {
    var b' := Overwrite(b, SLOT * k, s);
    forall j | 0 <= j < |b| / SLOT ensures Slots(b')[j] == Slots(b)[k := s][j] {
      OverwriteSlot(b, k, s, j);
    }
  }

  lemma OverwriteSlot(b: seq<byte>, k: nat, s: Slot, j: nat)
    requires k < |b| / SLOT && j < |b| / SLOT
    ensures SLOT * k + SLOT <= |b| && SLOT * j + SLOT <= |b|
    ensures Overwrite(b, SLOT * k, s)[SLOT * j..SLOT * j + SLOT] == if j == k then s else b[SLOT * j..SLOT * j + SLOT]
  {
  }

  ghost function ZeroSlots(n: nat): (r: seq<Slot>)
    ensures |r| == n
  {
    seq(n, _ => Zeros(SLOT))
  }

  lemma SlotsAppend(a: seq<byte>, b: seq<byte>)
    requires |a| % SLOT == 0 && |b| % SLOT == 0
    ensures Slots(a + b) == Slots(a) + Slots(b)
  {
    var n := |a| / SLOT;
    forall j | 0 <= j < |Slots(a + b)| ensures Slots(a + b)[j] == (Slots(a) + Slots(b))[j] {
      if j < n {
        assert SLOT * j + SLOT <= |a|;
        assert (a + b)[SLOT * j..SLOT * j + SLOT] == a[SLOT * j..SLOT * j + SLOT];
      } else {
        assert SLOT * j == |a| + SLOT * (j - n);
        assert (a + b)[SLOT * j..SLOT * j + SLOT] == b[SLOT * (j - n)..SLOT * (j - n) + SLOT];
      }
    }
  }

  lemma SlotsZero(n: nat)
    ensures Slots(Zeros(SLOT * n)) == ZeroSlots(n)
  {
    assert SLOT * n / SLOT == n;
    forall j | 0 <= j < n ensures Slots(Zeros(SLOT * n))[j] == ZeroSlots(n)[j] {
      assert Zeros(SLOT * n)[SLOT * j..SLOT * j + SLOT] == Zeros(SLOT);
    }
  }

  // ---------- Searching ----------

  // What a walk looks for: the n-th entry, an entry by name, or room for a new one.
  datatype Query = Index(n: nat) | Named(name: seq<byte>) | Room

  datatype Outcome = Found(at: nat) | Ended | Past(rest: Query)

  // The walk from slot k on: where it stops, or with what it leaves the last slot.
  ghost function Search(slots: seq<Slot>, q: Query, k: nat): (o: Outcome)
    ensures o.Found? ==> k <= o.at < |slots|
    decreases |slots| - k
  {
    if k >= |slots| then Past(q)
    else if q.Room? then (if Free(slots[k]) then Found(k) else Search(slots, q, k + 1))
    else if EndMark(slots[k]) then Ended
    else if !Live(slots[k]) then Search(slots, q, k + 1)
    else match q
      case Index(n) => if n == 0 then Found(k) else Search(slots, Index(n - 1), k + 1)
      case Named(name) => if NameOf(slots[k]) == Upper(name) then Found(k) else Search(slots, q, k + 1)
  }

  // Nothing lies past the first end mark.
  ghost predicate Trimmed(slots: seq<Slot>) {
    forall i, j :: 0 <= i < j < |slots| && EndMark(slots[i]) ==> EndMark(slots[j])
  }

  ghost predicate HasName(slots: seq<Slot>, k: int, name: seq<byte>) {
    0 <= k < |slots| && Live(slots[k]) && NameOf(slots[k]) == Upper(name)
  }

  // A search by name finds the first live entry of that name, and fails only if there is none.
  lemma {:induction false} SearchName(slots: seq<Slot>, name: seq<byte>, k: nat)
    requires Trimmed(slots)
    ensures match Search(slots, Named(name), k)
            case Found(i) => HasName(slots, i, name) && forall j :: k <= j < i ==> !HasName(slots, j, name)
            case _ => forall j :: k <= j ==> !HasName(slots, j, name)
    decreases |slots| - k
  {
    if k < |slots| && !EndMark(slots[k]) && !HasName(slots, k, name) { SearchName(slots, name, k + 1); }
  }

  // A search for room finds the first slot that is free, and fails only if there is none.
  lemma {:induction false} SearchRoom(slots: seq<Slot>, k: nat)
    ensures match Search(slots, Room, k)
            case Found(i) => Free(slots[i]) && forall j :: k <= j < i ==> !Free(slots[j])
            case Ended => false
            case Past(q) => q == Room && forall j :: k <= j < |slots| ==> !Free(slots[j])
    decreases |slots| - k
  {
    if k < |slots| && !Free(slots[k]) { SearchRoom(slots, k + 1); }
  }

  // The live entries in order, by slot number.
  ghost function LiveFrom(slots: seq<Slot>, k: nat): (r: seq<nat>)
    decreases |slots| - k
  {
    if k >= |slots| then []
    else (if Live(slots[k]) then [k] else []) + LiveFrom(slots, k + 1)
  }

  // Walking by index 0, 1, 2, ... lists each live entry once, in order, and then stops.
  lemma {:induction false} SearchIndex(slots: seq<Slot>, n: nat, k: nat)
    requires Trimmed(slots)
    ensures var l := LiveFrom(slots, k);
            if n < |l| then Search(slots, Index(n), k) == Found(l[n]) else !Search(slots, Index(n), k).Found?
    decreases |slots| - k
  {
    if k < |slots| {
      if EndMark(slots[k]) {
        NoneAfter(slots, k);
      } else if !Live(slots[k]) {
        SearchIndex(slots, n, k + 1);
      } else if n > 0 {
        SearchIndex(slots, n - 1, k + 1);
      }
    }
  }

  lemma {:induction false} NoneAfter(slots: seq<Slot>, k: nat)
    requires forall j :: k <= j < |slots| ==> !Live(slots[j])
    ensures LiveFrom(slots, k) == []
    decreases |slots| - k
  {
    if k < |slots| { NoneAfter(slots, k + 1); }
  }

  lemma {:induction false} LiveOnce(slots: seq<Slot>, k: nat)
    ensures forall j :: j in LiveFrom(slots, k) <==> k <= j < |slots| && Live(slots[j])
    ensures forall a, b :: 0 <= a < b < |LiveFrom(slots, k)| ==> LiveFrom(slots, k)[a] < LiveFrom(slots, k)[b]
    decreases |slots| - k
  {
    if k < |slots| {
      LiveOnce(slots, k + 1);
      var l, t := LiveFrom(slots, k), LiveFrom(slots, k + 1);
      forall b | 0 <= b < |t| ensures t[b] > k { assert t[b] in t; }
    }
  }

  // ---------- The map a directory stands for ----------

  // From names in upper case to first clusters.
  ghost function MapOf(slots: seq<Slot>): (m: map<seq<byte>, nat>) {
    if slots == [] then map[]
    else
      var m, s := MapOf(slots[..|slots| - 1]), slots[|slots| - 1];
      if Live(s) then m[NameOf(s) := ClusterOf(s)] else m
  }

  ghost predicate Unique(slots: seq<Slot>) {
    forall i, j :: 0 <= i < j < |slots| && Live(slots[i]) && Live(slots[j]) ==> NameOf(slots[i]) != NameOf(slots[j])
  }

  ghost predicate Maps(slots: seq<Slot>, n: seq<byte>, c: nat, k: nat) {
    k < |slots| && Live(slots[k]) && NameOf(slots[k]) == n && ClusterOf(slots[k]) == c
  }

  lemma {:induction false} MapHas(slots: seq<Slot>)
    requires Unique(slots)
    ensures forall n :: n in MapOf(slots) ==> exists k: nat :: Maps(slots, n, MapOf(slots)[n], k)
    ensures forall k :: 0 <= k < |slots| && Live(slots[k]) ==>
              NameOf(slots[k]) in MapOf(slots) && MapOf(slots)[NameOf(slots[k])] == ClusterOf(slots[k])
  {
    hide Live, NameOf, ClusterOf;
    if slots != [] {
      var t, s := slots[..|slots| - 1], slots[|slots| - 1];
      MapHas(t);
      forall n | n in MapOf(slots) ensures exists k: nat :: Maps(slots, n, MapOf(slots)[n], k) {
        if Live(s) && n == NameOf(s) {
          assert Maps(slots, n, MapOf(slots)[n], |slots| - 1);
        } else {
          var k: nat :| Maps(t, n, MapOf(t)[n], k);
          assert Maps(slots, n, MapOf(slots)[n], k);
        }
      }
    }
  }

  // The map is determined by the live entries.
  lemma MapIs(slots: seq<Slot>, m: map<seq<byte>, nat>)
    requires Unique(slots)
    requires forall n :: n in m ==> exists k: nat :: Maps(slots, n, m[n], k)
    requires forall k :: 0 <= k < |slots| && Live(slots[k]) ==> NameOf(slots[k]) in m
    ensures MapOf(slots) == m
  {
    hide Live, NameOf, ClusterOf;
    MapHas(slots);
    forall n | n in m ensures n in MapOf(slots) && MapOf(slots)[n] == m[n] {
      var k: nat :| Maps(slots, n, m[n], k);
    }
    forall n | n in MapOf(slots) ensures n in m {
      var k: nat :| Maps(slots, n, MapOf(slots)[n], k);
    }
  }

  // A slot that is neither free nor a long-name part nor a volume label, and whose name is the given
  // one up to case.
  ghost predicate Lists(slots: seq<Slot>, name: seq<byte>, k: int) {
    && 0 <= k < |slots|
    && slots[k][0] != 0 && slots[k][0] != 0xE5 && slots[k][11] != 0x0F && slots[k][11] as int % 16 < 8
    && SameButCase(UpToNul(Parse83(slots[k][..11])), name)
  }

  // The map has a name exactly if some slot lists it in whatever case, and leads to that slot's cluster.
  lemma ListedName(slots: seq<Slot>, name: seq<byte>)
    requires Unique(slots)
    ensures Upper(name) in MapOf(slots) <==> exists k :: Lists(slots, name, k)
    ensures forall k :: Lists(slots, name, k) ==>
              Upper(name) in MapOf(slots) && MapOf(slots)[Upper(name)] == ClusterOf(slots[k])
  {
    hide ClusterOf, MapOf, UpToNul, Parse83, Upper, SameButCase;
    MapHas(slots);
    forall k | 0 <= k < |slots|
      ensures Lists(slots, name, k) <==> Live(slots[k]) && NameOf(slots[k]) == Upper(name)
    {
      FoldedAlike(UpToNul(Parse83(slots[k][..11])), name);
    }
    if Upper(name) in MapOf(slots) {
      var k: nat :| Maps(slots, Upper(name), MapOf(slots)[Upper(name)], k);
      assert Lists(slots, name, k);
    }
  }

  // Writing a new entry into a free slot inserts it.
  lemma MapInsert(slots: seq<Slot>, k: nat, e: Slot)
    requires Unique(slots) && k < |slots| && Free(slots[k]) && Live(e)
    requires forall j :: 0 <= j < |slots| && Live(slots[j]) ==> NameOf(slots[j]) != NameOf(e)
    ensures Unique(slots[k := e]) && MapOf(slots[k := e]) == MapOf(slots)[NameOf(e) := ClusterOf(e)]
  {
    hide NameOf, ClusterOf;
    var s', m' := slots[k := e], MapOf(slots)[NameOf(e) := ClusterOf(e)];
    MapHas(slots);
    forall n | n in m' ensures exists j: nat :: Maps(s', n, m'[n], j) {
      if n == NameOf(e) {
        assert Maps(s', n, m'[n], k);
      } else {
        var j: nat :| Maps(slots, n, MapOf(slots)[n], j);
        assert Maps(s', n, m'[n], j);
      }
    }
    MapIs(s', m');
  }

  // Erasing an entry removes it.
  lemma MapRemove(slots: seq<Slot>, k: nat)
    requires Unique(slots) && k < |slots| && Live(slots[k])
    ensures Unique(slots[k := Erased(slots[k])])
    ensures MapOf(slots[k := Erased(slots[k])]) == MapOf(slots) - {NameOf(slots[k])}
  {
    hide NameOf, ClusterOf;
    var s', m' := slots[k := Erased(slots[k])], MapOf(slots) - {NameOf(slots[k])};
    MapHas(slots);
    forall n | n in m' ensures exists j: nat :: Maps(s', n, m'[n], j) {
      var j: nat :| Maps(slots, n, MapOf(slots)[n], j);
      assert Maps(s', n, m'[n], j);
    }
    MapIs(s', m');
  }

  // An entry replaced by one of the same name changes what the name leads to.
  lemma MapReplace(slots: seq<Slot>, k: nat, e: Slot)
    requires Unique(slots) && k < |slots| && Live(slots[k]) && Live(e) && NameOf(e) == NameOf(slots[k])
    ensures Unique(slots[k := e]) && MapOf(slots[k := e]) == MapOf(slots)[NameOf(e) := ClusterOf(e)]
  {
    hide NameOf, ClusterOf;
    var s', m' := slots[k := e], MapOf(slots)[NameOf(e) := ClusterOf(e)];
    MapHas(slots);
    forall n | n in m' ensures exists j: nat :: Maps(s', n, m'[n], j) {
      if n == NameOf(e) {
        assert Maps(s', n, m'[n], k);
      } else {
        var j: nat :| Maps(slots, n, MapOf(slots)[n], j);
        assert Maps(s', n, m'[n], j);
      }
    }
    MapIs(s', m');
  }

  // Room added at the end holds nothing.
  lemma MapZeros(slots: seq<Slot>, n: nat)
    requires Unique(slots)
    ensures Unique(slots + ZeroSlots(n)) && MapOf(slots + ZeroSlots(n)) == MapOf(slots)
  {
    hide NameOf, ClusterOf;
    var s', m := slots + ZeroSlots(n), MapOf(slots);
    MapHas(slots);
    forall x | x in m ensures exists j: nat :: Maps(s', x, m[x], j) {
      var j: nat :| Maps(slots, x, m[x], j);
      assert Maps(s', x, m[x], j);
    }
    MapIs(s', m);
  }

  // ---------- The end mark stays the end ----------

  lemma TrimmedPut(slots: seq<Slot>, k: nat, e: Slot)
    requires Trimmed(slots) && k < |slots| && !EndMark(e)
    requires EndMark(slots[k]) ==> forall j :: 0 <= j < k ==> !EndMark(slots[j])
    ensures Trimmed(slots[k := e])
  {
  }

  lemma TrimmedGrown(slots: seq<Slot>, n: nat)
    requires forall j :: 0 <= j < |slots| ==> !EndMark(slots[j])
    ensures Trimmed(slots + ZeroSlots(n))
  {
  }
}
