// Whole runs of the file system, and what its invariant means: no cluster is lost or shared, and
// everything in use can be reached from the root.
module FatRun {
  import opened Bits
  import opened FatTable
  import opened Chains
  import opened Volumes
  import opened FatContent
  import opened FatWrite
  import opened FatName
  import opened FatSlots
  import opened FatWalk
  import opened FatTree
  import opened FatAccount
  import opened FatFs
  import opened FatSystem

  // A request; directories are named by an open node, the root by -1.
  datatype Request =
    | Create(dir: int, name: seq<byte>)
    | Mkdir(dir: int, name: seq<byte>)
    | Unlink(dir: int, name: seq<byte>)
    | Open(dir: int, name: seq<byte>)
    | Write(node: nat, offset: nat, data: seq<byte>)

  // What there is to see of a mounted volume.
  datatype State = State(t: Tree, nodes: seq<Node>, fat: seq<nat>)

  ghost function StateOf(fs: FileSystem): State
    requires fs.v.Valid()
    reads fs, fs.v, fs.v.disk
  {
    State(fs.t, fs.nodes, fs.v.Fat())
  }

  // The first cluster of the directory that a request names, 0 if it names none.
  function DirOf(root: nat, nodes: seq<Node>, d: int): nat {
    if d == -1 then root
    else if 0 <= d < |nodes| && nodes[d].isDir && nodes[d].first >= 2 then nodes[d].first
    else 0
  }

  predicate Writable(nodes: seq<Node>, i: nat) {
    i < |nodes| && nodes[i].first >= 2 && !nodes[i].isDir
  }

  ghost predicate Same(a: State, b: State) { b.t == a.t && b.nodes == a.nodes }

  // The name now leads to the new chain c, and nothing else has changed.
  ghost predicate Made(a: State, b: State, dir: nat, name: seq<byte>, c: nat) {
    && IsDir(a.t, dir) && IsDir(b.t, dir) && c !in a.t.body && c in b.t.body
    && MapAt(b.t, dir) == MapAt(a.t, dir)[Upper(name) := c]
    && b.t.body == a.t.body[dir := b.t.body[dir]][c := b.t.body[c]]
  }

  // A new entry is refused only for lack of room, and then the table is as it was.
  ghost predicate NoRoom(a: State, b: State) { b.t == a.t && b.fat == a.fat && AtMostOneFree(a.fat) }

  ghost function Leading(s: State, dir: nat, name: seq<byte>): nat {
    if Upper(name) in MapAt(s.t, dir) then MapAt(s.t, dir)[Upper(name)] else 0
  }

  ghost predicate Creates(a: State, b: State, dir: nat, name: seq<byte>) {
    if Upper(name) in MapAt(a.t, dir) then Same(a, b)
    else
      && b.nodes == a.nodes
      && (NoRoom(a, b) ||
          var c := Leading(b, dir, name); Made(a, b, dir, name, c) && b.t.body[c] == File([]))
  }

  ghost predicate MakesDir(a: State, b: State, dir: nat, name: seq<byte>) {
    if Upper(name) in MapAt(a.t, dir) then Same(a, b)
    else
      && b.nodes == a.nodes
      && (NoRoom(a, b) ||
          var c := Leading(b, dir, name);
          Made(a, b, dir, name, c) && IsDir(b.t, c) && NewDirMap(MapAt(b.t, c), c, dir))
  }

  ghost predicate Unlinks(a: State, b: State, dir: nat, name: seq<byte>) {
    if Upper(name) !in MapAt(a.t, dir) then Same(a, b)
    else
      var h := Leading(a, dir, name);
      && IsDir(a.t, dir) && IsDir(b.t, dir) && h != dir && HoldsNoFile(a.t, h)
      && MapAt(b.t, dir) == MapAt(a.t, dir) - {Upper(name)}
      && b.t.body == (a.t.body - {h})[dir := b.t.body[dir]] && b.nodes == Forgotten(a.nodes, h)
  }

  // If h is a directory, no file is in it.
  ghost predicate HoldsNoFile(t: Tree, h: nat) {
    forall n :: n in MapAt(t, h) ==> !(MapAt(t, h)[n] in t.body && t.body[MapAt(t, h)[n]].File?)
  }

  ghost predicate Opens(a: State, b: State, dir: nat, name: seq<byte>) {
    && b.t == a.t && a.nodes <= b.nodes
    && if Upper(name) in MapAt(a.t, dir) && |a.nodes| < MAX_NODES then IsOpen(b.nodes, Leading(a, dir, name))
       else b.nodes == a.nodes
  }

  ghost predicate IsOpen(nodes: seq<Node>, h: nat) { exists i :: 0 <= i < |nodes| && nodes[i].first == h }

  // n bytes of data went to the file of node i; fewer than all only if the volume is full.
  ghost predicate WrotePart(a: State, b: State, i: nat, offset: nat, data: seq<byte>, n: nat) {
    && i < |a.nodes| == |b.nodes| && n <= |data| && (n < |data| ==> Full(b.fat))
    && var h, d := a.nodes[i].first, a.nodes[i].dir;
       && h in a.t.body && a.t.body[h].File? && IsDir(a.t, d) && d in b.t.body
       && b.nodes == a.nodes[i := b.nodes[i]] && b.nodes[i].first == h
       && MapAt(b.t, d) == MapAt(a.t, d)
       && b.t.body == a.t.body[d := b.t.body[d]][h := File(Written(a.t.body[h].bytes, offset, data[..n]))]
  }

  ghost predicate Writes(a: State, b: State, i: nat, offset: nat, data: seq<byte>) {
    if data == [] then Same(a, b) else exists n :: WrotePart(a, b, i, offset, data, n)
  }

  // The file system as a machine on trees: what each request does.
  ghost predicate Follows(root: nat, a: State, r: Request, b: State) {
    match r
    case Write(i, offset, data) => Writes(a, b, i, offset, data)
    case Create(d, name) => Creates(a, b, DirOf(root, a.nodes, d), name)
    case Mkdir(d, name) => MakesDir(a, b, DirOf(root, a.nodes, d), name)
    case Unlink(d, name) => Unlinks(a, b, DirOf(root, a.nodes, d), name)
    case Open(d, name) => Opens(a, b, DirOf(root, a.nodes, d), name)
  }

  // What the driver asks of its callers, without checking it: directories and files that are open and
  // still linked, new names that fit 8.3, sizes within 32 bits, and only what can go to be unlinked.
  ghost predicate Supported(root: nat, a: State, r: Request) {
    match r
    case Write(i, offset, data) => Writable(a.nodes, i) && offset + |data| < 0x1_0000_0000
    case Create(d, name) => DirOf(root, a.nodes, d) != 0 && GoodName(name)
    case Mkdir(d, name) => DirOf(root, a.nodes, d) != 0 && GoodName(name)
    case Unlink(d, name) =>
      var dir := DirOf(root, a.nodes, d);
      dir != 0 && CString(name) && Unlinkable(a.t, dir, name)
    case Open(d, name) => DirOf(root, a.nodes, d) != 0 && CString(name)
  }

  // The same request, with the name in whatever case.
  ghost predicate SameRequest(r: Request, r': Request) {
    match (r, r')
    case (Create(d, n), Create(d', n')) => d == d' && SameButCase(n, n')
    case (Mkdir(d, n), Mkdir(d', n')) => d == d' && SameButCase(n, n')
    case (Unlink(d, n), Unlink(d', n')) => d == d' && SameButCase(n, n')
    case (Open(d, n), Open(d', n')) => d == d' && SameButCase(n, n')
    case _ => r == r'
  }

  // The file system does not tell the case of names: each request is supported and does the same
  // however its name is written.
  lemma CaseBlind(root: nat, a: State, r: Request, r': Request, b: State)
    requires SameRequest(r, r')
    ensures Supported(root, a, r) <==> Supported(root, a, r')
    ensures Follows(root, a, r, b) <==> Follows(root, a, r', b)
  {
    hide Upper, SameButCase, GoodName, CString, Creates, MakesDir, Unlinks, Opens, Unlinkable, DirOf;
    if !r.Write? {
      FoldedAlike(r.name, r'.name);
      SameNames(r.name, r'.name);
      SameTargets(a, b, DirOf(root, a.nodes, r.dir), r.name, r'.name);
    }
  }

  lemma SameTargets(a: State, b: State, dir: nat, n: seq<byte>, n': seq<byte>)
    requires Upper(n) == Upper(n')
    ensures Creates(a, b, dir, n) <==> Creates(a, b, dir, n')
    ensures MakesDir(a, b, dir, n) <==> MakesDir(a, b, dir, n')
    ensures Unlinks(a, b, dir, n) <==> Unlinks(a, b, dir, n')
    ensures Opens(a, b, dir, n) <==> Opens(a, b, dir, n')
    ensures Unlinkable(a.t, dir, n) <==> Unlinkable(a.t, dir, n')
  {
    hide Upper, MapAt, HoldsNoFile, IsOpen, NoRoom, NewDirMap, CanGo, Forgotten, Live, NameOf;
    if IsDir(a.t, dir) {
      assert forall k :: HasName(a.t.body[dir].slots, k, n) <==> HasName(a.t.body[dir].slots, k, n');
    }
  }

  lemma SameNames(n: seq<byte>, n': seq<byte>)
    requires SameButCase(n, n')
    ensures GoodName(n) <==> GoodName(n')
    ensures CString(n) <==> CString(n')
  {
    hide DotAt;
    SameSpots(n, n');
    assert forall i :: 0 <= i < |n| ==> (n[i] == 0 <==> n'[i] == 0) && (n[i] == SPACE <==> n'[i] == SPACE);
    SameIn(n, n', 0);
    SameIn(n, n', SPACE);
  }

  lemma SameIn(n: seq<byte>, n': seq<byte>, c: byte)
    requires |n| == |n'| && forall i :: 0 <= i < |n| ==> (n[i] == c <==> n'[i] == c)
    ensures c in n <==> c in n'
  {
    if c in n { var i :| 0 <= i < |n| && n[i] == c; assert n'[i] == c; }
    if c in n' { var i :| 0 <= i < |n'| && n'[i] == c; assert n[i] == c; }
  }

  lemma SameSpots(n: seq<byte>, n': seq<byte>)
    requires SameButCase(n, n')
    ensures DotAt(n) == DotAt(n')
  {
    assert forall i :: 0 <= i < |n| ==> SameLetter(n[i], n'[i]) && UpperByte(n[i]) == UpperByte(n'[i]);
    SameDot(n, n');
  }

  // The first cluster of a directory a request names.
  method DirectoryOf(fs: FileSystem, d: int) returns (c: nat)
    requires fs.Valid()
    ensures c == DirOf(fs.v.g.root, fs.nodes, d) && (c != 0 ==> IsDir(fs.t, c))
  {
    hide Shape, Stored, NodesOk;
    fs.ValidParts();
    RootDir(fs.v.g.root, fs.t);
    if d == -1 { return fs.v.g.root; }
    if 0 <= d < |fs.nodes| && fs.nodes[d].isDir && fs.nodes[d].first >= 2 {
      DirNode(fs.t, fs.nodes, d);
      return fs.nodes[d].first;
    }
    return 0;
  }

  lemma RootDir(root: nat, t: Tree)
    requires Shape(root, t)
    ensures IsDir(t, root)
  {
  }

  lemma DirNode(t: Tree, nodes: seq<Node>, i: nat)
    requires NodesOk(t, nodes) && i < |nodes| && nodes[i].first >= 2
    ensures nodes[i].isDir <==> IsDir(t, nodes[i].first)
    ensures !nodes[i].isDir ==> OpenFile(t, nodes, i)
  {
    assert NodeOk(t, nodes[i]);
  }

  lemma StateIs(fs: FileSystem)
    requires fs.Valid()
    ensures fs.v.Valid() && StateOf(fs) == State(fs.t, fs.nodes, fs.v.Fat()) && fs.t.body.Keys == fs.t.own.Keys
  {
    hide Shape, Stored, NodesOk;
    fs.ValidParts();
  }

  method DoCreate(fs: FileSystem, d: int, name: seq<byte>)
    requires fs.Valid() && DirOf(fs.v.g.root, fs.nodes, d) != 0 && GoodName(name)
    modifies fs, fs.v, fs.v.disk
    ensures fs.Valid() && Follows(fs.v.g.root, old(StateOf(fs)), Create(d, name), StateOf(fs))
  {
    hide *;
    StateIs(fs);
    ghost var a := StateOf(fs);
    var dir := DirectoryOf(fs, d);
    var c := fs.Create(dir, name);
    StateIs(fs);
    Created(fs.v.g.root, a, StateOf(fs), d, dir, name, c);
  }

  lemma Created(root: nat, a: State, b: State, d: int, dir: nat, name: seq<byte>, c: nat)
    requires dir == DirOf(root, a.nodes, d) != 0 && GoodName(name) && IsDir(a.t, dir) && IsDir(b.t, dir)
    requires a.t.body.Keys == a.t.own.Keys && b.t.body.Keys == b.t.own.Keys && b.nodes == a.nodes
    requires Upper(name) in MapAt(a.t, dir) ==> b.t == a.t
    requires Upper(name) !in MapAt(a.t, dir) && c == 0 ==> b.t == a.t && b.fat == a.fat && AtMostOneFree(b.fat)
    requires Upper(name) !in MapAt(a.t, dir) && c != 0 ==>
               && c !in a.t.own && c in b.t.own && MapAt(b.t, dir) == MapAt(a.t, dir)[Upper(name) := c]
               && b.t.body == a.t.body[dir := b.t.body[dir]][c := File([])]
    ensures Follows(root, a, Create(d, name), b)
  {
    hide MapAt, GoodName, Upper, AtMostOneFree, DirOf;
  }

  method DoMkdir(fs: FileSystem, d: int, name: seq<byte>)
    requires fs.Valid() && DirOf(fs.v.g.root, fs.nodes, d) != 0 && GoodName(name)
    modifies fs, fs.v, fs.v.disk
    ensures fs.Valid() && Follows(fs.v.g.root, old(StateOf(fs)), Mkdir(d, name), StateOf(fs))
  {
    hide *;
    StateIs(fs);
    ghost var a := StateOf(fs);
    var dir := DirectoryOf(fs, d);
    var c := fs.Mkdir(dir, name);
    StateIs(fs);
    DirMade(fs.v.g.root, a, StateOf(fs), d, dir, name, c);
  }

  lemma DirMade(root: nat, a: State, b: State, d: int, dir: nat, name: seq<byte>, c: nat)
    requires dir == DirOf(root, a.nodes, d) != 0 && GoodName(name) && IsDir(a.t, dir) && IsDir(b.t, dir)
    requires a.t.body.Keys == a.t.own.Keys && b.nodes == a.nodes
    requires Upper(name) in MapAt(a.t, dir) ==> b.t == a.t
    requires Upper(name) !in MapAt(a.t, dir) && c == 0 ==> b.t == a.t && b.fat == a.fat && AtMostOneFree(b.fat)
    requires Upper(name) !in MapAt(a.t, dir) && c != 0 ==>
               && c !in a.t.own && MapAt(b.t, dir) == MapAt(a.t, dir)[Upper(name) := c]
               && c in b.t.body && b.t.body == a.t.body[dir := b.t.body[dir]][c := b.t.body[c]]
               && IsDir(b.t, c) && NewDirMap(MapAt(b.t, c), c, dir)
    ensures Follows(root, a, Mkdir(d, name), b)
  {
    hide MapAt, GoodName, Upper, AtMostOneFree, DirOf, NewDirMap;
  }

  method DoUnlink(fs: FileSystem, d: int, name: seq<byte>)
    requires fs.Valid() && DirOf(fs.v.g.root, fs.nodes, d) != 0 && CString(name)
    requires Unlinkable(fs.t, DirOf(fs.v.g.root, fs.nodes, d), name)
    modifies fs, fs.v, fs.v.disk
    ensures fs.Valid() && Follows(fs.v.g.root, old(StateOf(fs)), Unlink(d, name), StateOf(fs))
  {
    hide *;
    StateIs(fs);
    ghost var a := StateOf(fs);
    var dir := DirectoryOf(fs, d);
    fs.ValidParts();
    NoFileGoes(fs.v.Fat(), fs.v.g.root, fs.t, dir, name);
    var n := fs.Unlink(dir, name);
    StateIs(fs);
    Unlinked(fs.v.g.root, a, StateOf(fs), d, dir, name);
  }

  // An empty directory holds no file, and a file is no directory.
  lemma NoFileGoes(fat: seq<nat>, root: nat, t: Tree, dir: nat, name: seq<byte>)
    requires Owned(fat, t.own) && Shape(root, t) && IsDir(t, dir) && Unlinkable(t, dir, name)
    ensures Upper(name) in MapAt(t, dir) ==> HoldsNoFile(t, MapAt(t, dir)[Upper(name)])
  {
    hide Owned, Shape, HasName, Refers, NameOf, Upper, ClusterOf, Search, MapOf, NoEntries, Live;
    LookupMap(root, t, dir, name);
    ShapeKeys(root, t);
    if Upper(name) in MapAt(t, dir) {
      var h := MapAt(t, dir)[Upper(name)];
      FoundLeads(fat, root, t, dir, name, Search(t.body[dir].slots, Named(name), 0).at);
      if IsDir(t, h) { EmptyHoldsNoFile(fat, root, t, h); }
    }
  }

  lemma EmptyHoldsNoFile(fat: seq<nat>, root: nat, t: Tree, h: nat)
    requires Owned(fat, t.own) && Shape(root, t) && IsDir(t, h) && NoEntries(t.body[h].slots)
    ensures HoldsNoFile(t, h)
  {
    hide Owned, NameOf, ClusterOf, MapOf, Live, DirOk, IsDirectory, HasEntry;
    var slots := t.body[h].slots;
    ShapeDir(root, t, h);
    DirUnique(slots);
    MapHas(slots);
    forall n | n in MapAt(t, h) ensures !(MapAt(t, h)[n] in t.body && t.body[MapAt(t, h)[n]].File?) {
      var c := MapAt(t, h)[n];
      var k: nat :| Maps(slots, n, c, k);
      ShapeChain(root, t, h, k);
      if c in t.own { HeadAbove(fat, t.own, c); }
    }
  }

  lemma DirUnique(slots: seq<Slot>)
    requires DirOk(slots)
    ensures Unique(slots)
  {
  }

  lemma Unlinked(root: nat, a: State, b: State, d: int, dir: nat, name: seq<byte>)
    requires dir == DirOf(root, a.nodes, d) != 0 
    requires IsDir(a.t, dir) && IsDir(b.t, dir) && a.t.body.Keys == a.t.own.Keys
    requires Upper(name) in MapAt(a.t, dir) ==>
               HoldsNoFile(a.t, MapAt(a.t, dir)[Upper(name)])
    requires Upper(name) !in MapAt(a.t, dir) ==> b.t == a.t && b.nodes == a.nodes
    requires Upper(name) in MapAt(a.t, dir) ==>
               var h := MapAt(a.t, dir)[Upper(name)];
               && MapAt(b.t, dir) == MapAt(a.t, dir) - {Upper(name)} && h != dir
               && b.t.body == (a.t.body - {h})[dir := b.t.body[dir]] && b.nodes == Forgotten(a.nodes, h)
    ensures Follows(root, a, Unlink(d, name), b)
  {
    hide MapAt, Upper, DirOf, HoldsNoFile, Forgotten;
  }

  method DoOpen(fs: FileSystem, d: int, name: seq<byte>)
    requires fs.Valid() && DirOf(fs.v.g.root, fs.nodes, d) != 0 && CString(name)
    modifies fs, fs.v, fs.v.disk
    ensures fs.Valid() && Follows(fs.v.g.root, old(StateOf(fs)), Open(d, name), StateOf(fs))
  {
    hide *;
    StateIs(fs);
    ghost var a := StateOf(fs);
    var dir := DirectoryOf(fs, d);
    var i := fs.Open(dir, name);
    StateIs(fs);
    Opened(fs.v.g.root, a, StateOf(fs), d, dir, name, i);
  }

  lemma Opened(root: nat, a: State, b: State, d: int, dir: nat, name: seq<byte>, i: int)
    requires dir == DirOf(root, a.nodes, d) != 0 && CString(name) && b.t == a.t
    requires a.nodes <= b.nodes && -1 <= i < |b.nodes|
    requires i >= 0 <==> Upper(name) in MapAt(a.t, dir) && |a.nodes| < MAX_NODES
    requires i == -1 ==> b.nodes == a.nodes
    requires i >= 0 ==> b.nodes[i].first == MapAt(a.t, dir)[Upper(name)]
    ensures Follows(root, a, Open(d, name), b)
  {
    hide MapAt, CString, Upper, DirOf;
  }

  method DoWrite(fs: FileSystem, i: nat, offset: nat, data: seq<byte>)
    requires fs.Valid() && Writable(fs.nodes, i) && offset + |data| < 0x1_0000_0000
    modifies fs, fs.v, fs.v.disk
    ensures fs.Valid() && Follows(fs.v.g.root, old(StateOf(fs)), Write(i, offset, data), StateOf(fs))
  {
    hide *;
    StateIs(fs);
    ghost var a := StateOf(fs);
    fs.ValidParts();
    FileDir(fs.t, fs.nodes, i);
    var n := fs.Write(i, offset, data);
    StateIs(fs);
    WriteFollows(fs.v.g.root, a, StateOf(fs), i, offset, data, n);
  }

  lemma WriteFollows(root: nat, a: State, b: State, i: nat, offset: nat, data: seq<byte>, n: int)
    requires Writable(a.nodes, i) && offset + |data| < 0x1_0000_0000
    requires OpenFile(a.t, a.nodes, i) && IsDir(a.t, a.nodes[i].dir) && |a.nodes| == |b.nodes|
    requires data == [] ==> b.t == a.t && b.nodes == a.nodes
    requires data != [] ==> 0 <= n <= |data| && (n < |data| ==> Full(b.fat))
    requires data != [] ==>
               var h, d := a.nodes[i].first, a.nodes[i].dir;
               && b.nodes[i].first == h && b.nodes == a.nodes[i := b.nodes[i]]
               && d in b.t.body && MapAt(b.t, d) == MapAt(a.t, d)
               && b.t.body == a.t.body[d := b.t.body[d]][h := File(Written(a.t.body[h].bytes, offset, data[..n]))]
    ensures Follows(root, a, Write(i, offset, data), b)
  {
    hide MapAt, Full, Written;
    if data != [] { assert WrotePart(a, b, i, offset, data, n); }
  }

  // One request.
  method Step(fs: FileSystem, r: Request)
    requires fs.Valid() && Supported(fs.v.g.root, StateOf(fs), r)
    modifies fs, fs.v, fs.v.disk
    ensures fs.Valid() && Follows(fs.v.g.root, old(StateOf(fs)), r, StateOf(fs))
  {
    hide FileSystem.Valid, Volume.Valid, Follows, DirOf, GoodName, CString, Unlinkable, Writable, Volume.Fat;
    match r
    case Create(d, name) => DoCreate(fs, d, name);
    case Mkdir(d, name) => DoMkdir(fs, d, name);
    case Unlink(d, name) => DoUnlink(fs, d, name);
    case Open(d, name) => DoOpen(fs, d, name);
    case Write(i, offset, data) => DoWrite(fs, i, offset, data);
  }

  lemma FileDir(t: Tree, nodes: seq<Node>, i: nat)
    requires NodesOk(t, nodes) && Writable(nodes, i)
    ensures OpenFile(t, nodes, i) && IsDir(t, nodes[i].dir)
  {
    DirNode(t, nodes, i);
    OpenFacts(t, nodes, i);
  }

  // The states of a run: each request leads from one to the next.
  ghost predicate Trace(root: nat, states: seq<State>, rs: seq<Request>) {
    && |states| == |rs| + 1
    && forall i, j :: 0 <= i && j == i + 1 < |states| ==> Follows(root, states[i], rs[i], states[j])
  }

  lemma TraceMore(root: nat, states: seq<State>, rs: seq<Request>, i: nat, b: State)
    requires i < |rs| && Trace(root, states, rs[..i]) && Follows(root, states[i], rs[i], b)
    ensures Trace(root, states + [b], rs[..i + 1])
  {
    hide Follows;
  }

  // Whatever states the run goes through, each request is supported in the state it meets.
  ghost predicate AlwaysSupported(root: nat, a: State, rs: seq<Request>) {
    forall states: seq<State>, i: nat ::
      i < |rs| && Trace(root, states, rs[..i]) && states[0] == a ==> Supported(root, states[i], rs[i])
  }

  lemma NextSupported(root: nat, states: seq<State>, rs: seq<Request>, i: nat)
    requires i < |rs| && Trace(root, states, rs[..i]) && AlwaysSupported(root, states[0], rs)
    ensures Supported(root, states[i], rs[i])
  {
  }

  // A run of the driver is a run of the machine, and over any run of supported requests the volume
  // stays consistent: no cluster is lost or shared, and all that is in use can be reached from the root.
  method Run(fs: FileSystem, rs: seq<Request>) returns (ghost states: seq<State>)
    requires fs.Valid() && AlwaysSupported(fs.v.g.root, StateOf(fs), rs)
    modifies fs, fs.v, fs.v.disk
    ensures fs.Valid() && Trace(fs.v.g.root, states, rs) && states[0] == old(StateOf(fs)) && states[|rs|] == StateOf(fs)
    ensures Accounted(fs.v.Fat(), fs.v.g.root, fs.t)
    ensures forall h :: h in fs.t.own ==> exists p: seq<nat> :: Leads(fs.t, fs.v.g.root, p, h)
  {
    hide *;
    var i := 0;
    StateIs(fs);
    states := [StateOf(fs)];
    TraceStart(fs.v.g.root, StateOf(fs), rs);
    while i < |rs|
      invariant fs.Valid() && 0 <= i <= |rs| && fs.v.Valid()
      invariant |states| == i + 1 && Trace(fs.v.g.root, states, rs[..i])
      invariant states[0] == old(StateOf(fs)) && states[i] == StateOf(fs)
    {
      NextSupported(fs.v.g.root, states, rs, i);
      Step(fs, rs[i]);
      StateIs(fs);
      TraceMore(fs.v.g.root, states, rs, i, StateOf(fs));
      states := states + [StateOf(fs)];
      i := i + 1;
    }
    assert rs[..i] == rs;
    fs.ValidParts();
    AllAccounted(fs.v.Fat(), fs.v.g.root, fs.t);
    forall h | h in fs.t.own ensures exists p: seq<nat> :: Leads(fs.t, fs.v.g.root, p, h) {
      var p := Reach(fs.v.g.root, fs.t, h);
    }
  }

  lemma TraceStart(root: nat, a: State, rs: seq<Request>)
    ensures Trace(root, [a], rs[..0])
  {
  }

  // ---------- What a run leaves alone ----------

  // The request writes to the file of h, or removes an entry that leads to it.
  ghost predicate Touches(root: nat, s: State, r: Request, h: nat) {
    match r
    case Write(i, _, _) => i < |s.nodes| && s.nodes[i].first == h
    case Unlink(d, name) => Leading(s, DirOf(root, s.nodes, d), name) == h
    case _ => false
  }

  // In directory d the name n leads to a file that holds these bytes.
  ghost predicate HasFile(s: State, d: nat, n: seq<byte>, h: nat, bytes: seq<byte>) {
    IsDir(s.t, d) && n in MapAt(s.t, d) && MapAt(s.t, d)[n] == h && h in s.t.body && s.t.body[h] == File(bytes)
  }

  lemma MadeKeepsFile(a: State, b: State, dir: nat, name: seq<byte>, c: nat, d: nat, n: seq<byte>, h: nat,
                      bytes: seq<byte>)
    requires Made(a, b, dir, name, c) && Upper(name) !in MapAt(a.t, dir) && HasFile(a, d, n, h, bytes)
    ensures HasFile(b, d, n, h, bytes)
  {
    hide MapOf, Upper;
    if d != dir { assert b.t.body[d] == a.t.body[d]; }
  }

  lemma UnlinkKeepsFile(a: State, b: State, dir: nat, name: seq<byte>, d: nat, n: seq<byte>, h: nat, bytes: seq<byte>)
    requires Unlinks(a, b, dir, name) && Leading(a, dir, name) != h && HasFile(a, d, n, h, bytes)
    ensures HasFile(b, d, n, h, bytes)
  {
    hide MapOf, Upper, Forgotten;
    if d != dir && Upper(name) in MapAt(a.t, dir) {
      assert d != Leading(a, dir, name);
      assert b.t.body[d] == a.t.body[d];
    }
  }

  lemma WriteKeepsFile(a: State, b: State, i: nat, offset: nat, data: seq<byte>, k: nat, d: nat, n: seq<byte>, h: nat,
                       bytes: seq<byte>)
    requires WrotePart(a, b, i, offset, data, k) && a.nodes[i].first != h && HasFile(a, d, n, h, bytes)
    ensures HasFile(b, d, n, h, bytes)
  {
    hide MapOf, Written, Full;
    if d != a.nodes[i].dir { assert b.t.body[d] == a.t.body[d]; }
  }

  lemma StepKeepsFile(root: nat, a: State, r: Request, b: State, d: nat, n: seq<byte>, h: nat, bytes: seq<byte>)
    requires Follows(root, a, r, b) && HasFile(a, d, n, h, bytes) && !Touches(root, a, r, h)
    ensures HasFile(b, d, n, h, bytes)
  {
    hide Upper, DirOf, Leading, MapAt, Made, Unlinks, HasFile;
    match r
    case Create(e, name) =>
      var dir := DirOf(root, a.nodes, e);
      if !Same(a, b) && !NoRoom(a, b) { MadeKeepsFile(a, b, dir, name, Leading(b, dir, name), d, n, h, bytes); }
      else { SameKeepsFile(a, b, d, n, h, bytes); }
    case Mkdir(e, name) =>
      var dir := DirOf(root, a.nodes, e);
      if !Same(a, b) && !NoRoom(a, b) { MadeKeepsFile(a, b, dir, name, Leading(b, dir, name), d, n, h, bytes); }
      else { SameKeepsFile(a, b, d, n, h, bytes); }
    case Unlink(e, name) =>
      var dir := DirOf(root, a.nodes, e);
      if !Same(a, b) { UnlinkKeepsFile(a, b, dir, name, d, n, h, bytes); }
      else { SameKeepsFile(a, b, d, n, h, bytes); }
    case Open(_, _) => SameKeepsFile(a, b, d, n, h, bytes);
    case Write(i, offset, data) =>
      if !Same(a, b) {
        var k :| WrotePart(a, b, i, offset, data, k);
        WriteKeepsFile(a, b, i, offset, data, k, d, n, h, bytes);
      } else { SameKeepsFile(a, b, d, n, h, bytes); }
  }

  lemma SameKeepsFile(a: State, b: State, d: nat, n: seq<byte>, h: nat, bytes: seq<byte>)
    requires b.t == a.t && HasFile(a, d, n, h, bytes)
    ensures HasFile(b, d, n, h, bytes)
  {
  }

  // A file survives every run that does not touch it: its name still leads to it and it holds
  // the same bytes, whatever else is created, written or removed meanwhile.
  lemma {:induction false} RunKeepsFile(
    root: nat, states: seq<State>, rs: seq<Request>, d: nat, n: seq<byte>, h: nat, bytes: seq<byte>)
    requires Trace(root, states, rs) && HasFile(states[0], d, n, h, bytes)
    requires forall i :: 0 <= i < |rs| ==> !Touches(root, states[i], rs[i], h)
    ensures HasFile(states[|rs|], d, n, h, bytes)
    decreases |rs|
  {
    hide Follows, Touches, HasFile;
    if rs != [] {
      var k := |rs| - 1;
      var early := states[..k + 1];
      assert Trace(root, early, rs[..k]);
      RunKeepsFile(root, early, rs[..k], d, n, h, bytes);
      StepKeepsFile(root, states[k], rs[k], states[k + 1], d, n, h, bytes);
    }
  }

  // ---------- Reachability ----------

  // p is a path of directories from the root down to h, each named by an entry of the one before.
  ghost predicate Leads(t: Tree, root: nat, p: seq<nat>, h: nat) {
    && p != [] && p[0] == root && p[|p| - 1] == h
    && forall i, j :: 0 <= i && j == i + 1 < |p| ==> NamedIn(t, p[i], p[j])
  }

  ghost predicate NamedIn(t: Tree, d: nat, h: nat) { exists i: nat :: Names(t, d, i, h) }

  lemma {:induction false} Reach(root: nat, t: Tree, h: nat) returns (p: seq<nat>)
    requires Shape(root, t) && h in t.own
    ensures Leads(t, root, p, h)
    decreases !IsDir(t, h), if h in t.depth then t.depth[h] else 0
  {
    hide Names, Shape, NamedIn;
    if h == root { return [root]; }
    var d := Parent(root, t, h);
    p := Reach(root, t, d);
    p := p + [h];
  }

  // The directory that names h lies one level higher.
  lemma Parent(root: nat, t: Tree, h: nat) returns (d: nat)
    requires Shape(root, t) && h in t.own && h != root
    ensures d in t.own && IsDir(t, d) && NamedIn(t, d, h)
    ensures IsDir(t, h) ==> h in t.depth && d in t.depth && t.depth[h] == t.depth[d] + 1
  {
    hide Live, Dots, ClusterOf, DirOk, IsDirectory, SizeOf;
    assert HasEntry(t, h);
    d := t.loc[h].dir;
    assert Names(t, d, t.loc[h].slot, h);
  }
}
