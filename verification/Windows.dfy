// The window manager: a table of windows, and their order from back to front.
module Windows {
  import opened Dirty
  import opened Scene
  import opened Focus
  import C = Counting

  // Where id stands first; the length if it does not.
  function IndexOf(z: seq<nat>, id: nat): (i: nat)
    ensures i <= |z| && (i < |z| ==> z[i] == id) && forall j :: 0 <= j < i ==> z[j] != id
  {
    if z == [] || z[0] == id then 0
    else
      var i := IndexOf(z[1..], id);
      assert forall j :: 1 <= j < i + 1 ==> z[j] == z[1..][j - 1];
      i + 1
  }

  function Without(z: seq<nat>, id: nat): seq<nat> {
    var i := IndexOf(z, id);
    if i < |z| then z[..i] + z[i + 1..] else z
  }

  // z lists windows of the table, none twice.
  ghost predicate OnList(table: seq<Managed>, z: seq<nat>) {
    C.Distinct(z) && |table| == MAX_WINDOWS && forall k :: 0 <= k < |z| ==> z[k] < MAX_WINDOWS && table[z[k]].id == z[k]
  }

  // The windows in order.
  ghost function ListOf(table: seq<Managed>, z: seq<nat>): (r: seq<Managed>)
    requires forall k :: 0 <= k < |z| ==> z[k] < |table|
    ensures |r| == |z| && forall k :: 0 <= k < |r| ==> r[k] == table[z[k]]
  {
    seq(|z|, k requires 0 <= k < |z| => table[z[k]])
  }

  // What taking id out of the list, and putting it in front, do to it.
  lemma WithoutFacts(z: seq<nat>, id: nat)
    requires C.Distinct(z)
    ensures var i, w := IndexOf(z, id), Without(z, id);
            && id !in w && C.Distinct(w + [id]) && (forall x :: x in w <==> x in z && x != id)
            && (id in z <==> i < |z|) && |w| == (if i < |z| then |z| - 1 else |z|)
            && forall k :: 0 <= k < |w| ==> w[k] == if k < i then z[k] else z[k + 1]
  {
    hide IndexOf;
    var i, w := IndexOf(z, id), Without(z, id);
    assert forall k :: 0 <= k < |w| ==> w[k] == if k < i then z[k] else z[k + 1];
    hide Without;
    assert id !in w && C.Distinct(w);
    forall x | x in z && x != id ensures x in w {
      var k :| 0 <= k < |z| && z[k] == x;
      assert w[if k < i then k else k - 1] == x;
    }
  }

  // A window that is not on the list finds room there.
  lemma ListFits(z: seq<nat>, id: nat)
    requires C.Distinct(z) && id !in z && id < MAX_WINDOWS && forall k :: 0 <= k < |z| ==> z[k] < MAX_WINDOWS
    ensures |z| < MAX_WINDOWS
  {
    C.Pigeonhole(z + [id], 0, MAX_WINDOWS);
  }

  // The list z with its i-th entry moved to the end.
  ghost predicate Moved(z: seq<nat>, w: seq<nat>, i: nat) {
    && i < |z| == |w| && w[|w| - 1] == z[i]
    && (forall k :: 0 <= k < i ==> w[k] == z[k])
    && (forall k, j :: i <= k && j == k + 1 < |z| ==> w[k] == z[j])
  }

  lemma InFront(z: seq<nat>, id: nat)
    requires C.Distinct(z) && id in z
    ensures var i, w := IndexOf(z, id), Without(z, id) + [id];
            && Moved(z, w, i) && C.Distinct(w) && (forall x :: x in w <==> x in z) && z[i] == id
  {
    WithoutFacts(z, id);
  }

  lemma MovedFrom(z: seq<nat>, w: seq<nat>, i: nat, k: nat)
    requires Moved(z, w, i) && k < |w|
    ensures i < |z| == |w| && exists j :: 0 <= j < |z| && z[j] == w[k]
  {
    if i <= k < |z| - 1 { assert z[k + 1] == w[k]; }
  }

  // The first n windows of the list have lost the focus.
  ghost predicate Dimmed(tab: seq<Managed>, now: seq<Managed>, z: seq<nat>, n: nat) {
    && |tab| == |now| == MAX_WINDOWS && (forall k :: 0 <= k < |z| ==> z[k] < MAX_WINDOWS)
    && (forall id :: 0 <= id < MAX_WINDOWS && id !in z ==> now[id] == tab[id])
    && (forall k :: 0 <= k < |z| ==>
          now[z[k]] == if k < n then tab[z[k]].(focused := false) else tab[z[k]])
  }

  lemma DimmedNext(tab: seq<Managed>, now: seq<Managed>, z: seq<nat>, n: nat)
    requires Dimmed(tab, now, z, n) && n < |z| && C.Distinct(z)
    ensures z[n] < |now| && Dimmed(tab, now[z[n] := now[z[n]].(focused := false)], z, n + 1)
  {
  }

  // Of the windows on the list just id has the focus.
  ghost predicate Only(tab: seq<Managed>, now: seq<Managed>, z: seq<nat>, id: nat) {
    && |tab| == |now| == MAX_WINDOWS && id < MAX_WINDOWS && now[id] == tab[id].(focused := true)
    && forall k :: 0 <= k < |z| ==> z[k] < MAX_WINDOWS && now[z[k]] == tab[z[k]].(focused := z[k] == id)
  }

  lemma DimmedLit(tab: seq<Managed>, now: seq<Managed>, z: seq<nat>, id: nat)
    requires Dimmed(tab, now, z, |z|) && id < MAX_WINDOWS
    ensures id < |now| && Only(tab, now[id := now[id].(focused := true)], z, id)
  {
    if id in z {
      var k :| 0 <= k < |z| && z[k] == id;
    }
  }

  // The window at place k, when the focus goes to the i-th, which comes to the front.
  lemma OneWindow(tab: seq<Managed>, now: seq<Managed>, z: seq<nat>, w: seq<nat>, i: nat, k: nat)
    requires Moved(z, w, i) && k < |z| && C.Distinct(z) && Only(tab, now, z, z[i])
    ensures w[k] < |now|
    ensures now[w[k]] == FocusOn(ListOf(tab, z), i)[k]
  {
    hide FocusOn;
    FocusParts(ListOf(tab, z), i);
    var j := if k < i then k else if k < |z| - 1 then k + 1 else i;
    assert w[k] == z[j];
  }

  // The steps of wm_focus_window together.
  lemma FocusList(tab: seq<Managed>, now: seq<Managed>, z: seq<nat>, id: nat)
    requires OnList(tab, z) && id in z && Only(tab, now, z, id)
    ensures var i, w := IndexOf(z, id), Without(z, id) + [id];
            && i < |z| == |w| && OnList(now, w) && (forall x :: x in w <==> x in z)
            && ListOf(now, w) == FocusOn(ListOf(tab, z), i) && ListOf(tab, z)[i].id == id
  {
    hide Without, FocusOn, Moved, C.Distinct;
    var i, w := IndexOf(z, id), Without(z, id) + [id];
    InFront(z, id);
    forall k | 0 <= k < |w| ensures w[k] < MAX_WINDOWS && now[w[k]].id == w[k] { MovedFrom(z, w, i, k); }
    if |w| > 0 { MovedFrom(z, w, i, 0); }
    var l, b := ListOf(now, w), FocusOn(ListOf(tab, z), i);
    forall k | 0 <= k < |w| ensures l[k] == b[k] { OneWindow(tab, now, z, w, i, k); }
  }

  // The steps of wm_create_window together.
  lemma CreateList(tab: seq<Managed>, m: Managed, now: seq<Managed>, z: seq<nat>)
    requires OnList(tab, z) && m.id !in z && m.id < MAX_WINDOWS && Only(tab[m.id := m], now, z, m.id)
    ensures var w := Without(z, m.id) + [m.id];
            && OnList(now, w) && (forall x :: x in w <==> x in z || x == m.id)
            && ListOf(now, w) == CreateOn(ListOf(tab, z), m)
  {
    hide Without;
    WithoutNone(z, m.id);
    WithoutFacts(z, m.id);
    var w := Without(z, m.id) + [m.id];
    var l, b := ListOf(now, w), CreateOn(ListOf(tab, z), m);
    forall k | 0 <= k < |w| ensures l[k] == b[k] {}
  }

  // The table after window id is gone and the one now in front of w got the focus.
  function Gone(tab: seq<Managed>, w: seq<nat>, id: nat): (r: seq<Managed>)
    requires id < |tab| && forall k :: 0 <= k < |w| ==> w[k] < |tab|
    ensures |r| == |tab|
  {
    var now := tab[id := tab[id].(visible := false, focused := false)];
    if w == [] then now else now[w[|w| - 1] := now[w[|w| - 1]].(focused := true)]
  }

  // The list z without its i-th entry.
  ghost predicate Dropped(z: seq<nat>, w: seq<nat>, i: nat) {
    i < |z| && |w| == |z| - 1 && forall k :: 0 <= k < |w| ==> w[k] == z[Before(i, k)]
  }

  lemma DropFacts(z: seq<nat>, id: nat)
    requires C.Distinct(z) && id in z
    ensures var i, w := IndexOf(z, id), Without(z, id);
            Dropped(z, w, i) && z[i] == id && C.Distinct(w) && forall x :: x in w <==> x in z && x != id
  {
    WithoutFacts(z, id);
  }

  lemma GoneAt(tab: seq<Managed>, w: seq<nat>, id: nat, k: nat)
    requires id < |tab| && id !in w && C.Distinct(w) && k < |w| && forall k :: 0 <= k < |w| ==> w[k] < |tab|
    ensures Gone(tab, w, id)[w[k]] == tab[w[k]].(focused := k == |w| - 1 || tab[w[k]].focused)
  {
    assert w[k] in w;
  }

  lemma DestroyedAt(ws: seq<Managed>, i: nat, k: nat)
    requires i < |ws| && k < |ws| - 1
    ensures |DestroyOn(ws, i)| == |ws| - 1
    ensures DestroyOn(ws, i)[k] == ws[Before(i, k)].(focused := k == |ws| - 2 || ws[Before(i, k)].focused)
  {
    assert (ws[..i] + ws[i + 1..])[k] == ws[Before(i, k)];
  }

  lemma DroppedAt(z: seq<nat>, w: seq<nat>, i: nat, k: nat)
    requires Dropped(z, w, i) && k < |w|
    ensures Before(i, k) < |z| == |w| + 1 && w[k] == z[Before(i, k)]
  {
  }

  lemma ListedAt(tab: seq<Managed>, z: seq<nat>, k: nat)
    requires OnList(tab, z) && k < |z|
    ensures z[k] < |tab| == MAX_WINDOWS && tab[z[k]].id == z[k] && ListOf(tab, z)[k] == tab[z[k]]
  {
  }

  // The steps of wm_destroy_window together.
  lemma DestroyList(tab: seq<Managed>, z: seq<nat>, id: nat)
    requires OnList(tab, z) && id in z
    ensures var i, w := IndexOf(z, id), Without(z, id);
            && i < |z| && (forall x :: x in w <==> x in z && x != id) && (forall k :: 0 <= k < |w| ==> w[k] < |tab|)
            && id < |tab| && OnList(Gone(tab, w, id), w)
            && ListOf(Gone(tab, w, id), w) == DestroyOn(ListOf(tab, z), i) && ListOf(tab, z)[i].id == id
  {
    hide Without, IndexOf, Gone, DestroyOn, Dropped, Before;
    DropFacts(z, id);
    var i, w := IndexOf(z, id), Without(z, id);
    ListedAt(tab, z, i);
    hide OnList, C.Distinct;
    forall k | 0 <= k < |w| ensures w[k] < |tab| && tab[w[k]].id == w[k] {
      DroppedAt(z, w, i, k);
      ListedAt(tab, z, Before(i, k));
    }
    forall k | 0 <= k < |w| ensures Gone(tab, w, id)[w[k]] == tab[w[k]].(focused := k == |w| - 1 || tab[w[k]].focused) {
      GoneAt(tab, w, id, k);
    }
    MakeList(Gone(tab, w, id), w);
    var l, b := ListOf(Gone(tab, w, id), w), DestroyOn(ListOf(tab, z), i);
    DestroyedSize(ListOf(tab, z), i);
    forall k | 0 <= k < |w| ensures l[k] == b[k] {
      DroppedAt(z, w, i, k);
      ListedAt(tab, z, Before(i, k));
      DestroyedAt(ListOf(tab, z), i, k);
    }
    DroppedSize(z, w, i);
    assert l == b;
  }

  lemma DestroyedSize(ws: seq<Managed>, i: nat)
    requires i < |ws|
    ensures |DestroyOn(ws, i)| == |ws| - 1
  {
  }

  lemma DroppedSize(z: seq<nat>, w: seq<nat>, i: nat)
    requires Dropped(z, w, i)
    ensures |w| == |z| - 1
  {
  }

  lemma MakeList(tab: seq<Managed>, z: seq<nat>)
    requires C.Distinct(z) && |tab| == MAX_WINDOWS
    requires forall k :: 0 <= k < |z| ==> z[k] < MAX_WINDOWS && tab[z[k]].id == z[k]
    ensures OnList(tab, z)
  {
  }

  // The windows in use are those on the list.
  ghost predicate AllListed(u: seq<bool>, z: seq<nat>) {
    |u| == MAX_WINDOWS && forall id :: 0 <= id < MAX_WINDOWS ==> (u[id] <==> id in z)
  }

  lemma SameListed(u: seq<bool>, z: seq<nat>, w: seq<nat>)
    requires AllListed(u, z) && forall x :: x in w <==> x in z
    ensures AllListed(u, w)
  {
  }

  lemma MoreListed(u: seq<bool>, z: seq<nat>, w: seq<nat>, id: nat)
    requires AllListed(u, z) && id < MAX_WINDOWS && forall x :: x in w <==> x in z || x == id
    ensures AllListed(u[id := true], w)
  {
  }

  lemma LessListed(u: seq<bool>, z: seq<nat>, w: seq<nat>, id: nat)
    requires AllListed(u, z) && id < MAX_WINDOWS && forall x :: x in w <==> x in z && x != id
    ensures AllListed(u[id := false], w)
  {
  }

  // A window in use is on the list, and raising it needs no room.
  lemma ListFacts(u: seq<bool>, tab: seq<Managed>, z: seq<nat>, id: nat)
    requires AllListed(u, z) && OnList(tab, z) && id < MAX_WINDOWS && u[id]
    ensures id in z && IndexOf(z, id) < |z| && |Without(z, id)| < |z| <= MAX_WINDOWS
  {
    WithoutFacts(z, id);
    C.Pigeonhole(z, 0, MAX_WINDOWS);
  }

  ghost function NewWindow(id: nat, x: int, y: int, w: int, h: int, face: (int, int) -> Face): Managed {
    Managed(id, Rect(x, y, w, h), true, false, true, false, Rect(x, y + TITLEBAR_H, 0, 0), face)
  }

  lemma NewFacts(u: seq<bool>, tab: seq<Managed>, z: seq<nat>, m: Managed)
    requires AllListed(u, z) && OnList(tab, z) && m.id < MAX_WINDOWS && !u[m.id] && !m.focused
    ensures m.id !in z && |Without(z, m.id)| < MAX_WINDOWS && m.(focused := false) == m
  {
    WithoutFacts(z, m.id);
    ListFits(z, m.id);
  }

  lemma WithoutAt(z: seq<nat>, id: nat, i: nat)
    requires i < |z| && z[i] == id && forall j :: 0 <= j < i ==> z[j] != id
    ensures Without(z, id) == z[..i] + z[i + 1..]
  {
  }

  lemma WithoutNone(z: seq<nat>, id: nat)
    requires id !in z
    ensures Without(z, id) == z
  {
    assert forall k :: 0 <= k < |z| ==> z[k] in z;
  }

  lemma Destroyed(u: seq<bool>, tab: seq<Managed>, z: seq<nat>, id: nat)
    requires AllListed(u, z) && OnList(tab, z) && id < MAX_WINDOWS && u[id] && TopFocused(ListOf(tab, z))
    ensures var i, w := IndexOf(z, id), Without(z, id);
            && i < |z| && |tab| == MAX_WINDOWS && (forall k :: 0 <= k < |w| ==> w[k] < MAX_WINDOWS)
            && OnList(Gone(tab, w, id), w) && AllListed(u[id := false], w) && ListOf(tab, z)[i].id == id
            && ListOf(Gone(tab, w, id), w) == DestroyOn(ListOf(tab, z), i) && TopFocused(DestroyOn(ListOf(tab, z), i))
  {
    hide IndexOf, Without, Gone, DestroyOn, TopFocused;
    ListFacts(u, tab, z, id);
    StaysTopFocused(ListOf(tab, z), IndexOf(z, id), tab[id]);
    DestroyList(tab, z, id);
    LessListed(u, z, Without(z, id), id);
  }

  class WindowManager {
    const table: array<Managed>
    const used: array<bool>
    const zorder: array<nat>
    const screen: DirtyList
    var zcount: nat

    // wm_init
    constructor (list: DirtyList)
      requires list.Valid()
      ensures Valid() && screen == list && List() == [] && fresh(table) && fresh(used) && fresh(zorder)
    {
      var none := Managed(0, Rect(0, 0, 0, 0), false, false, false, false, Rect(0, 0, 0, 0), (x, y) => Plain(0));
      table := new Managed[MAX_WINDOWS](_ => none);
      used := new bool[MAX_WINDOWS](_ => false);
      zorder := new nat[MAX_WINDOWS](_ => 0);
      screen := list;
      zcount := 0;
    }

    // Every window in use is on the list once, and the one in front has the focus.
    ghost predicate Valid()
      reads this, table, used, zorder, screen, screen.rects
    {
      Sound() && screen.Valid() && TopFocused(List()) && AllListed(used[..], zorder[..zcount])
    }

    ghost predicate Sound()
      reads this, table, used, zorder
    {
      && table.Length == used.Length == zorder.Length == MAX_WINDOWS && zcount <= MAX_WINDOWS
      && OnList(table[..], zorder[..zcount])
    }

    ghost function List(): (r: seq<Managed>)
      requires Sound()
      reads this, table, used, zorder
      ensures |r| == zcount
    {
      ListOf(table[..], zorder[..zcount])
    }

    // zorder_remove
    method Remove(id: nat)
      requires zorder.Length == MAX_WINDOWS && zcount <= MAX_WINDOWS
      modifies zorder, `zcount
      ensures zcount <= MAX_WINDOWS && zorder[..zcount] == Without(old(zorder[..zcount]), id)
    {
      hide *;
      ghost var z := zorder[..zcount];
      for i := 0 to zcount
        invariant zorder[..zcount] == z && forall j :: 0 <= j < i ==> z[j] != id
        invariant zcount == old(zcount)
      {
        if zorder[i] == id {
          WithoutAt(z, id, i);
          CloseGap(i);
          return;
        }
      }
      WithoutNone(z, id);
    }

    // The entries behind the i-th move up by one.
    method CloseGap(i: nat)
      requires i < zcount <= zorder.Length
      modifies zorder, `zcount
      ensures zcount == old(zcount) - 1 && zorder[..zcount] == old(zorder[..i] + zorder[i + 1..zcount])
    {
      var j := i;
      while j + 1 < zcount
        invariant i <= j < zcount == old(zcount)
        invariant forall k :: 0 <= k < zcount && (k < i || k > j) ==> zorder[k] == old(zorder[k])
        invariant forall k :: i < k <= j ==> zorder[k - 1] == old(zorder[k])
      {
        zorder[j] := zorder[j + 1];
        j := j + 1;
      }
      zcount := zcount - 1;
      ghost var a, b := zorder[..zcount], old(zorder[..i] + zorder[i + 1..zcount]);
      forall k | 0 <= k < |b| ensures a[k] == b[k] {
        if k >= i { assert zorder[k + 1 - 1] == old(zorder[k + 1]); }
      }
    }

    // zorder_raise
    method Raise(id: nat)
      requires zorder.Length == MAX_WINDOWS && zcount <= MAX_WINDOWS && |Without(zorder[..zcount], id)| < MAX_WINDOWS
      modifies zorder, `zcount
      ensures zcount <= MAX_WINDOWS && zorder[..zcount] == Without(old(zorder[..zcount]), id) + [id]
    {
      hide Without;
      Remove(id);
      if zcount < MAX_WINDOWS {
        zorder[zcount] := id;
        zcount := zcount + 1;
      }
    }

    // Takes the focus from every window on the list.
    method Blur()
      requires table.Length == zorder.Length == MAX_WINDOWS && zcount <= MAX_WINDOWS && C.Distinct(zorder[..zcount])
      requires forall k :: 0 <= k < zcount ==> zorder[k] < MAX_WINDOWS
      modifies table
      ensures Dimmed(old(table[..]), table[..], zorder[..zcount], zcount)
    {
      ghost var tab, z := table[..], zorder[..zcount];
      assert Dimmed(tab, tab, z, 0);
      hide Dimmed, C.Distinct;
      for i := 0 to zcount
        invariant Dimmed(tab, table[..], z, i)
      {
        DimmedNext(tab, table[..], z, i);
        ghost var was := table[..];
        table[zorder[i]] := table[zorder[i]].(focused := false);
        assert table[..] == was[z[i] := was[z[i]].(focused := false)];
      }
    }

    // The window comes to the front and is the only one with the focus.
    method Bring(id: nat)
      requires table.Length == zorder.Length == MAX_WINDOWS && zcount <= MAX_WINDOWS && C.Distinct(zorder[..zcount])
      requires forall k :: 0 <= k < zcount ==> zorder[k] < MAX_WINDOWS
      requires id < MAX_WINDOWS && |Without(zorder[..zcount], id)| < MAX_WINDOWS
      modifies this`zcount, zorder, table
      ensures zcount <= MAX_WINDOWS && zorder[..zcount] == Without(old(zorder[..zcount]), id) + [id]
      ensures Only(old(table[..]), table[..], old(zorder[..zcount]), id)
    {
      hide *;
      ghost var tab, z := table[..], zorder[..zcount];
      Blur();
      DimmedLit(tab, table[..], z, id);
      ghost var dim := table[..];
      Raise(id);
      table[id] := table[id].(focused := true);
      assert table[..] == dim[id := dim[id].(focused := true)];
    }

    // wm_focus_window, for a window in use
    method GiveFocus(id: nat)
      requires Valid() && id < MAX_WINDOWS && used[id]
      modifies this`zcount, table, zorder, screen`full, screen`count
      ensures Valid() && screen.full
      ensures var i := IndexOf(old(zorder[..zcount]), id);
              i < |old(List())| && old(List())[i].id == id && List() == FocusOn(old(List()), i)
    {
      Use();
      ghost var tab, z := table[..], zorder[..zcount];
      hide *;
      ListFacts(used[..], tab, z, id);
      StaysTopFocused(ListOf(tab, z), IndexOf(z, id), tab[id]);
      Bring(id);
      FocusList(tab, table[..], z, id);
      SameListed(used[..], z, zorder[..zcount]);
      screen.MarkAll();
      MakeValid();
    }

    // wm_focus_window
    method Focus(id: int)
      requires Valid()
      modifies this`zcount, table, zorder, screen`full, screen`count
      ensures Valid()
      ensures if 0 <= id < MAX_WINDOWS && used[id] then
                var i := IndexOf(old(zorder[..zcount]), id);
                i < |old(List())| && old(List())[i].id == id && List() == FocusOn(old(List()), i) && screen.full
              else List() == old(List())
    {
      if id < 0 || id >= MAX_WINDOWS || !used[id] { return; }
      hide IndexOf, FocusOn, OnList, TopFocused, AllListed;
      GiveFocus(id);
    }

    // wm_create_window; room: there is memory for the content, face: what painting the window gives.
    method Create(x: int, y: int, w: int, h: int, room: bool, face: (int, int) -> Face) returns (id: int)
      requires Valid()
      modifies this`zcount, table, used, zorder, screen`full, screen`count
      ensures Valid() && -1 <= id < 16
      ensures id == -1 <==> w <= 0 || h <= 24 || !room || forall k :: 0 <= k < 16 ==> old(used[k])
      ensures if id == -1 then List() == old(List()) else
                !old(used[id]) && screen.full && List() == CreateOn(old(List()), NewWindow(id, x, y, w, h, face))
    {
      if w <= 0 || h <= TITLEBAR_H { return -1; }
      Use();
      ghost var tab, z, u := table[..], zorder[..zcount], used[..];
      hide *;
      id := 0;
      while id < MAX_WINDOWS && used[id]
        invariant 0 <= id <= MAX_WINDOWS && forall k :: 0 <= k < id ==> used[k]
      {
        id := id + 1;
      }
      if id == MAX_WINDOWS || !room {
        KeepValid();
        return -1;
      }
      ghost var m := NewWindow(id, x, y, w, h, face);
      NewFacts(u, tab, z, m);
      StaysTopFocused(ListOf(tab, z), 0, m);
      table[id] := Managed(id, Rect(x, y, w, h), true, false, true, false, Rect(x, y + 24, 0, 0), face);
      used[id] := true;
      assert table[..] == tab[id := m] && used[..] == u[id := true];
      Bring(id);
      CreateList(tab, m, table[..], z);
      MoreListed(u, z, zorder[..zcount], id);
      screen.MarkAll();
      MakeValid();
    }

    // The window's slot is free, and the window now in front, if there is one, has the focus.
    method Free(id: nat)
      requires table.Length == used.Length == zorder.Length == MAX_WINDOWS && zcount <= MAX_WINDOWS && id < MAX_WINDOWS
      requires forall k :: 0 <= k < |Without(zorder[..zcount], id)| ==> Without(zorder[..zcount], id)[k] < MAX_WINDOWS
      modifies this`zcount, table, used, zorder
      ensures zcount <= MAX_WINDOWS && zorder[..zcount] == Without(old(zorder[..zcount]), id)
      ensures used[..] == old(used[..])[id := false] && !used[id]
      ensures |table[..]| == MAX_WINDOWS && forall k :: 0 <= k < zcount ==> zorder[..zcount][k] < MAX_WINDOWS
      ensures table[..] == Gone(old(table[..]), zorder[..zcount], id)
    {
      hide Without;
      used[id] := false;
      table[id] := table[id].(visible := false, focused := false);
      Remove(id);
      assert forall k :: 0 <= k < zcount ==> zorder[k] == zorder[..zcount][k];
      if zcount > 0 { table[zorder[zcount - 1]] := table[zorder[zcount - 1]].(focused := true); }
    }

    // wm_destroy_window, for a window in use
    method Discard(id: nat)
      requires Valid() && id < MAX_WINDOWS && used[id]
      modifies this`zcount, table, used, zorder, screen`full, screen`count
      ensures Valid() && screen.full && !used[id]
      ensures var i := IndexOf(old(zorder[..zcount]), id);
              i < |old(List())| && old(List())[i].id == id && List() == DestroyOn(old(List()), i)
    {
      Use();
      ghost var tab, z, u := table[..], zorder[..zcount], used[..];
      hide *;
      Destroyed(u, tab, z, id);
      Free(id);
      screen.MarkAll();
      MakeValid();
    }

    // wm_destroy_window
    method Destroy(id: int)
      requires Valid()
      modifies this`zcount, table, used, zorder, screen`full, screen`count
      ensures Valid()
      ensures if 0 <= id < MAX_WINDOWS && old(used[id]) then
                var i := IndexOf(old(zorder[..zcount]), id);
                && i < |old(List())| && old(List())[i].id == id && List() == DestroyOn(old(List()), i)
                && screen.full && !used[id]
              else List() == old(List())
    {
      if id < 0 || id >= MAX_WINDOWS || !used[id] { return; }
      hide IndexOf, DestroyOn, OnList, TopFocused, AllListed;
      Discard(id);
    }

    lemma Use()
      requires Valid()
      ensures table.Length == used.Length == zorder.Length == MAX_WINDOWS && zcount <= MAX_WINDOWS && Sound()
      ensures OnList(table[..], zorder[..zcount]) && screen.Valid() && TopFocused(List())
      ensures C.Distinct(zorder[..zcount]) && List() == ListOf(table[..], zorder[..zcount])
      ensures AllListed(used[..], zorder[..zcount]) && forall k :: 0 <= k < zcount ==> zorder[k] < MAX_WINDOWS
    {
    }

    lemma KeepValid()
      requires Sound() && screen.Valid() && TopFocused(List()) && AllListed(used[..], zorder[..zcount])
      ensures Valid()
    {
    }

    lemma MakeValid()
      requires table.Length == used.Length == zorder.Length == MAX_WINDOWS && zcount <= MAX_WINDOWS && screen.Valid()
      requires OnList(table[..], zorder[..zcount]) && TopFocused(ListOf(table[..], zorder[..zcount]))
      requires AllListed(used[..], zorder[..zcount])
      ensures Valid() && List() == ListOf(table[..], zorder[..zcount])
    {
    }
  }
}
